/** customApp/helpers/functionHelper.js: the display name of a renamed entry. */
module FunctionHelper {
  import opened Strings

  /** The extensions that `setFileName` accepts as already present. */
  const KeptExtensions: seq<string> := ["jpeg", "jpg", "png"]

  /** `setFileName(originalFileData, file)`, where `fileName` is
      `originalFileData.fileName` (the name the user chose) and `sourceName` is
      `file.name` (the name of the file on disk). */
  function SetFileName(fileName: string, sourceName: string): string
  {
    var parts := Split(fileName, '.');
    if |parts| > 1 && Includes(KeptExtensions, Last(parts)) then fileName
    else fileName + "." + LastSegment(sourceName, '.')
  }

  /** The chosen name already ends, after a dot, in jpeg, jpg or png (exact case). */
  predicate HasKeptExtension(fileName: string)
  {
    '.' in fileName && LastSegment(fileName, '.') in {"jpeg", "jpg", "png"}
  }

  /** The two outcomes: the name is kept exactly when it already has one of the
      kept extensions; otherwise the extension of the file on disk is appended. */
  lemma SetFileNameCases(fileName: string, sourceName: string)
    ensures HasKeptExtension(fileName) ==> SetFileName(fileName, sourceName) == fileName
    ensures !HasKeptExtension(fileName) ==>
              SetFileName(fileName, sourceName) == fileName + "." + LastSegment(sourceName, '.')
    ensures SetFileName(fileName, sourceName) == fileName <==> HasKeptExtension(fileName)
  {
    SplitHasSeveralParts(fileName, '.');
    var r := SetFileName(fileName, sourceName);
    if !HasKeptExtension(fileName) {
      assert |r| > |fileName|;
    }
  }

  /** The result always contains a dot. */
  lemma SetFileNameHasDot(fileName: string, sourceName: string)
    ensures '.' in SetFileName(fileName, sourceName)
  {
    SetFileNameCases(fileName, sourceName);
    if !HasKeptExtension(fileName) {
      var r := SetFileName(fileName, sourceName);
      assert r[|fileName|] == '.';
    }
  }

  /** An extension other than the kept ones stays in the name and the file's
      own extension is appended after it: "doc.pdf" gives "doc.pdf.<ext>". */
  lemma SetFileNameKeepsOtherExtension(stem: string, ext: string, sourceName: string)
    requires '.' !in ext && ext !in {"jpeg", "jpg", "png"}
    ensures SetFileName(stem + "." + ext, sourceName) == stem + "." + ext + "." + LastSegment(sourceName, '.')
  {
    LastSegmentAfter(stem, ext, '.');
    SetFileNameCases(stem + "." + ext, sourceName);
  }

  /** The test is case-sensitive: "x.JPG" gets an extension appended. */
  lemma SetFileNameIsCaseSensitive(sourceName: string)
    ensures SetFileName("x.JPG", sourceName) == "x.JPG." + LastSegment(sourceName, '.')
  {
    assert "x.JPG" == "x" + "." + "JPG";
    SetFileNameKeepsOtherExtension("x", "JPG", sourceName);
  }

  /** When the file on disk has a kept extension, renaming twice is renaming once. */
  lemma SetFileNameIdempotent(fileName: string, sourceName: string)
    requires LastSegment(sourceName, '.') in {"jpeg", "jpg", "png"}
    ensures SetFileName(SetFileName(fileName, sourceName), sourceName) == SetFileName(fileName, sourceName)
  {
    SetFileNameCases(fileName, sourceName);
    var once := SetFileName(fileName, sourceName);
    if !HasKeptExtension(fileName) {
      var ext := LastSegment(sourceName, '.');
      assert '.' !in ext;
      LastSegmentAfter(fileName, ext, '.');
      assert once == fileName + ['.'] + ext;
      assert once[|fileName|] == '.';
      assert HasKeptExtension(once);
    }
    SetFileNameCases(once, sourceName);
  }
}
