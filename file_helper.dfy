/** customApp/helpers/fileHelper.js: the storage-name generator and the
    image-extension test. The clock reading `new Date().getTime()` is a
    parameter. */
module FileHelper {
  import opened Strings

  /** The extensions the thumbnail service handles, in the source's order. */
  const ImageExtensions: seq<string> := ["jpg", "png", "jpeg"]

  /** `getFileName(name, index)` read at clock value `timestamp`:
      `<first segment>-<timestamp>-<index>.<last segment>` of the `.`-split name. */
  function GetFileName(name: string, timestamp: nat, index: nat): string
  {
    var parts := Split(name, '.');
    parts[0] + "-" + NatToString(timestamp) + "-" + NatToString(index) + "." + Last(parts)
  }

  /** The part of a generated name before its dot. */
  function Stem(name: string, timestamp: nat, index: nat): string
  {
    FirstSegment(name, '.') + "-" + NatToString(timestamp) + "-" + NatToString(index)
  }

  lemma StemHasNoDot(name: string, timestamp: nat, index: nat)
    ensures '.' !in Stem(name, timestamp, index)
    ensures GetFileName(name, timestamp, index) == Stem(name, timestamp, index) + "." + LastSegment(name, '.')
  {
    var ts, ix := NatToString(timestamp), NatToString(index);
    assert '.' !in FirstSegment(name, '.');
    assert forall k :: 0 <= k < |ts| ==> ts[k] != '.';
    assert forall k :: 0 <= k < |ix| ==> ix[k] != '.';
  }

  /** Splitting a generated name at `.` gives back the stem and the original
      extension: the name starts with the first segment of `name` and a dash,
      and ends with a dot and the last segment of `name`. */
  lemma GetFileNameSegments(name: string, timestamp: nat, index: nat)
    ensures FirstSegment(GetFileName(name, timestamp, index), '.') == Stem(name, timestamp, index)
    ensures LastSegment(GetFileName(name, timestamp, index), '.') == LastSegment(name, '.')
    ensures StartsWith(GetFileName(name, timestamp, index), FirstSegment(name, '.') + "-")
    ensures EndsWith(GetFileName(name, timestamp, index),
                     "-" + NatToString(index) + "." + LastSegment(name, '.'))
  {
    StemHasNoDot(name, timestamp, index);
    var stem := Stem(name, timestamp, index);
    var ext := LastSegment(name, '.');
    assert '.' !in ext;
    FirstSegmentBefore(stem, ext, '.');
    LastSegmentAfter(stem, ext, '.');
    GetFileNameEnds(name, timestamp, index);
  }

  lemma GetFileNameEnds(name: string, timestamp: nat, index: nat)
    ensures StartsWith(GetFileName(name, timestamp, index), FirstSegment(name, '.') + "-")
    ensures EndsWith(GetFileName(name, timestamp, index),
                     "-" + NatToString(index) + "." + LastSegment(name, '.'))
  {
    var f, t, i, e := FirstSegment(name, '.'), NatToString(timestamp), NatToString(index), LastSegment(name, '.');
    StartsWithSelf(f + "-");
    StartsWithExtend(f + "-", t, f + "-");
    StartsWithExtend(f + "-" + t, "-", f + "-");
    StartsWithExtend(f + "-" + t + "-", i, f + "-");
    StartsWithExtend(f + "-" + t + "-" + i, ".", f + "-");
    StartsWithExtend(f + "-" + t + "-" + i + ".", e, f + "-");
    EndsWithSuffix(f + "-" + t, "-");
    EndsWithExtend(f + "-" + t + "-", "-", i);
    EndsWithExtend(f + "-" + t + "-" + i, "-" + i, ".");
    EndsWithExtend(f + "-" + t + "-" + i + ".", "-" + i + ".", e);
  }

  /** A generated name holds exactly one dot. */
  lemma GetFileNameHasOneDot(name: string, timestamp: nat, index: nat)
    ensures multiset(GetFileName(name, timestamp, index))['.'] == 1
  {
    StemHasNoDot(name, timestamp, index);
    var stem := Stem(name, timestamp, index);
    var ext := LastSegment(name, '.');
    assert '.' !in ext;
    assert multiset(stem + "." + ext) == multiset(stem) + multiset{'.'} + multiset(ext);
  }

  /** A name without a dot is both prefix and extension: "a" gives "a-ts-i.a". */
  lemma GetFileNameWithoutDot(name: string, timestamp: nat, index: nat)
    requires '.' !in name
    ensures GetFileName(name, timestamp, index)
         == name + "-" + NatToString(timestamp) + "-" + NatToString(index) + "." + name
  {
    SegmentsWithoutSeparator(name, '.');
  }

  /** Middle segments are dropped: "a.b.c" gives "a-ts-i.c". */
  lemma GetFileNameDropsMiddle(a: string, m: string, z: string, timestamp: nat, index: nat)
    requires '.' !in a && '.' !in z
    ensures GetFileName(a + "." + m + "." + z, timestamp, index)
         == a + "-" + NatToString(timestamp) + "-" + NatToString(index) + "." + z
  {
    var name := a + "." + m + "." + z;
    assert name == a + ['.'] + (m + "." + z);
    assert name == (a + "." + m) + ['.'] + z;
    FirstSegmentBefore(a, m + "." + z, '.');
    LastSegmentAfter(a + "." + m, z, '.');
  }

  /** Two different indices never yield the same storage name, whatever the
      names and clock readings. */
  lemma GetFileNameDistinct(name1: string, ts1: nat, i1: nat, name2: string, ts2: nat, i2: nat)
    requires i1 != i2
    ensures GetFileName(name1, ts1, i1) != GetFileName(name2, ts2, i2)
  {
    if GetFileName(name1, ts1, i1) == GetFileName(name2, ts2, i2) {
      StemHasNoDot(name1, ts1, i1);
      StemHasNoDot(name2, ts2, i2);
      var ext1, ext2 := LastSegment(name1, '.'), LastSegment(name2, '.');
      assert '.' !in ext1 && '.' !in ext2;
      LastSeparatorUnique(Stem(name1, ts1, i1), ext1, Stem(name2, ts2, i2), ext2, '.');
      var d1, d2 := NatToString(i1), NatToString(i2);
      assert forall k :: 0 <= k < |d1| ==> d1[k] != '-';
      assert forall k :: 0 <= k < |d2| ==> d2[k] != '-';
      var p1 := FirstSegment(name1, '.') + "-" + NatToString(ts1);
      var p2 := FirstSegment(name2, '.') + "-" + NatToString(ts2);
      assert Stem(name1, ts1, i1) == p1 + ['-'] + d1;
      assert Stem(name2, ts2, i2) == p2 + ['-'] + d2;
      LastSeparatorUnique(p1, d1, p2, d2, '-');
      NatToStringInjective(i1, i2);
      assert false;
    }
  }

  /** `isImageExtention(e)`: exact, case-sensitive membership in jpg, png, jpeg. */
  function IsImageExtension(extension: string): (r: bool)
    ensures r <==> extension == "jpg" || extension == "png" || extension == "jpeg"
  {
    IndexOf(ImageExtensions, extension) != -1
  }
}
