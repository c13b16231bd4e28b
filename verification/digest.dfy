/**
 The digest of an image is the name of the directory that holds its
 `manifest.json`: the last '/'-separated segment of that directory's path.
 */
module Digest {
  import opened Tags

  /** A string with a separator at some index is not separator-free. */
  lemma SeparatorAt(s: string, k: int)
    requires 0 <= k < |s| && s[k] == Separator
    ensures !SlashFree(s)
  {
  }

  /** A suffix that stops at a separator or the start is the whole of a separator-free string. */
  lemma WholeWhenSlashFree(s: string, d: string)
    requires SlashFree(s) && |d| <= |s| && s[|s| - |d|..] == d
    requires |d| == |s| || s[|s| - |d| - 1] == Separator
    ensures d == s
  {
    if |d| < |s| {
      SeparatorAt(s, |s| - |d| - 1);
    }
  }

  /** The last part of a split string is its longest separator-free suffix. */
  lemma {:induction false} LastPartIsSuffix(s: string)
    ensures var d := Split(s)[|Split(s)| - 1];
      && |d| <= |s|
      && s[|s| - |d|..] == d
      && (|d| == |s| || s[|s| - |d| - 1] == Separator)
    decreases |s|
  {
    if |s| > 0 {
      var tail := s[1..];
      var rest := Split(tail);
      var l := rest[|rest| - 1];
      LastPartIsSuffix(tail);
      assert s[|s| - |l|..] == tail[|tail| - |l|..];
      if s[0] == Separator {
        assert Split(s) == [""] + rest;
      } else {
        assert Split(s) == [[s[0]] + rest[0]] + rest[1..];
        SlashFreeIff(tail);
        if |rest| == 1 {
          WholeWhenSlashFree(tail, l);
          assert [s[0]] + tail == s;
        } else {
          assert !SlashFree(tail);
          assert SlashFree(l);
          assert |l| < |tail|;
        }
      }
    }
  }

  /**
   The digest derived from the directory holding a manifest: the segment
   after the last separator of the path, or the whole path if it has none.
   */
  function DigestOf(dirpath: string): (d: string)
    ensures SlashFree(d)
    ensures |d| <= |dirpath| && dirpath[|dirpath| - |d|..] == d
    ensures |d| == |dirpath| || dirpath[|dirpath| - |d| - 1] == Separator
  {
    var parts := Split(dirpath);
    LastPartIsSuffix(dirpath);
    parts[|parts| - 1]
  }

  /** The digest of "<parent>/<dir>" is "<dir>", whatever the parent path. */
  lemma DigestOfChild(parent: string, dir: string)
    requires SlashFree(dir)
    ensures DigestOf(parent + [Separator] + dir) == dir
  {
    var p := parent + [Separator] + dir;
    var d := DigestOf(p);
    assert p[|p| - |dir|..] == dir;
    if |d| > |dir| {
      SeparatorAt(d, |d| - |dir| - 1);
      assert false;
    } else if |d| < |dir| {
      assert false;
    }
  }
}
