/**
 Tags of the form "<registry>/<name>" and the splitting of strings on '/'.
 `Split` follows Python's `str.split("/")`: it never returns an empty list,
 keeps empty segments, and yields one more part than there are separators.
 */
module Tags {
  import opened Wrappers

  const Separator: char := '/'

  /** The one failure of the rewrite: a tag that does not split into exactly two parts. */
  datatype Error = MalformedTag(tag: string)

  /** A tag split into its registry segment and its name segment. */
  datatype TagParts = TagParts(registry: string, name: string)

  /** The number of separators in `s`. */
  function Slashes(s: string): nat {
    if |s| == 0 then 0 else (if s[0] == Separator then 1 else 0) + Slashes(s[1..])
  }

  predicate SlashFree(s: string) {
    Separator !in s
  }

  /** A string is separator-free exactly when it counts no separator. */
  lemma {:induction false} SlashFreeIff(s: string)
    ensures SlashFree(s) <==> Slashes(s) == 0
    decreases |s|
  {
    if |s| > 0 {
      SlashFreeIff(s[1..]);
      assert s == [s[0]] + s[1..];
    }
  }

  /** Separators of a concatenation add up. */
  lemma {:induction false} SlashesAppend(a: string, b: string)
    ensures Slashes(a + b) == Slashes(a) + Slashes(b)
    decreases |a|
  {
    if |a| > 0 {
      assert (a + b)[1..] == a[1..] + b;
      SlashesAppend(a[1..], b);
    } else {
      assert a + b == b;
    }
  }

  /** A tag is well formed when it holds exactly one separator. */
  predicate WellFormed(tag: string) {
    Slashes(tag) == 1
  }

  /** The parts of `s` between separators, as Python's `s.split("/")`. */
  function Split(s: string): (parts: seq<string>)
    ensures |parts| == Slashes(s) + 1
    ensures forall i :: 0 <= i < |parts| ==> SlashFree(parts[i])
    decreases |s|
  {
    if |s| == 0 then [""]
    else
      var rest := Split(s[1..]);
      if s[0] == Separator then [""] + rest
      else [[s[0]] + rest[0]] + rest[1..]
  }

  /** The inverse of `Split`: the parts glued back together with separators. */
  function Join(parts: seq<string>): string
    requires |parts| >= 1
  {
    if |parts| == 1 then parts[0] else parts[0] + [Separator] + Join(parts[1..])
  }

  /** Splitting loses nothing: joining the parts gives back the string. */
  lemma {:induction false} JoinSplit(s: string)
    ensures Join(Split(s)) == s
    decreases |s|
  {
    if |s| > 0 {
      var rest := Split(s[1..]);
      JoinSplit(s[1..]);
      assert s == [s[0]] + s[1..];
      if s[0] == Separator {
        assert ([""] + rest)[1..] == rest;
      } else if |rest| > 1 {
        var parts := [[s[0]] + rest[0]] + rest[1..];
        assert parts[1..] == rest[1..];
        assert Join(rest) == rest[0] + [Separator] + Join(rest[1..]);
      }
    }
  }

  /** Splitting `a + b` when `a` holds no separator extends the first part of `b`'s split. */
  lemma {:induction false} SplitSlashFreePrefix(a: string, b: string)
    requires SlashFree(a)
    ensures Split(a + b) == [a + Split(b)[0]] + Split(b)[1..]
    decreases |a|
  {
    if |a| > 0 {
      var sb := Split(b);
      var rest := Split((a + b)[1..]);
      assert (a + b)[1..] == a[1..] + b;
      SplitSlashFreePrefix(a[1..], b);
      assert rest == [a[1..] + sb[0]] + sb[1..];
      assert (a + b)[0] == a[0] && a[0] != Separator;
      assert Split(a + b) == [[a[0]] + rest[0]] + rest[1..];
      assert rest[1..] == sb[1..];
      assert [a[0]] + (a[1..] + sb[0]) == a + sb[0];
    } else {
      var sb := Split(b);
      assert a + b == b;
      assert a + sb[0] == sb[0];
      assert sb == [sb[0]] + sb[1..];
    }
  }

  /** A leading separator contributes an empty first part. */
  lemma SplitAfterSeparator(s: string)
    ensures Split([Separator] + s) == [""] + Split(s)
  {
    assert ([Separator] + s)[1..] == s;
  }

  /** Joining separator-free parts and splitting again gives back the parts. */
  lemma {:induction false} SplitJoin(parts: seq<string>)
    requires |parts| >= 1
    requires forall i :: 0 <= i < |parts| ==> SlashFree(parts[i])
    ensures Split(Join(parts)) == parts
    decreases |parts|
  {
    var head := parts[0];
    if |parts| == 1 {
      SplitSlashFreePrefix(head, "");
      assert head + "" == head;
    } else {
      var tail := Join(parts[1..]);
      var sep := [Separator] + tail;
      SplitJoin(parts[1..]);
      SplitAfterSeparator(tail);
      var ss := Split(sep);
      assert ss[0] == "" && ss[1..] == parts[1..];
      SplitSlashFreePrefix(head, sep);
      assert Split(head + sep) == [head + ss[0]] + ss[1..];
      assert head + ss[0] == head;
      assert parts == [head] + parts[1..];
      assert Join(parts) == head + sep;
    }
  }

  /**
   Unpacks a tag into (registry, name), failing unless the split on the
   separator yields exactly two parts.
   */
  function SplitTag(tag: string): (r: Result<TagParts, Error>)
    ensures r.Success? <==> WellFormed(tag)
    ensures r.Success? ==>
      && SlashFree(r.value.registry)
      && SlashFree(r.value.name)
      && tag == r.value.registry + [Separator] + r.value.name
    ensures r.Failure? ==> r.error == MalformedTag(tag)
  {
    var parts := Split(tag);
    if |parts| == 2 then
      JoinSplit(tag);
      assert Join(parts[1..]) == parts[1];
      Success(TagParts(parts[0], parts[1]))
    else
      Failure(MalformedTag(tag))
  }

  /** A tag built from a separator-free registry and name splits back into them. */
  lemma SplitTagOfParts(registry: string, name: string)
    requires SlashFree(registry) && SlashFree(name)
    ensures SplitTag(registry + [Separator] + name) == Success(TagParts(registry, name))
  {
    var parts := [registry, name];
    assert parts[1..] == [name];
    SplitJoin(parts);
  }
}
