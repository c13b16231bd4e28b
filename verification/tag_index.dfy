/**
 The tag-to-digests index built during the walk: an insertion-ordered map
 from each original tag to the digests it was seen under, one entry per
 sighting, and the conflicts it reveals.
 */
module TagIndex {

  /** One key of the index with the digests recorded for it, oldest first. */
  datatype Entry = Entry(tag: string, digests: seq<string>)

  /** One occurrence of an original tag in a manifest under the given digest. */
  datatype Sighting = Sighting(tag: string, digest: string)

  /** The keys of an index, in insertion order. */
  function Keys(ix: seq<Entry>): seq<string> {
    if |ix| == 0 then [] else [ix[0].tag] + Keys(ix[1..])
  }

  /** Keys are distinct and every key has at least one digest. */
  ghost predicate Valid(ix: seq<Entry>) {
    && (forall i, j :: 0 <= i < j < |ix| ==> ix[i].tag != ix[j].tag)
    && (forall i :: 0 <= i < |ix| ==> |ix[i].digests| > 0)
  }

  /** The digests recorded for `tag`, or none when it is not a key. */
  function Lookup(ix: seq<Entry>, tag: string): seq<string> {
    if |ix| == 0 then []
    else if ix[0].tag == tag then ix[0].digests
    else Lookup(ix[1..], tag)
  }

  lemma {:induction false} KeysMembership(ix: seq<Entry>, tag: string)
    ensures tag in Keys(ix) <==> exists i :: 0 <= i < |ix| && ix[i].tag == tag
    decreases |ix|
  {
    if |ix| > 0 {
      KeysMembership(ix[1..], tag);
      if tag in Keys(ix[1..]) {
        var i :| 0 <= i < |ix[1..]| && ix[1..][i].tag == tag;
        assert ix[i + 1].tag == tag;
      }
      if exists i :: 0 <= i < |ix| && ix[i].tag == tag {
        var i :| 0 <= i < |ix| && ix[i].tag == tag;
        if i > 0 {
          assert ix[1..][i - 1].tag == tag;
        }
      }
    }
  }

  /** In a valid index, `Lookup` finds exactly the entry holding the tag. */
  lemma {:induction false} LookupEntry(ix: seq<Entry>, i: int)
    requires Valid(ix) && 0 <= i < |ix|
    ensures Lookup(ix, ix[i].tag) == ix[i].digests
    decreases |ix|
  {
    if i > 0 {
      assert ix[0].tag != ix[i].tag;
      LookupEntry(ix[1..], i - 1);
    }
  }

  /** A tag that is not a key has no digests. */
  lemma {:induction false} LookupAbsent(ix: seq<Entry>, tag: string)
    requires tag !in Keys(ix)
    ensures Lookup(ix, tag) == []
    decreases |ix|
  {
    if |ix| > 0 {
      LookupAbsent(ix[1..], tag);
    }
  }

  /**
   Records one sighting, as `name_digest[tag].append(digest)` on a
   defaultdict: a new tag becomes the last key with a one-digest list, a
   known tag gets the digest appended, every other key is left alone.
   */
  function Record(ix: seq<Entry>, s: Sighting): (r: seq<Entry>)
    ensures Lookup(r, s.tag) == Lookup(ix, s.tag) + [s.digest]
    ensures forall t :: t != s.tag ==> Lookup(r, t) == Lookup(ix, t)
    ensures Keys(r) == if s.tag in Keys(ix) then Keys(ix) else Keys(ix) + [s.tag]
    decreases |ix|
  {
    if |ix| == 0 then
      [Entry(s.tag, [s.digest])]
    else if ix[0].tag == s.tag then
      [Entry(s.tag, ix[0].digests + [s.digest])] + ix[1..]
    else
      [ix[0]] + Record(ix[1..], s)
  }

  /** Recording keeps the keys distinct and every digest list non-empty. */
  lemma {:induction false} RecordValid(ix: seq<Entry>, s: Sighting)
    requires Valid(ix)
    ensures Valid(Record(ix, s))
    decreases |ix|
  {
    if |ix| > 0 && ix[0].tag != s.tag {
      var rest := Record(ix[1..], s);
      RecordValid(ix[1..], s);
      assert Record(ix, s) == [ix[0]] + rest;
      forall k | 0 <= k < |rest|
        ensures rest[k].tag != ix[0].tag
      {
        KeysMembership(rest, rest[k].tag);
        KeysMembership(ix[1..], ix[0].tag);
      }
    }
  }

  /** The tags of a run of sightings, in order. */
  function TagsOf(ss: seq<Sighting>): (tags: seq<string>)
    ensures |tags| == |ss|
    ensures forall i :: 0 <= i < |ss| ==> tags[i] == ss[i].tag
  {
    if |ss| == 0 then [] else TagsOf(ss[..|ss| - 1]) + [ss[|ss| - 1].tag]
  }

  /**
   Reference for one key of the index: the digests of the sightings of
   `tag`, in order, one per sighting, duplicates included.
   */
  function DigestsOf(ss: seq<Sighting>, tag: string): (ds: seq<string>)
    ensures |ds| <= |ss|
  {
    if |ss| == 0 then []
    else
      var last := ss[|ss| - 1];
      DigestsOf(ss[..|ss| - 1], tag) + (if last.tag == tag then [last.digest] else [])
  }

  /** The reference list holds one digest per sighting of the tag. */
  lemma {:induction false} DigestsCount(ss: seq<Sighting>, tag: string)
    ensures |DigestsOf(ss, tag)| == multiset(TagsOf(ss))[tag]
    decreases |ss|
  {
    if |ss| > 0 {
      var pre := ss[..|ss| - 1];
      DigestsCount(pre, tag);
      assert TagsOf(ss) == TagsOf(pre) + [ss[|ss| - 1].tag];
    }
  }

  /** Folds a run of sightings into the index, oldest first. */
  function Accumulate(ix: seq<Entry>, ss: seq<Sighting>): (r: seq<Entry>)
    ensures Keys(ix) <= Keys(r)
  {
    if |ss| == 0 then ix
    else Record(Accumulate(ix, ss[..|ss| - 1]), ss[|ss| - 1])
  }

  /** Folding keeps the keys distinct and every digest list non-empty. */
  lemma {:induction false} AccumulateValid(ix: seq<Entry>, ss: seq<Sighting>)
    requires Valid(ix)
    ensures Valid(Accumulate(ix, ss))
    decreases |ss|
  {
    if |ss| > 0 {
      AccumulateValid(ix, ss[..|ss| - 1]);
      RecordValid(Accumulate(ix, ss[..|ss| - 1]), ss[|ss| - 1]);
    }
  }

  /** Folding two runs one after the other is folding their concatenation. */
  lemma {:induction false} AccumulateAppend(ix: seq<Entry>, a: seq<Sighting>, b: seq<Sighting>)
    ensures Accumulate(ix, a + b) == Accumulate(Accumulate(ix, a), b)
    decreases |b|
  {
    if |b| == 0 {
      assert a + b == a;
    } else {
      assert (a + b)[..|a + b| - 1] == a + b[..|b| - 1];
      assert (a + b)[|a + b| - 1] == b[|b| - 1];
      AccumulateAppend(ix, a, b[..|b| - 1]);
    }
  }

  /** Folding a non-empty run records its last sighting into the fold of the rest. */
  lemma AccumulateSnoc(ix: seq<Entry>, ss: seq<Sighting>)
    requires |ss| > 0
    ensures Accumulate(ix, ss) == Record(Accumulate(ix, ss[..|ss| - 1]), ss[|ss| - 1])
  {
  }

  /** The reference list of a non-empty run grows by the last sighting when it is of `tag`. */
  lemma DigestsOfSnoc(ss: seq<Sighting>, tag: string)
    requires |ss| > 0
    ensures DigestsOf(ss, tag) == DigestsOf(ss[..|ss| - 1], tag)
      + (if ss[|ss| - 1].tag == tag then [ss[|ss| - 1].digest] else [])
  {
  }

  /** Recording a sighting appends its digest under its own tag and nowhere else. */
  lemma RecordLookup(ix: seq<Entry>, s: Sighting, tag: string)
    ensures Lookup(Record(ix, s), tag) == Lookup(ix, tag) + (if s.tag == tag then [s.digest] else [])
  {
    if s.tag != tag {
      assert Lookup(ix, tag) + [] == Lookup(ix, tag);
    }
  }

  /** Every key of the folded index holds the reference digest list for its tag. */
  lemma {:induction false} AccumulateLookup(ix: seq<Entry>, ss: seq<Sighting>, tag: string)
    ensures Lookup(Accumulate(ix, ss), tag) == Lookup(ix, tag) + DigestsOf(ss, tag)
    decreases |ss|
  {
    if |ss| == 0 {
      assert Lookup(ix, tag) + [] == Lookup(ix, tag);
    } else {
      var pre := ss[..|ss| - 1];
      var s := ss[|ss| - 1];
      var extra := if s.tag == tag then [s.digest] else [];
      AccumulateLookup(ix, pre, tag);
      AccumulateSnoc(ix, ss);
      DigestsOfSnoc(ss, tag);
      RecordLookup(Accumulate(ix, pre), s, tag);
      assert (Lookup(ix, tag) + DigestsOf(pre, tag)) + extra == Lookup(ix, tag) + (DigestsOf(pre, tag) + extra);
    }
  }

  /** The first position of `x` in `xs`. */
  function FirstIndex(xs: seq<string>, x: string): (k: nat)
    requires x in xs
    ensures k < |xs| && xs[k] == x
    ensures forall j :: 0 <= j < k ==> xs[j] != x
  {
    if xs[0] == x then 0 else 1 + FirstIndex(xs[1..], x)
  }

  /** Appending to a list does not move the first position of what it already holds. */
  lemma FirstIndexSnoc(xs: seq<string>, x: string, t: string)
    requires t in xs + [x]
    ensures t in xs ==> FirstIndex(xs + [x], t) == FirstIndex(xs, t)
    ensures t !in xs ==> FirstIndex(xs + [x], t) == |xs|
  {
    var k := FirstIndex(xs + [x], t);
    if t in xs {
      var k0 := FirstIndex(xs, t);
      assert (xs + [x])[k0] == t;
    }
  }

  /** Keys ordered by first sighting stay so when one more sighting is appended. */
  lemma {:induction false} KeysSnocOrdered(ks0: seq<string>, tags0: seq<string>, x: string, ks: seq<string>)
    requires forall t :: t in ks0 <==> t in tags0
    requires forall i, j :: 0 <= i < j < |ks0| ==> FirstIndex(tags0, ks0[i]) < FirstIndex(tags0, ks0[j])
    requires ks == if x in ks0 then ks0 else ks0 + [x]
    ensures forall t :: t in ks <==> t in tags0 + [x]
    ensures forall i, j :: 0 <= i < j < |ks| ==> FirstIndex(tags0 + [x], ks[i]) < FirstIndex(tags0 + [x], ks[j])
  {
    var tags := tags0 + [x];
    forall i, j | 0 <= i < j < |ks|
      ensures FirstIndex(tags, ks[i]) < FirstIndex(tags, ks[j])
    {
      FirstIndexSnoc(tags0, x, ks[i]);
      FirstIndexSnoc(tags0, x, ks[j]);
      if x !in ks0 && j == |ks| - 1 {
        assert ks[i] == ks0[i];
      } else {
        assert ks[i] == ks0[i] && ks[j] == ks0[j];
      }
    }
  }

  /**
   The keys of the index built from a run of sightings are exactly the
   tags sighted, in the order of their first sighting.
   */
  lemma {:induction false} IndexKeys(ss: seq<Sighting>)
    ensures forall t :: t in Keys(Accumulate([], ss)) <==> t in TagsOf(ss)
    ensures forall i, j :: 0 <= i < j < |Keys(Accumulate([], ss))| ==>
      FirstIndex(TagsOf(ss), Keys(Accumulate([], ss))[i])
        < FirstIndex(TagsOf(ss), Keys(Accumulate([], ss))[j])
    decreases |ss|
  {
    if |ss| > 0 {
      var pre := ss[..|ss| - 1];
      var s := ss[|ss| - 1];
      IndexKeys(pre);
      AccumulateSnoc([], ss);
      assert TagsOf(ss) == TagsOf(pre) + [s.tag];
      KeysSnocOrdered(Keys(Accumulate([], pre)), TagsOf(pre), s.tag, Keys(Accumulate([], ss)));
    }
  }

  /** Subsequence of entries: `xs` is `ys` with some entries left out. */
  predicate SubsequenceOf(xs: seq<Entry>, ys: seq<Entry>)
    decreases |ys|
  {
    if |xs| == 0 then true
    else if |ys| == 0 then false
    else if xs[0] == ys[0] then SubsequenceOf(xs[1..], ys[1..])
    else SubsequenceOf(xs, ys[1..])
  }

  /**
   The entries reported as conflicts: those with more than one digest, in
   index order.
   */
  function Conflicts(ix: seq<Entry>): (r: seq<Entry>)
    ensures forall e :: e in r <==> e in ix && |e.digests| > 1
    ensures SubsequenceOf(r, ix)
  {
    if |ix| == 0 then []
    else
      var rest := Conflicts(ix[1..]);
      if |ix[0].digests| > 1 then
        assert ([ix[0]] + rest)[1..] == rest;
        [ix[0]] + rest
      else
        assert |rest| > 0 ==> rest[0] in rest;
        rest
  }

  /**
   A tag is reported as a conflict exactly when it was sighted more than
   once, whether under different digests or the same one twice, and the
   report lists the digests of all its sightings.
   */
  lemma {:induction false} ConflictIff(ss: seq<Sighting>, tag: string)
    ensures Entry(tag, DigestsOf(ss, tag)) in Conflicts(Accumulate([], ss))
      <==> multiset(TagsOf(ss))[tag] > 1
  {
    var ix := Accumulate([], ss);
    var ds := DigestsOf(ss, tag);
    AccumulateValid([], ss);
    AccumulateLookup([], ss, tag);
    DigestsCount(ss, tag);
    if multiset(TagsOf(ss))[tag] > 1 {
      if tag !in Keys(ix) {
        LookupAbsent(ix, tag);
      }
      KeysMembership(ix, tag);
      var i :| 0 <= i < |ix| && ix[i].tag == tag;
      LookupEntry(ix, i);
      assert ix[i] == Entry(tag, ds);
    }
  }

  /** Every reported conflict carries the reference digest list of its tag. */
  lemma {:induction false} ConflictDigests(ss: seq<Sighting>)
    ensures forall e :: e in Conflicts(Accumulate([], ss)) ==> e.digests == DigestsOf(ss, e.tag)
  {
    var ix := Accumulate([], ss);
    AccumulateValid([], ss);
    forall e | e in Conflicts(ix)
      ensures e.digests == DigestsOf(ss, e.tag)
    {
      var i :| 0 <= i < |ix| && ix[i] == e;
      LookupEntry(ix, i);
      AccumulateLookup([], ss, e.tag);
    }
  }

  /** The index built from scratch holds, for every tag, the reference digest list. */
  lemma IndexLookup(ss: seq<Sighting>, tag: string)
    ensures Lookup(Accumulate([], ss), tag) == DigestsOf(ss, tag)
  {
    AccumulateLookup([], ss, tag);
    assert Lookup([], tag) == [];
  }

  /** Two sightings of one tag make one key holding both digests, in order. */
  lemma IndexOfTwoSightings(tag: string, d1: string, d2: string)
    ensures Accumulate([], [Sighting(tag, d1), Sighting(tag, d2)]) == [Entry(tag, [d1, d2])]
  {
    var s1 := Sighting(tag, d1);
    var s2 := Sighting(tag, d2);
    assert [s1, s2][..1] == [s1];
    assert [s1][..0] == [];
    var one := [Entry(tag, [d1])];
    assert Accumulate([], [s1]) == one;
    assert Accumulate([], [s1, s2]) == Record(one, s2);
    assert one[1..] == [];
    assert [d1] + [d2] == [d1, d2];
    assert Record(one, s2) == [Entry(tag, [d1, d2])] + one[1..];
  }
}
