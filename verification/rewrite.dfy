/**
 The tag rewrite applied to every image entry of a manifest: each original
 tag stays in place and, when a target registry is set, non-empty and
 different from the tag's own registry, a copy of the tag under the target
 registry is inserted right after it.
 */
module Rewrite {
  import opened Wrappers
  import opened Tags

  /** An image entry of a manifest: its tag list and all its other fields. */
  datatype Image<F> = Image(repoTags: seq<string>, fields: F)

  /** Python truthiness of the target registry: neither absent nor empty. */
  predicate Active(target: Option<string>) {
    target.Some? && target.value != ""
  }

  /** Whether the rewrite inserts a target-registry copy after `tag`. */
  predicate Adds(tag: string, target: Option<string>) {
    match SplitTag(tag)
    case Success(p) => Active(target) && p.registry != target.value
    case Failure(_) => false
  }

  /** The copy of `tag` under the target registry: target, separator, the tag's name. */
  function Retarget(tag: string, target: Option<string>): string
    requires WellFormed(tag) && target.Some?
  {
    target.value + [Separator] + SplitTag(tag).value.name
  }

  /** The index of the first malformed tag, or `|tags|` when every tag is well formed. */
  function FirstMalformed(tags: seq<string>): (k: nat)
    ensures k <= |tags|
    ensures forall j :: 0 <= j < k ==> WellFormed(tags[j])
    ensures k < |tags| ==> !WellFormed(tags[k])
  {
    if |tags| == 0 || !WellFormed(tags[0]) then 0
    else 1 + FirstMalformed(tags[1..])
  }

  /** How many tags of `tags` gain a target-registry copy. */
  function AddedCount(tags: seq<string>, target: Option<string>): (n: nat)
    ensures n <= |tags|
  {
    if |tags| == 0 then 0
    else (if Adds(tags[0], target) then 1 else 0) + AddedCount(tags[1..], target)
  }

  /**
   The rewritten tag list of one image. The first malformed tag aborts the
   rewrite, whether or not a target registry is set.
   */
  function RewriteTags(tags: seq<string>, target: Option<string>): (r: Result<seq<string>, Error>)
    ensures r.Success? <==> FirstMalformed(tags) == |tags|
    ensures r.Failure? ==> r.error == MalformedTag(tags[FirstMalformed(tags)])
    ensures r.Success? ==> |r.value| == |tags| + AddedCount(tags, target)
    ensures r.Success? ==> |tags| <= |r.value| <= 2 * |tags|
  {
    if |tags| == 0 then Success([])
    else
      match SplitTag(tags[0])
      case Failure(e) => Failure(e)
      case Success(p) =>
        var extra := if Active(target) && p.registry != target.value
                     then [target.value + [Separator] + p.name] else [];
        match RewriteTags(tags[1..], target)
        case Failure(e) => Failure(e)
        case Success(rest) => Success([tags[0]] + extra + rest)
  }

  /** What one well-formed tag becomes: itself, then its copy when `Adds` holds. */
  function Expansion(tag: string, target: Option<string>): seq<string>
    requires WellFormed(tag)
  {
    [tag] + (if Adds(tag, target) then [Retarget(tag, target)] else [])
  }

  /** One step of the rewrite: the first tag's expansion, then the rest rewritten. */
  lemma RewriteStep(tags: seq<string>, target: Option<string>)
    requires |tags| > 0 && WellFormed(tags[0])
    requires RewriteTags(tags[1..], target).Success?
    ensures RewriteTags(tags, target)
      == Success(Expansion(tags[0], target) + RewriteTags(tags[1..], target).value)
  {
  }

  /** A single well-formed tag is rewritten to its expansion. */
  lemma RewriteSingle(tag: string, target: Option<string>)
    requires WellFormed(tag)
    ensures RewriteTags([tag], target) == Success(Expansion(tag, target))
  {
    assert [tag][1..] == [];
    RewriteStep([tag], target);
    assert Expansion(tag, target) + [] == Expansion(tag, target);
  }

  /** Where the `i`-th original tag lands in the rewritten list. */
  function Offset(tags: seq<string>, target: Option<string>, i: nat): nat
    requires i <= |tags|
  {
    i + AddedCount(tags[..i], target)
  }

  /**
   `out` is laid out block by block from `tags`: the `i`-th original tag sits
   at `Offset(i)`, followed by its target-registry copy exactly when `Adds`
   holds, the next original tag follows immediately after, and the list
   ends right after the last block.
   */
  ghost predicate Placed(tags: seq<string>, target: Option<string>, out: seq<string>) {
    && |out| == Offset(tags, target, |tags|)
    && forall i :: 0 <= i < |tags| ==> PlacedAt(tags, target, out, i)
  }

  /** The block of the `i`-th original tag inside `out`. */
  ghost predicate PlacedAt(tags: seq<string>, target: Option<string>, out: seq<string>, i: nat)
    requires i < |tags|
  {
    && Offset(tags, target, i) < |out|
    && out[Offset(tags, target, i)] == tags[i]
    && Offset(tags, target, i + 1) == Offset(tags, target, i) + (if Adds(tags[i], target) then 2 else 1)
    && (Adds(tags[i], target) ==>
          Offset(tags, target, i) + 1 < |out| && out[Offset(tags, target, i) + 1] == Retarget(tags[i], target))
  }

  /** Offsets past the first tag are shifted by the size of its block. */
  lemma OffsetCons(tags: seq<string>, target: Option<string>, i: nat)
    requires 0 < i <= |tags|
    ensures Offset(tags, target, i)
      == (if Adds(tags[0], target) then 2 else 1) + Offset(tags[1..], target, i - 1)
  {
    assert tags[..i] == [tags[0]] + tags[1..][..i - 1];
  }

  /** Prefixing one tag's expansion keeps the layout. */
  lemma PlacedCons(tags: seq<string>, target: Option<string>, outRest: seq<string>)
    requires |tags| > 0 && WellFormed(tags[0])
    requires Placed(tags[1..], target, outRest)
    ensures Placed(tags, target, Expansion(tags[0], target) + outRest)
  {
    OffsetCons(tags, target, |tags|);
    forall i | 0 <= i < |tags|
      ensures PlacedAt(tags, target, Expansion(tags[0], target) + outRest, i)
    {
      PlacedConsAt(tags, target, outRest, i);
    }
  }

  /** The block of one tag survives prefixing the first tag's expansion. */
  lemma PlacedConsAt(tags: seq<string>, target: Option<string>, outRest: seq<string>, i: nat)
    requires i < |tags| && WellFormed(tags[0])
    requires |outRest| == Offset(tags[1..], target, |tags| - 1)
    requires i > 0 ==> PlacedAt(tags[1..], target, outRest, i - 1)
    ensures PlacedAt(tags, target, Expansion(tags[0], target) + outRest, i)
  {
    OffsetCons(tags, target, i + 1);
    if i == 0 {
      assert tags[..0] == [];
    } else {
      OffsetCons(tags, target, i);
      assert tags[i] == tags[1..][i - 1];
    }
  }

  /** The rewritten list of a successful rewrite is laid out block by block. */
  lemma {:induction false} RewritePositions(tags: seq<string>, target: Option<string>)
    requires RewriteTags(tags, target).Success?
    ensures Placed(tags, target, RewriteTags(tags, target).value)
    decreases |tags|
  {
    if |tags| == 0 {
      assert tags[..0] == [];
    } else {
      assert FirstMalformed(tags[1..]) == |tags| - 1;
      RewritePositions(tags[1..], target);
      RewriteStep(tags, target);
      PlacedCons(tags, target, RewriteTags(tags[1..], target).value);
    }
  }

  /** Appending a tag adds its own contribution to the count. */
  lemma {:induction false} AddedCountSnoc(tags: seq<string>, tag: string, target: Option<string>)
    ensures AddedCount(tags + [tag], target) == AddedCount(tags, target) + (if Adds(tag, target) then 1 else 0)
    decreases |tags|
  {
    if |tags| > 0 {
      assert (tags + [tag])[1..] == tags[1..] + [tag];
      AddedCountSnoc(tags[1..], tag, target);
    } else {
      assert tags + [tag] == [tag];
    }
  }

  /** Original tags keep their relative order: offsets strictly increase. */
  lemma {:induction false} OffsetIncreasing(tags: seq<string>, target: Option<string>, i: nat, j: nat)
    requires i < j <= |tags|
    ensures Offset(tags, target, i) < Offset(tags, target, j)
    decreases j - i
  {
    assert tags[..i + 1] == tags[..i] + [tags[i]];
    AddedCountSnoc(tags[..i], tags[i], target);
    if i + 1 < j {
      OffsetIncreasing(tags, target, i + 1, j);
    }
  }

  /** A first tag that gains no copy is kept alone in front of the rewritten rest. */
  lemma {:induction false} RewriteKeepStep(tags: seq<string>, target: Option<string>)
    requires |tags| > 0 && WellFormed(tags[0]) && !Adds(tags[0], target)
    requires RewriteTags(tags[1..], target) == Success(tags[1..])
    ensures RewriteTags(tags, target) == Success(tags)
  {
    RewriteStep(tags, target);
    assert Expansion(tags[0], target) == [tags[0]];
    assert [tags[0]] + tags[1..] == tags;
  }

  /** When no tag gains a copy, a successful rewrite returns the list unchanged. */
  lemma {:induction false} RewriteWithoutAdditions(tags: seq<string>, target: Option<string>)
    requires FirstMalformed(tags) == |tags|
    requires forall i :: 0 <= i < |tags| ==> !Adds(tags[i], target)
    ensures RewriteTags(tags, target) == Success(tags)
    decreases |tags|
  {
    if |tags| > 0 {
      assert FirstMalformed(tags[1..]) == |tags| - 1;
      assert forall i :: 0 <= i < |tags[1..]| ==> !Adds(tags[1..][i], target);
      RewriteWithoutAdditions(tags[1..], target);
      RewriteKeepStep(tags, target);
    }
  }

  /**
   With no target registry, or an empty one, every well-formed tag list is
   returned unchanged; a malformed tag still aborts.
   */
  lemma {:induction false} RewriteInactive(tags: seq<string>, target: Option<string>)
    requires !Active(target)
    ensures FirstMalformed(tags) == |tags| ==> RewriteTags(tags, target) == Success(tags)
    ensures FirstMalformed(tags) < |tags| ==>
      RewriteTags(tags, target) == Failure(MalformedTag(tags[FirstMalformed(tags)]))
  {
    if FirstMalformed(tags) == |tags| {
      RewriteWithoutAdditions(tags, target);
    }
  }

  /** Tags already under the target registry gain nothing. */
  lemma {:induction false} RewriteAlreadyPrefixed(tags: seq<string>, registry: string)
    requires forall i :: 0 <= i < |tags| ==>
      WellFormed(tags[i]) && SplitTag(tags[i]).value.registry == registry
    ensures RewriteTags(tags, Some(registry)) == Success(tags)
  {
    RewriteWithoutAdditions(tags, Some(registry));
  }

  /**
   A tag "<registry>/<name>" gains a copy exactly when the target is
   non-empty and differs from `registry`, and the copy is "<target>/<name>".
   */
  lemma AddsExactly(registry: string, name: string, target: Option<string>)
    requires SlashFree(registry) && SlashFree(name)
    ensures Adds(registry + [Separator] + name, target) <==> Active(target) && target.value != registry
    ensures target.Some? ==>
      && WellFormed(registry + [Separator] + name)
      && Retarget(registry + [Separator] + name, target) == target.value + [Separator] + name
  {
    SplitTagOfParts(registry, name);
  }

  /** A single tag under another registry is followed by its copy under the target. */
  lemma RewriteAddsQualifiedCopy(registry: string, name: string, target: string)
    requires SlashFree(registry) && SlashFree(name)
    requires target != "" && target != registry
    ensures RewriteTags([registry + [Separator] + name], Some(target))
      == Success([registry + [Separator] + name, target + [Separator] + name])
  {
    var tag := registry + [Separator] + name;
    SplitTagOfParts(registry, name);
    AddsExactly(registry, name, Some(target));
    RewriteSingle(tag, Some(target));
    assert Expansion(tag, Some(target)) == [tag, target + [Separator] + name];
  }

  /**
   The rewrite is not idempotent: rewriting an already rewritten list
   inserts the target-registry copy a second time, because the original tag
   still differs from the target while the earlier copy, already under the
   target registry, adds nothing and is not compared against.
   */
  lemma RewriteTwiceDuplicates(tag: string, target: Option<string>)
    requires WellFormed(tag) && Adds(tag, target) && SlashFree(target.value)
    ensures RewriteTags([tag], target) == Success([tag, Retarget(tag, target)])
    ensures RewriteTags([tag, Retarget(tag, target)], target)
      == Success([tag, Retarget(tag, target), Retarget(tag, target)])
  {
    var p := SplitTag(tag).value;
    var copy := Retarget(tag, target);
    AddsExactly(target.value, p.name, target);
    SplitTagOfParts(target.value, p.name);
    RewriteWithoutAdditions([copy], target);
    RewriteSingle(tag, target);
    assert Expansion(tag, target) == [tag, copy];
    assert [tag, copy][1..] == [copy];
    RewriteStep([tag, copy], target);
    assert [tag, copy] + [copy] == [tag, copy, copy];
  }

  /**
   A target registry that itself contains a separator produces copies that
   are malformed tags, so rewriting the output again fails on the copy.
   */
  lemma RewriteSlashedTargetBreaksRerun(tag: string, target: Option<string>)
    requires WellFormed(tag) && Adds(tag, target) && !SlashFree(target.value)
    ensures RewriteTags([tag], target) == Success([tag, Retarget(tag, target)])
    ensures RewriteTags([tag, Retarget(tag, target)], target)
      == Failure(MalformedTag(Retarget(tag, target)))
  {
    var p := SplitTag(tag).value;
    var copy := Retarget(tag, target);
    SlashFreeIff(target.value);
    SlashesAppend(target.value, [Separator]);
    SlashesAppend(target.value + [Separator], p.name);
    assert Slashes(copy) >= 2;
    RewriteSingle(tag, target);
    assert Expansion(tag, target) == [tag, copy];
    assert [tag, copy][1..] == [copy];
    assert FirstMalformed([copy]) == 0;
  }

  /** The tags of every image of a document, in document order. */
  function AllTags<F>(doc: seq<Image<F>>): seq<string> {
    if |doc| == 0 then [] else doc[0].repoTags + AllTags(doc[1..])
  }

  /** The first malformed tag of a concatenation lies in the first part if it has one. */
  lemma {:induction false} FirstMalformedAppend(a: seq<string>, b: seq<string>)
    ensures FirstMalformed(a + b)
      == if FirstMalformed(a) < |a| then FirstMalformed(a) else |a| + FirstMalformed(b)
    decreases |a|
  {
    if |a| == 0 {
      assert a + b == b;
    } else {
      assert (a + b)[1..] == a[1..] + b;
      FirstMalformedAppend(a[1..], b);
    }
  }

  /**
   Rewrites one image entry: only its tag list changes, every other field
   is carried over as it was.
   */
  function RewriteImage<F>(image: Image<F>, target: Option<string>): (r: Result<Image<F>, Error>)
    ensures r.Success? <==> FirstMalformed(image.repoTags) == |image.repoTags|
    ensures r.Failure? ==> r.error == MalformedTag(image.repoTags[FirstMalformed(image.repoTags)])
    ensures r.Success? ==> r.value.fields == image.fields
    ensures r.Success? ==> RewriteTags(image.repoTags, target) == Success(r.value.repoTags)
  {
    match RewriteTags(image.repoTags, target)
    case Success(tags) => Success(image.(repoTags := tags))
    case Failure(e) => Failure(e)
  }

  /**
   Rewrites every image entry of a parsed manifest, in order; the first
   malformed tag of the document aborts the rewrite.
   */
  function RewriteDocument<F>(doc: seq<Image<F>>, target: Option<string>): (r: Result<seq<Image<F>>, Error>)
    ensures r.Success? <==> FirstMalformed(AllTags(doc)) == |AllTags(doc)|
    ensures r.Failure? ==> r.error == MalformedTag(AllTags(doc)[FirstMalformed(AllTags(doc))])
    ensures r.Success? ==> |r.value| == |doc|
    ensures r.Success? ==> forall i :: 0 <= i < |doc| ==>
      && r.value[i].fields == doc[i].fields
      && RewriteTags(doc[i].repoTags, target) == Success(r.value[i].repoTags)
  {
    if |doc| == 0 then Success([])
    else
      var first := doc[0].repoTags;
      assert AllTags(doc) == first + AllTags(doc[1..]);
      FirstMalformedAppend(first, AllTags(doc[1..]));
      match RewriteImage(doc[0], target)
      case Failure(e) =>
        assert FirstMalformed(first) < |first|;
        Failure(e)
      case Success(image) =>
        match RewriteDocument(doc[1..], target)
        case Failure(e) => Failure(e)
        case Success(rest) =>
          assert forall i :: 0 < i < |doc| ==> doc[i] == doc[1..][i - 1] && ([image] + rest)[i] == rest[i - 1];
          Success([image] + rest)
  }

  /**
   With no target registry, or an empty one, a document whose tags are all
   well formed comes back exactly as it was.
   */
  lemma {:induction false} RewriteDocumentInactive<F>(doc: seq<Image<F>>, target: Option<string>)
    requires !Active(target)
    requires FirstMalformed(AllTags(doc)) == |AllTags(doc)|
    ensures RewriteDocument(doc, target) == Success(doc)
    decreases |doc|
  {
    if |doc| > 0 {
      FirstMalformedAppend(doc[0].repoTags, AllTags(doc[1..]));
      RewriteInactive(doc[0].repoTags, target);
      RewriteDocumentInactive(doc[1..], target);
      assert [doc[0]] + doc[1..] == doc;
    }
  }

  /** A one-image document is rewritten to that image with its tags rewritten. */
  lemma RewriteDocumentSingle<F>(image: Image<F>, target: Option<string>)
    requires RewriteTags(image.repoTags, target).Success?
    ensures RewriteDocument([image], target)
      == Success([image.(repoTags := RewriteTags(image.repoTags, target).value)])
  {
    var tags := RewriteTags(image.repoTags, target).value;
    assert RewriteImage(image, target) == Success(image.(repoTags := tags));
    assert [image][1..] == [];
    assert RewriteDocument([image][1..], target) == Success([]);
    assert [image.(repoTags := tags)] + [] == [image.(repoTags := tags)];
  }
}
