/**
 The whole pass over the manifests: every manifest found by the walk is
 rewritten, its original tags are recorded in the index under the
 manifest's digest, and, when writing is on, the rewritten document
 replaces the file before the next manifest is read. The first malformed
 tag ends the run.
 */
module Scan {
  import opened Wrappers
  import opened Tags
  import opened Digest
  import opened Rewrite
  import opened TagIndex

  /** A manifest found by the walk: the directory holding it and its image entries. */
  datatype ManifestFile<F> = ManifestFile(dirpath: string, images: seq<Image<F>>)

  /** A manifest written back: the directory it came from and its rewritten entries. */
  datatype Written<F> = Written(dirpath: string, images: seq<Image<F>>)

  /** What a completed run produced: each rewritten document, in walk order, and the index. */
  datatype Report<F> = Report(documents: seq<seq<Image<F>>>, index: seq<Entry>)

  /** The files written before the run ended, and its report or the error that ended it. */
  datatype Outcome<F> = Outcome(written: seq<Written<F>>, result: Result<Report<F>, Error>)

  /** The original tags of every manifest, in walk order. */
  function OriginalTags<F>(files: seq<ManifestFile<F>>): seq<string> {
    if |files| == 0 then [] else AllTags(files[0].images) + OriginalTags(files[1..])
  }

  /** Each original tag of a manifest, paired with that manifest's digest. */
  function FileSightings<F>(file: ManifestFile<F>): (ss: seq<Sighting>)
    ensures TagsOf(ss) == AllTags(file.images)
    ensures forall i :: 0 <= i < |ss| ==> ss[i].digest == DigestOf(file.dirpath)
  {
    var tags := AllTags(file.images);
    seq(|tags|, i requires 0 <= i < |tags| => Sighting(tags[i], DigestOf(file.dirpath)))
  }

  /** The sightings of the whole walk, manifest after manifest. */
  function Sightings<F>(files: seq<ManifestFile<F>>): seq<Sighting> {
    if |files| == 0 then [] else FileSightings(files[0]) + Sightings(files[1..])
  }

  /** The tags of concatenated sightings are the concatenated tags. */
  lemma TagsOfAppend(a: seq<Sighting>, b: seq<Sighting>)
    ensures TagsOf(a + b) == TagsOf(a) + TagsOf(b)
  {
  }

  /** The index sees the original tags of the walk and nothing else. */
  lemma {:induction false} SightedTagsAreOriginal<F>(files: seq<ManifestFile<F>>)
    ensures TagsOf(Sightings(files)) == OriginalTags(files)
    decreases |files|
  {
    if |files| > 0 {
      SightedTagsAreOriginal(files[1..]);
      TagsOfAppend(FileSightings(files[0]), Sightings(files[1..]));
    }
  }

  /** How many manifests, from the start of the walk, hold only well-formed tags. */
  function CleanFiles<F>(files: seq<ManifestFile<F>>): (k: nat)
    ensures k <= |files|
    ensures forall j :: 0 <= j < k ==>
      FirstMalformed(AllTags(files[j].images)) == |AllTags(files[j].images)|
    ensures k < |files| ==> FirstMalformed(AllTags(files[k].images)) < |AllTags(files[k].images)|
  {
    if |files| == 0 || FirstMalformed(AllTags(files[0].images)) < |AllTags(files[0].images)| then 0
    else 1 + CleanFiles(files[1..])
  }

  /**
   The run from some point of the walk on, given the index built so far:
   manifests are rewritten in walk order, each written back (when writing
   is on) before the next is read, until the first manifest holding a
   malformed tag, which ends the run with that manifest's error.
   */
  function RunFrom<F>(files: seq<ManifestFile<F>>, target: Option<string>, write: bool, ix: seq<Entry>)
    : (o: Outcome<F>)
    ensures o.result.Success? <==> CleanFiles(files) == |files|
    ensures !write ==> o.written == []
    ensures write ==> |o.written| == CleanFiles(files)
    decreases |files|
  {
    if |files| == 0 then
      Outcome([], Success(Report([], ix)))
    else
      var file := files[0];
      match RewriteDocument(file.images, target)
      case Failure(e) => Outcome([], Failure(e))
      case Success(doc) =>
        var rest := RunFrom(files[1..], target, write, Accumulate(ix, FileSightings(file)));
        var written := (if write then [Written(file.dirpath, doc)] else []) + rest.written;
        match rest.result
        case Failure(e) => Outcome(written, Failure(e))
        case Success(report) => Outcome(written, Success(Report([doc] + report.documents, report.index)))
  }

  /** A failed run ends with the error of the first manifest holding a malformed tag. */
  lemma {:induction false} RunFromError<F>(files: seq<ManifestFile<F>>, target: Option<string>, write: bool, ix: seq<Entry>)
    requires RunFrom(files, target, write, ix).result.Failure?
    ensures CleanFiles(files) < |files|
    ensures RewriteDocument(files[CleanFiles(files)].images, target)
      == Failure(RunFrom(files, target, write, ix).result.error)
    decreases |files|
  {
    var doc := RewriteDocument(files[0].images, target);
    if doc.Success? {
      RunFromError(files[1..], target, write, Accumulate(ix, FileSightings(files[0])));
    }
  }

  /** One manifest rewritten cleanly: the run goes on with its sightings recorded. */
  lemma RunFromStep<F>(files: seq<ManifestFile<F>>, target: Option<string>, write: bool, ix: seq<Entry>)
    requires |files| > 0
    requires RewriteDocument(files[0].images, target).Success?
    ensures var doc := RewriteDocument(files[0].images, target).value;
      var rest := RunFrom(files[1..], target, write, Accumulate(ix, FileSightings(files[0])));
      var o := RunFrom(files, target, write, ix);
      && o.written == (if write then [Written(files[0].dirpath, doc)] else []) + rest.written
      && o.result.Success? == rest.result.Success?
      && (o.result.Success? ==> o.result.value.documents == [doc] + rest.result.value.documents)
  {
  }

  /** A manifest that does not rewrite ends the run before anything more is written. */
  lemma RunFromStop<F>(files: seq<ManifestFile<F>>, target: Option<string>, write: bool, ix: seq<Entry>)
    requires |files| > 0
    requires RewriteDocument(files[0].images, target).Failure?
    ensures RunFrom(files, target, write, ix).written == []
  {
  }

  /** A completed run reports one document per manifest. */
  lemma {:induction false} RunFromDocumentCount<F>(files: seq<ManifestFile<F>>, target: Option<string>, write: bool,
                                                   ix: seq<Entry>)
    requires RunFrom(files, target, write, ix).result.Success?
    ensures |RunFrom(files, target, write, ix).result.value.documents| == |files|
    decreases |files|
  {
    if |files| > 0 {
      RunFromStep(files, target, write, ix);
      RunFromDocumentCount(files[1..], target, write, Accumulate(ix, FileSightings(files[0])));
    }
  }

  /** In a completed run, the document reported at position `k` is the rewrite of manifest `k`. */
  lemma {:induction false} RunFromDocumentAt<F>(files: seq<ManifestFile<F>>, target: Option<string>, write: bool,
                                                ix: seq<Entry>, k: int)
    requires RunFrom(files, target, write, ix).result.Success?
    requires 0 <= k < |files|
    ensures k < |RunFrom(files, target, write, ix).result.value.documents|
    ensures RewriteDocument(files[k].images, target) == Success(RunFrom(files, target, write, ix).result.value.documents[k])
    decreases k
  {
    RunFromStep(files, target, write, ix);
    if k > 0 {
      RunFromDocumentAt(files[1..], target, write, Accumulate(ix, FileSightings(files[0])), k - 1);
      assert files[k] == files[1..][k - 1];
    }
  }

  /** In a run with writing on, the file written at position `k` is manifest `k`, rewritten. */
  lemma {:induction false} RunFromWrittenAt<F>(files: seq<ManifestFile<F>>, target: Option<string>, write: bool,
                                               ix: seq<Entry>, k: int)
    requires write
    requires 0 <= k < |RunFrom(files, target, write, ix).written|
    ensures RunFrom(files, target, write, ix).written[k].dirpath == files[k].dirpath
    ensures RewriteDocument(files[k].images, target) == Success(RunFrom(files, target, write, ix).written[k].images)
    decreases k
  {
    if RewriteDocument(files[0].images, target).Failure? {
      RunFromStop(files, target, write, ix);
    } else {
      var next := Accumulate(ix, FileSightings(files[0]));
      RunFromStep(files, target, write, ix);
      if k > 0 {
        RunFromWrittenAt(files[1..], target, write, next, k - 1);
        assert files[k] == files[1..][k - 1];
      }
    }
  }

  /** A completed run's index is the fold of all the walk's sightings. */
  lemma {:induction false} RunFromIndex<F>(files: seq<ManifestFile<F>>, target: Option<string>, write: bool, ix: seq<Entry>)
    requires RunFrom(files, target, write, ix).result.Success?
    ensures RunFrom(files, target, write, ix).result.value.index == Accumulate(ix, Sightings(files))
    decreases |files|
  {
    if |files| > 0 {
      RunFromIndex(files[1..], target, write, Accumulate(ix, FileSightings(files[0])));
      AccumulateAppend(ix, FileSightings(files[0]), Sightings(files[1..]));
    }
  }

  /**
   The manifests before the first bad one hold only well-formed tags, and
   the first malformed tag of the walk is the first malformed tag of the
   first bad manifest.
   */
  lemma {:induction false} FirstBadFile<F>(files: seq<ManifestFile<F>>)
    ensures CleanFiles(files) == |files| <==> FirstMalformed(OriginalTags(files)) == |OriginalTags(files)|
    ensures CleanFiles(files) < |files| ==>
      var tags := AllTags(files[CleanFiles(files)].images);
      OriginalTags(files)[FirstMalformed(OriginalTags(files))] == tags[FirstMalformed(tags)]
    decreases |files|
  {
    if |files| > 0 {
      FirstBadFile(files[1..]);
      FirstMalformedAppend(AllTags(files[0].images), OriginalTags(files[1..]));
    }
  }

  /** Every original tag of the walk is well formed, which is when the run completes. */
  predicate WalkWellFormed<F>(files: seq<ManifestFile<F>>) {
    FirstMalformed(OriginalTags(files)) == |OriginalTags(files)|
  }

  /** The whole run over the manifests found by the walk, starting from an empty index. */
  function Run<F>(files: seq<ManifestFile<F>>, target: Option<string>, write: bool): (o: Outcome<F>)
    ensures o.result.Success? <==> WalkWellFormed(files)
    ensures !write ==> o.written == []
    ensures write ==> |o.written| == CleanFiles(files)
  {
    FirstBadFile(files);
    RunFrom(files, target, write, [])
  }

  /** A walk of well-formed tags is run to completion from an empty index. */
  lemma RunCompletes<F>(files: seq<ManifestFile<F>>, target: Option<string>, write: bool)
    requires WalkWellFormed(files)
    ensures Run(files, target, write) == RunFrom(files, target, write, [])
    ensures RunFrom(files, target, write, []).result.Success?
  {
    FirstBadFile(files);
  }

  /** A failed run reports the first malformed original tag of the whole walk. */
  lemma {:induction false} RunError<F>(files: seq<ManifestFile<F>>, target: Option<string>, write: bool)
    requires Run(files, target, write).result.Failure?
    ensures Run(files, target, write).result.error
      == MalformedTag(OriginalTags(files)[FirstMalformed(OriginalTags(files))])
  {
    RunFromError(files, target, write, []);
    FirstBadFile(files);
  }

  /**
   A completed run rewrites every manifest: each document reported is the
   rewrite of the manifest read at the same position of the walk.
   */
  lemma {:induction false} RunDocuments<F>(files: seq<ManifestFile<F>>, target: Option<string>, write: bool)
    requires WalkWellFormed(files)
    ensures |Run(files, target, write).result.value.documents| == |files|
    ensures forall k :: 0 <= k < |files| ==>
      RewriteDocument(files[k].images, target) == Success(Run(files, target, write).result.value.documents[k])
  {
    RunCompletes(files, target, write);
    var o := Run(files, target, write);
    RunFromDocumentCount(files, target, write, []);
    forall k | 0 <= k < |files|
      ensures RewriteDocument(files[k].images, target) == Success(o.result.value.documents[k])
    {
      RunFromDocumentAt(files, target, write, [], k);
    }
  }

  /**
   With writing on, whether the run completes or not, each file written is
   the manifest at the same position of the walk, written back to its own
   path with its rewritten document.
   */
  lemma {:induction false} RunWritten<F>(files: seq<ManifestFile<F>>, target: Option<string>, write: bool)
    requires write
    ensures forall k :: 0 <= k < |Run(files, target, write).written| ==>
      && Run(files, target, write).written[k].dirpath == files[k].dirpath
      && RewriteDocument(files[k].images, target) == Success(Run(files, target, write).written[k].images)
  {
    var o := Run(files, target, write);
    forall k | 0 <= k < |o.written|
      ensures o.written[k].dirpath == files[k].dirpath
      ensures RewriteDocument(files[k].images, target) == Success(o.written[k].images)
    {
      RunFromWrittenAt(files, target, write, [], k);
    }
  }

  /**
   The index of a completed run maps each tag to the digests of its
   sightings among the original tags, in walk order.
   */
  lemma {:induction false} RunIndexLookup<F>(files: seq<ManifestFile<F>>, target: Option<string>, write: bool, tag: string)
    requires WalkWellFormed(files)
    ensures Lookup(Run(files, target, write).result.value.index, tag) == DigestsOf(Sightings(files), tag)
  {
    RunCompletes(files, target, write);
    RunFromIndex(files, target, write, []);
    IndexLookup(Sightings(files), tag);
  }

  /** In a completed run's index, each tag holds one digest per occurrence among the original tags. */
  lemma {:induction false} RunIndexCount<F>(files: seq<ManifestFile<F>>, target: Option<string>, write: bool, tag: string)
    requires WalkWellFormed(files)
    ensures |Lookup(Run(files, target, write).result.value.index, tag)| == multiset(OriginalTags(files))[tag]
  {
    var ss := Sightings(files);
    RunIndexLookup(files, target, write, tag);
    SightedTagsAreOriginal(files);
    DigestsCount(ss, tag);
  }

  /**
   The keys of a completed run's index are exactly the original tags,
   never an added one that was not already there.
   */
  lemma {:induction false} RunIndexKeys<F>(files: seq<ManifestFile<F>>, target: Option<string>, write: bool)
    requires WalkWellFormed(files)
    ensures forall t :: t in Keys(Run(files, target, write).result.value.index) <==> t in OriginalTags(files)
  {
    RunCompletes(files, target, write);
    RunFromIndex(files, target, write, []);
    IndexKeys(Sightings(files));
    SightedTagsAreOriginal(files);
  }

  /** The keys of a completed run's index come in the order of their first appearance in the walk. */
  lemma {:induction false} RunIndexOrder<F>(files: seq<ManifestFile<F>>, target: Option<string>, write: bool)
    requires WalkWellFormed(files)
    ensures var ks := Keys(Run(files, target, write).result.value.index);
      forall i, j :: 0 <= i < j < |ks| ==>
        && ks[i] in OriginalTags(files) && ks[j] in OriginalTags(files)
        && FirstIndex(OriginalTags(files), ks[i]) < FirstIndex(OriginalTags(files), ks[j])
  {
    RunCompletes(files, target, write);
    RunFromIndex(files, target, write, []);
    IndexKeys(Sightings(files));
    SightedTagsAreOriginal(files);
  }

  /**
   A completed run reports a tag as a conflict exactly when it occurs more
   than once among the original tags of the walk, with the digests of all
   its occurrences.
   */
  lemma {:induction false} RunConflicts<F>(files: seq<ManifestFile<F>>, target: Option<string>, write: bool, tag: string)
    requires WalkWellFormed(files)
    ensures Entry(tag, DigestsOf(Sightings(files), tag)) in Conflicts(Run(files, target, write).result.value.index)
      <==> multiset(OriginalTags(files))[tag] > 1
  {
    RunCompletes(files, target, write);
    RunFromIndex(files, target, write, []);
    ConflictIff(Sightings(files), tag);
    SightedTagsAreOriginal(files);
  }

  /** Every conflict a completed run reports lists the digests of all the occurrences of its tag. */
  lemma {:induction false} RunConflictDigests<F>(files: seq<ManifestFile<F>>, target: Option<string>, write: bool)
    requires WalkWellFormed(files)
    ensures forall e :: e in Conflicts(Run(files, target, write).result.value.index) ==>
      e.digests == DigestsOf(Sightings(files), e.tag)
  {
    RunCompletes(files, target, write);
    RunFromIndex(files, target, write, []);
    ConflictDigests(Sightings(files));
  }

  /** Neither the target registry nor the write flag affects the outcome's index. */
  lemma {:induction false} RunIndexIgnoresTarget<F>(files: seq<ManifestFile<F>>, target1: Option<string>, write1: bool,
                                 target2: Option<string>, write2: bool)
    requires WalkWellFormed(files)
    ensures Run(files, target1, write1).result.value.index == Run(files, target2, write2).result.value.index
  {
    RunCompletes(files, target1, write1);
    RunCompletes(files, target2, write2);
    RunFromIndex(files, target1, write1, []);
    RunFromIndex(files, target2, write2, []);
  }

  /**
   The conditions of the two-manifest scenario below: a parent directory,
   two digest directories under it, one tag "<registry>/<name>" in both
   manifests, and a target registry that is non-empty and different from
   the tag's.
   */
  ghost predicate TwoManifestScenario(registry: string, name: string, target: string, d1: string, d2: string) {
    && SlashFree(registry) && SlashFree(name) && SlashFree(d1) && SlashFree(d2)
    && target != "" && target != registry
  }

  /** The two manifests of the scenario, each with one image carrying the tag. */
  function ScenarioFiles<F>(parent: string, registry: string, name: string, d1: string, d2: string,
                            fields1: F, fields2: F): seq<ManifestFile<F>>
  {
    var tag := registry + [Separator] + name;
    [ManifestFile(parent + [Separator] + d1, [Image([tag], fields1)]),
     ManifestFile(parent + [Separator] + d2, [Image([tag], fields2)])]
  }

  /** Each manifest of the scenario holds only well-formed tags, so the run completes. */
  lemma ScenarioClean<F>(parent: string, registry: string, name: string, target: string,
                         d1: string, d2: string, fields1: F, fields2: F)
    requires TwoManifestScenario(registry, name, target, d1, d2)
    ensures var files := ScenarioFiles(parent, registry, name, d1, d2, fields1, fields2);
      && CleanFiles(files) == 2
      && Run(files, Some(target), true).result.Success?
  {
    var files := ScenarioFiles(parent, registry, name, d1, d2, fields1, fields2);
    var tag := registry + [Separator] + name;
    SplitTagOfParts(registry, name);
    assert AllTags(files[0].images) == [tag];
    assert AllTags(files[1].images) == [tag];
    assert FirstMalformed([tag]) == 1;
    assert files[1..][1..] == [];
    assert CleanFiles(files[1..][1..]) == 0;
    FirstBadFile(files);
  }

  /** A manifest whose only original tag is `tag` yields one sighting of it. */
  lemma SingleTagSightings<F>(file: ManifestFile<F>, tag: string)
    requires AllTags(file.images) == [tag]
    ensures FileSightings(file) == [Sighting(tag, DigestOf(file.dirpath))]
  {
  }

  /** The sightings of two manifests are theirs, one after the other. */
  lemma TwoFileSightings<F>(files: seq<ManifestFile<F>>)
    requires |files| == 2
    ensures Sightings(files) == FileSightings(files[0]) + FileSightings(files[1])
  {
    var tail := files[1..];
    assert tail[0] == files[1] && tail[1..] == [];
    assert Sightings(tail[1..]) == [];
    assert Sightings(tail) == FileSightings(files[1]) + [];
    assert FileSightings(files[1]) + [] == FileSightings(files[1]);
  }

  /** The sightings of the scenario: the one tag, under each manifest's digest. */
  lemma ScenarioSightings<F>(parent: string, registry: string, name: string, target: string,
                             d1: string, d2: string, fields1: F, fields2: F)
    requires TwoManifestScenario(registry, name, target, d1, d2)
    ensures Sightings(ScenarioFiles(parent, registry, name, d1, d2, fields1, fields2))
      == [Sighting(registry + [Separator] + name, d1), Sighting(registry + [Separator] + name, d2)]
  {
    var files := ScenarioFiles(parent, registry, name, d1, d2, fields1, fields2);
    var tag := registry + [Separator] + name;
    assert AllTags(files[0].images) == [tag];
    assert AllTags(files[1].images) == [tag];
    SingleTagSightings(files[0], tag);
    SingleTagSightings(files[1], tag);
    DigestOfChild(parent, d1);
    DigestOfChild(parent, d2);
    TwoFileSightings(files);
  }

  /** With writing on, the scenario writes both manifests back with the copy added. */
  lemma ScenarioWritten<F>(parent: string, registry: string, name: string, target: string,
                           d1: string, d2: string, fields1: F, fields2: F)
    requires TwoManifestScenario(registry, name, target, d1, d2)
    ensures Run(ScenarioFiles(parent, registry, name, d1, d2, fields1, fields2), Some(target), true).written
      == [Written(parent + [Separator] + d1, [Image([registry + [Separator] + name, target + [Separator] + name], fields1)]),
          Written(parent + [Separator] + d2, [Image([registry + [Separator] + name, target + [Separator] + name], fields2)])]
  {
    var files := ScenarioFiles(parent, registry, name, d1, d2, fields1, fields2);
    var tag := registry + [Separator] + name;
    var copy := target + [Separator] + name;
    var o := Run(files, Some(target), true);
    ScenarioClean(parent, registry, name, target, d1, d2, fields1, fields2);
    RewriteAddsQualifiedCopy(registry, name, target);
    RewriteDocumentSingle(Image([tag], fields1), Some(target));
    RewriteDocumentSingle(Image([tag], fields2), Some(target));
    RunWritten(files, Some(target), true);
    assert o.written[0] == Written(parent + [Separator] + d1, [Image([tag, copy], fields1)]);
    assert o.written[1] == Written(parent + [Separator] + d2, [Image([tag, copy], fields2)]);
  }

  /** The scenario's index holds the one tag, with both digests in walk order. */
  lemma ScenarioIndex<F>(parent: string, registry: string, name: string, target: string,
                         d1: string, d2: string, fields1: F, fields2: F)
    requires TwoManifestScenario(registry, name, target, d1, d2)
    ensures Run(ScenarioFiles(parent, registry, name, d1, d2, fields1, fields2), Some(target), true).result.Success?
    ensures Run(ScenarioFiles(parent, registry, name, d1, d2, fields1, fields2), Some(target), true).result.value.index
      == [Entry(registry + [Separator] + name, [d1, d2])]
  {
    var files := ScenarioFiles(parent, registry, name, d1, d2, fields1, fields2);
    var tag := registry + [Separator] + name;
    ScenarioClean(parent, registry, name, target, d1, d2, fields1, fields2);
    ScenarioSightings(parent, registry, name, target, d1, d2, fields1, fields2);
    RunFromIndex(files, Some(target), true, []);
    IndexOfTwoSightings(tag, d1, d2);
  }

  /**
   Two manifests under "<parent>/<d1>" and "<parent>/<d2>", each with one
   image tagged "<registry>/<name>", run with a different, non-empty target
   registry: the tag is the one conflict, with digests [d1, d2] (even when
   d1 and d2 are the same name), and the copies added under the target
   registry are not reported.
   */
  lemma {:induction false} TwoManifestsSameTag<F>(parent: string, registry: string, name: string, target: string,
                               d1: string, d2: string, fields1: F, fields2: F)
    requires TwoManifestScenario(registry, name, target, d1, d2)
    ensures var o := Run(ScenarioFiles(parent, registry, name, d1, d2, fields1, fields2), Some(target), true);
      o.result.Success? && Conflicts(o.result.value.index) == [Entry(registry + [Separator] + name, [d1, d2])]
  {
    var tag := registry + [Separator] + name;
    ScenarioIndex(parent, registry, name, target, d1, d2, fields1, fields2);
    var ix := [Entry(tag, [d1, d2])];
    assert ix[1..] == [];
    assert Conflicts(ix) == [ix[0]] + Conflicts(ix[1..]);
  }
}
