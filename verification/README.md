# Registry tagging and conflict report for image manifests

This project models the core of `main` in `manage_names.py`. The script walks a
tree of saved container images. In each image directory, the `manifest.json`
lists image entries, and each entry carries a `RepoTags` list of tags of the
form `<registry>/<name>`. The script does four things:

1. **Digest.** It derives a digest from each manifest's directory: the last
   `/`-separated segment of the directory path.
2. **Tag rewrite.** It rewrites every entry's `RepoTags`:
   - each original tag stays in place;
   - when a target registry is given (`--add`), is non-empty and differs
     from the tag's own registry, `<target>/<name>` is inserted right after
     the tag.
3. **Write-back.** When writing is on, the rewritten document replaces the
   file before the next manifest is read.
4. **Index and conflicts.** It records every original tag in an
   insertion-ordered index from tag to the digests it was seen under, one
   digest per occurrence. At the end, it reports as conflicts the tags with
   more than one digest.

Modules:

- `Wrappers`: `Option` and `Result`.
- `Tags`: Python's `str.split("/")` as `Split`, with its inverse `Join` and
  both round-trips. Also the unpacking `r, t = tag.split("/")` as `SplitTag`,
  which fails with `MalformedTag` unless the split yields exactly two parts.
- `Digest`: `dirpath.split('/')[-1]` as `DigestOf`.
- `Rewrite`: the rewrite of one tag list (`RewriteTags`), of one image entry
  (`RewriteImage`) and of one manifest document (`RewriteDocument`). The
  target registry is an `Option<string>`. It counts as set only when present
  and non-empty, which is Python truthiness.
- `TagIndex`: the `defaultdict(list)` index as a sequence of entries in
  insertion order. `Record` is one `append`, `Accumulate` folds many of them,
  and `Conflicts` is the final filter. `DigestsOf` is an independent
  reference for what each key holds.
- `Scan`: the whole pass over the manifests, in the order the walk yields
  them:
  - `Run` returns the files written, plus either the report (every rewritten
    document and the index) or the error that ended the run;
  - the first malformed tag of the walk ends the run;
  - with writing on, the manifests before the bad one have already been
    written back, and the bad one is not.

A tag is split on every `/` and must yield exactly two parts
(`manage_names.py:32`), so a tag such as `a/b/c` aborts the run. A tag is
malformed with or without a target registry, because the split at line 32
runs before the registry test at line 33.

## Model

| member | source | states |
|---|---|---|
| Tags.Split | manage_names.py:32 | Splitting on `/` yields one more part than there are separators, and no part contains a separator. |
| Tags.JoinSplit | manage_names.py:32 | Splitting loses nothing: joining the parts with `/` gives the original string back. |
| Tags.SplitJoin | manage_names.py:32 | Joining separator-free parts and splitting again gives back exactly those parts, empty ones included. |
| Tags.SplitTag | manage_names.py:32 | Unpacking a tag into two parts succeeds exactly when it holds one `/`. The registry and name are then separator-free and glue back into the tag. Otherwise the error names the tag. |
| Tags.SplitTagOfParts | manage_names.py:32 | A tag built as `<registry>/<name>` from separator-free parts unpacks to exactly that registry and name. |
| Digest.DigestOf | manage_names.py:24 | The digest is a separator-free suffix of the directory path that begins at the start of the path or just after a `/`. |
| Digest.LastPartIsSuffix | manage_names.py:24 | The last part of a split is the longest separator-free suffix of the string. |
| Digest.DigestOfChild | manage_names.py:22-24 | For a manifest in directory `<parent>/<dir>`, the digest is `dir`, whatever the parent. |
| Rewrite.FirstMalformed | manage_names.py:30-32 | Locates the first tag that does not unpack into two parts: every tag before it is well formed. |
| Rewrite.RewriteTags | manage_names.py:29-37 | The rewrite succeeds exactly when every tag is well formed, and otherwise fails on the first malformed tag. The new list holds the originals plus one copy per tag that gains one, so it is between one and two times as long. |
| Rewrite.RewritePositions | manage_names.py:29-34 | The output is laid out block by block. Original tag `i` sits at its offset. Its `<target>/<name>` copy follows it exactly when the registry is set and differs from the tag's, and the next original follows immediately. Nothing else is in the list. |
| Rewrite.OffsetIncreasing | manage_names.py:29-31 | Original tags keep their relative order in the rewritten list. |
| Rewrite.RewriteWithoutAdditions | manage_names.py:31-33 | When no tag gains a copy, the rewritten list is the original list. |
| Rewrite.RewriteInactive | manage_names.py:32-33 | With no target registry, or an empty one, well-formed tags come back unchanged, and a malformed tag still aborts the rewrite. |
| Rewrite.RewriteAlreadyPrefixed | manage_names.py:33 | Tags already under the target registry gain nothing. |
| Rewrite.AddsExactly | manage_names.py:32-34 | `<registry>/<name>` gains a copy exactly when the target is non-empty and differs from `registry`. The copy is `<target>/<name>`. |
| Rewrite.RewriteAddsQualifiedCopy | manage_names.py:31-34 | A tag under another registry becomes the tag followed by its copy under the target, in that order. |
| Rewrite.RewriteTwiceDuplicates | manage_names.py:31-34 | The rewrite is not idempotent: rewriting its own output inserts the same copy a second time. |
| Rewrite.RewriteSlashedTargetBreaksRerun | manage_names.py:32-34 | A target registry containing `/` produces copies that are malformed tags, so a second run over the output aborts on the copy. |
| Rewrite.RewriteImage | manage_names.py:29-37 | An image entry's tags are replaced by their rewrite, and every other field of the entry is left as it was. |
| Rewrite.RewriteDocument | manage_names.py:28-37 | A document is rewritten entry by entry, and its first malformed tag aborts the whole document. On success, each entry keeps its other fields and gets its tags rewritten, and the number of entries is unchanged. |
| Rewrite.RewriteDocumentInactive | manage_names.py:28-37 | With no target registry, a document of well-formed tags is returned unchanged. |
| TagIndex.Record | manage_names.py:36 | Recording a sighting appends its digest to its tag's list and leaves every other tag's list alone. The tag becomes the last key when it was not yet a key, and the keys are unchanged otherwise. |
| TagIndex.RecordValid | manage_names.py:15-36 | Recording keeps the keys distinct and every digest list non-empty. |
| TagIndex.Accumulate | manage_names.py:30-36 | Folding the sightings of the walk into the index, one `append` per original tag, never drops or reorders a key: the keys before the fold are a prefix of the keys after it. What the fold holds is stated by TagIndex.AccumulateLookup, TagIndex.IndexKeys and TagIndex.AccumulateValid. |
| TagIndex.AccumulateValid | manage_names.py:15-36 | Folding keeps the keys distinct and every digest list non-empty. |
| TagIndex.AccumulateLookup | manage_names.py:36 | After folding a run of sightings, each tag's list is its previous list followed by the digests of that tag's sightings, in order, duplicates included. |
| TagIndex.DigestsCount | manage_names.py:36 | A tag's list holds one digest per occurrence of the tag. |
| TagIndex.IndexKeys | manage_names.py:15-36 | The keys of the index are exactly the tags sighted, in the order of their first sighting. |
| TagIndex.Conflicts | manage_names.py:49-51 | The conflicts are exactly the entries with more than one digest, in index order. |
| TagIndex.ConflictIff | manage_names.py:49-51 | A tag is reported exactly when it was sighted more than once, under different digests or twice under the same one, and the report lists all its digests. |
| TagIndex.ConflictDigests | manage_names.py:49-51 | Every reported conflict carries the full digest list of its tag. |
| TagIndex.IndexOfTwoSightings | manage_names.py:36 | Two sightings of one tag give one key holding both digests, in order. |
| Scan.FileSightings | manage_names.py:24-36 | A manifest contributes its original tags, in document order, each paired with the manifest's digest. |
| Scan.SightedTagsAreOriginal | manage_names.py:30-36 | The index is fed the original tags of the walk and never an added copy. |
| Scan.RunFrom | manage_names.py:19-41 | The run completes exactly when every manifest is clean. With writing off nothing is written. With writing on, one file is written for each clean manifest before the first bad one. |
| Scan.Run | manage_names.py:14-41 | The run over the whole walk completes exactly when every original tag is well formed. Nothing is written without the write flag. |
| Scan.RunError | manage_names.py:32 | A failed run reports the first malformed original tag of the walk. |
| Scan.RunDocuments | manage_names.py:28-37 | When every original tag is well formed, the run reports one document per manifest, each the rewrite of the manifest at the same position of the walk. |
| Scan.RunWritten | manage_names.py:37-41 | With writing on, whether or not the run completes, each file written is the manifest at the same position of the walk, written to its own path with its rewritten document. |
| Scan.RunIndexLookup | manage_names.py:24-36 | After a completed run, each tag maps to the digests of its occurrences among the original tags, in walk order. |
| Scan.RunIndexCount | manage_names.py:36 | After a completed run, each tag holds exactly as many digests as it has occurrences among the original tags. |
| Scan.RunIndexKeys | manage_names.py:15-36 | The index keys of a completed run are exactly the original tags, and never an added copy that is not itself an original. |
| Scan.RunIndexOrder | manage_names.py:15-36 | The index keys of a completed run come in the order of first appearance in the walk, which is the order the conflict report follows. |
| Scan.RunConflicts | manage_names.py:49-51 | A completed run reports a tag as a conflict exactly when it occurs more than once among the original tags, with the digests of all its occurrences. |
| Scan.RunConflictDigests | manage_names.py:49-51 | Every conflict a completed run reports lists the digests of all the occurrences of its tag. |
| Scan.RunIndexIgnoresTarget | manage_names.py:33-36 | When every original tag is well formed, the index is the same whatever the target registry and the write flag. |
| Scan.ScenarioWritten | manage_names.py:28-41 | Two manifests carry the same tag under another registry, and writing is on. Both are written back to their own paths with the tag followed by `<target>/<name>`. |
| Scan.TwoManifestsSameTag | manage_names.py:19-51 | In the same two-manifest run, the tag is the one conflict, with both digests in walk order, and the added copies are not reported. |

## Left out

- Directory walk: `os.walk` and the `manifest.json` filename test are replaced by an input sequence of manifests in walk order. The order `os.walk` produces is not modelled.
- JSON I/O: reading, parsing and serialising JSON (`indent=4`, `sort_keys=True`) are left out. An image entry is its tag list plus an opaque value for all other fields, and a written file is its path plus the rewritten entries.
- Malformed input other than tags: an entry without `RepoTags` (a `KeyError`), a `RepoTags` value that is not a list (such as `null` for an untagged image), a tag that is not a string, and unreadable or invalid JSON are not modelled.
- File errors: opening or writing a file can fail, and such failures are not modelled.
- Split errors: Python raises `ValueError` for too few or too many parts. Both cases are modelled as one `MalformedTag` error that names the tag.
- Printed output: the progress messages, the `--show` listing of every tag and digest, and the text of the conflict lines are left out. The conflicts are returned as a list of index entries instead.
- Command line: `argparse` handling and the computation of the root path are left out.
- `amend_registry`: its body is `pass`.
- Lone surrogates: Python strings can hold them (`os.walk` decodes non-UTF-8 directory names with surrogateescape, and `json.load` accepts `"\ud800"`), but a Dafny `char` cannot, so such paths and tags cannot be represented. Splitting and equality do not depend on them.
