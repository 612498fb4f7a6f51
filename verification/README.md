# CAVS patches, verified

A Dafny model of the update machinery of CAVS and proofs of what it is relied on for. The centre is
the `.cavspatch` v2 pipeline: sign an old build, diff a new one against the signature, choose a
strategy per file, write the patch, read it back, and apply it in place although the power may fail
after any file-system action. Around it stand six smaller components, each with an invariant of its own.

Code that updates state step by step is modelled by classes and methods with loops, proved against
specification functions; the laws are lemmas about those functions. Recursive matching and the
standard library's stable sort are functions.

| module | what it models |
|---|---|
| `Bytes`, `PatchTypes`, `Sorting` | machine integers, byte strings, safe paths; the patch as a value; a stable sort |
| `Varint`, `Wire`, `Codec`, `PatchCodec`, `PatchIO` | the binary format: strict varints, a sink and a cursor, every field and list, `validate`, the hash trailer, and the loops that write and read them |
| `Diff` | the rolling-hash differ that finds reusable blocks |
| `Compile` | random-access diff ops compiled to sequential file ops, the buffered copy loops, and the positional applier that gives diff ops their meaning |
| `Sections`, `Generate` | compressed sections, candidate measurement and choice, and `generate` |
| `ApplySpec`, `Apply` | the crash-safe directory apply over a disk whose power can fail |
| `EndToEnd` | sign, generate, encode, decode, apply |
| `Ignore` | the glob matcher and ignore rules |
| `GodotPck` | the Godot PCK directory's printer and parser |
| `Compare`, `Signing` | block signatures, comparison of a live build with one, rename detection |
| `Heatmap` | change heatmaps over fixed windows |
| `Cache` | the self-healing chunk cache over a disk that may be corrupted at any time |
| `Policy` | the planner of hot old→new pairs |

Conventions. The 256-bit hash is a function to 32-byte strings, which no function makes injective, so
`NoCollision(hash, b)` asks of individual contents that nothing else shares their digest. Compression and
the external delta tools are known by `Sections.Contract` only: what packs unpacks. Reads from files may
return fewer bytes than asked for, chosen freely. Floating-point ratios and shares are reals.

## Findings

Properties one may expect of the code that fail, each with the exact condition under which they hold.

- A patch does not update every tree to every other: a path that is a file on one side and a directory on
  the other makes the apply fail, since managed deletions come after the commit
  (core/cavs-cli/src/patch_v2.rs:1298-1331). `EndToEnd.FileBecomesDirectory` is such a pair of trees.
- A new file or directory called `.cavs-journal.json` or `.cavs-journal.json.tmp`, or anything at or below
  `.cavs-staging`, passes `path_is_safe`, `generate` and `validate`, and is overwritten or deleted by `apply`
  itself (core/cavs-cli/src/patch_v2.rs:1178-1179 and 1332-1335). `EndToEnd.JournalNameIsAccepted` is such a
  build, `ApplySpec.ReservedIsLost` shows that no finished update holds it. `Apply.ApplyThroughPowerCuts` and
  `EndToEnd.Deliver` reach the new build if and only if neither this nor the clash above occurs.
- `validate` accepts patches whose new paths repeat or are also listed as deleted
  (core/cavs-cli/src/patch_v2.rs:503-587). A new file that is also deleted is gone after every apply that
  deletes (`ApplySpec.NewAndDeleted`, and the last clauses of `Apply.Apply`, which hold for all patches);
  repeated paths are harmless if and only if their hashes agree (`ApplySpec.RepeatedPathsExact` and
  `RepeatedPathsDisagree`, for any patch; `ApplySpec.SamePathTwice` is an accepted one). `generate` never writes
  either (`Generate.GeneratedIsPlanned`).
- The deletion list names a directory before its files, so an emptied directory is left behind
  (`Apply.EmptiedDirectoryStays`): a listed directory is removed if and only if it was empty before the pass
  (`Apply.DirectoriesLeftBehind`, and `EndToEnd.DroppedDirectories` for generated patches). A second pass
  changes nothing if and only if the first emptied no listed directory (`Apply.SecondDeletePass`).
- Under `plan-ops` an empty inline stream is charged nothing, yet a section is written for it
  (core/cavs-cli/src/patch_v2.rs:914-923 and 1018-1023): `Generate.ChangedFile` states the exact difference,
  and `Generate.EmptyInlineIsUnderpriced` is a file for which a smaller delta therefore loses, as
  `Generate.FirstBlockKept` finds by running the differ and the choice on it.
- `decode` reads any executable byte but 1 as false and truncates indices to 32 bits
  (core/cavs-cli/src/patch_v2.rs:399-409): re-encoding is the identity if and only if neither happened
  (`PatchCodec.EncodeDecode`); `PatchCodec.LooseBytesAreAccepted` gives bytes of both kinds.
- `**/` swallows any text, not only whole segments (core/cavs-cli/src/ignore.rs:111-120;
  `Ignore.DoubleStarIgnoresBoundaries` is an example). It skips only whole segments, on every text, if and only
  if the rest of the pattern is a star after any number of `?` (`Ignore.AcrossSkipsSegments`); where every rest
  is, the matcher is the whole-segment one (`Ignore.SegmentGlobIsGlob`).
- A root directory called `.cavsignore` is ignored, its contents need not be
  (`Ignore.IgnoreFileIsNotASubtree`): under subtree patterns all of them are ignored if and only if some pattern
  matches the directory (`Ignore.IgnoreFileSubtree`).
- A fetched chunk stored under its digest is found again if and only if no directory sits where the
  chunk or its temporary file goes (`Cache.ChunkCache.Refetch`). A directory under a chunk's name also stops
  `gc` (core/cavs-client/src/cache.rs:138-146): it succeeds if and only if none lies in the shortest oldest-first
  prefix whose removal fits the budget (`Cache.ChunkCache.Gc`); `Cache.DirectoryStopsGc` is a disk where one does.
- `.cavssig` decoding accepts blocks shorter than the block size in the middle of a file, and such a file
  is never recognised as the source of a rename: `Compare.UnevenRenameIsMissed` is such a signature,
  `Compare.Preview` states the exact condition, and signatures taken by `sign_dir` always meet it
  (`Signing.SignThenPreview`).

## Model

| member | source | states |
|---|---|---|
| Varint.ReadVarExact | core/cavs-cli/src/patch_v2.rs:188-217 | `read_var` accepts exactly the outputs of `write_var`, for all 64-bit values, and leaves exactly the bytes after |
| Wire.Sink.WriteVar | core/cavs-cli/src/patch_v2.rs:188-194 | the shifting loop appends the varint of its value |
| Wire.Cursor.NextVar | core/cavs-cli/src/patch_v2.rs:196-217 | the ten-byte loop reads what the strict grammar allows and fails otherwise, with truncated, overlong and overflowing forms refused |
| Codec.StrExact | core/cavs-cli/src/patch_v2.rs:219-233 | strings read back exactly when they are valid UTF-8 of at most 65536 bytes |
| Codec.CountedExact | core/cavs-cli/src/patch_v2.rs:376-387 | any counted list whose items are lawful reads back exactly, within its count limit, and only what was written is read cleanly |
| Codec.OpExact | core/cavs-cli/src/patch_v2.rs:417-430 | both op tags, both directions |
| Codec.StrategyReadBack | core/cavs-cli/src/patch_v2.rs:281-324 | all five strategies and their absence come back from their bytes |
| Codec.StrategyOnlyWritten | core/cavs-cli/src/patch_v2.rs:406-445 | bytes read as a strategy without leniency are the bytes of that strategy |
| Codec.EntryExact | core/cavs-cli/src/patch_v2.rs:394-457 | an entry with its options, flags and strategy reads back exactly when it is within the limits |
| Codec.SectionExact | core/cavs-cli/src/patch_v2.rs:471-483 | sections, both directions |
| PatchCodec.ValidateExact | core/cavs-cli/src/patch_v2.rs:503-587 | `validate` succeeds exactly for safe paths, indices in range and ops whose lengths cover the file, sums taken modulo 2^64 |
| PatchCodec.PatchExact | core/cavs-cli/src/patch_v2.rs:249-501 | the whole body: parsed cleanly to `p` exactly when it is the body of a well-formed `p` |
| PatchCodec.DecodeEncode | core/cavs-cli/src/patch_v2.rs:249-501 | `decode(encode(p)) == p` if and only if `p` is within the size limits and passes `validate` |
| PatchCodec.EncodeDecode | core/cavs-cli/src/patch_v2.rs:346-501 | accepted bytes re-encode to themselves if and only if every flag was 0 or 1 and every index fitted 32 bits |
| PatchCodec.LooseBytesAreAccepted | core/cavs-cli/src/patch_v2.rs:399-445 | bytes with any flag byte and any multiple of 2^32 as section index decode to the same patch but for the flag, and re-encode to themselves only for a flag of 0 or 1 and index 0 |
| PatchIO.Encode | core/cavs-cli/src/patch_v2.rs:249-344 | the pushing loops write exactly the specified bytes with the hash trailer |
| PatchIO.Decode | core/cavs-cli/src/patch_v2.rs:346-501 | the cursor loops return exactly what the specification reads, errors included |
| PatchIO.CheckPatch | core/cavs-cli/src/patch_v2.rs:503-587 | the checking loops agree with `Validate` |
| Compile.PositionalApply | core/cavs-cli/src/bench_delta.rs:166-191 | the in-place applier fills the buffer as the ops' meaning says and reports an unknown entry |
| Compile.CompileDiff | core/cavs-cli/src/patch_v2.rs:881-913 | the compiling loop yields the specified ops, inline stream and cost |
| Compile.CopyChunks | core/cavs-cli/src/patch_v2.rs:1408-1423 | the bounded-buffer loop copies exactly the asked range or fails when the file ends first |
| Compile.StreamOps | core/cavs-cli/src/patch_v2.rs:1386-1428 | running the op list over its inline section gives the specified bytes or failure |
| Compile.CompilationPreservesMeaning | core/cavs-cli/src/patch_v2.rs:881-913 | for every in-order tiling diff the compiled ops run sequentially give what the positional applier writes, whatever the sources hold |
| Compile.CompiledRebuilds | core/cavs-cli/src/patch_v2.rs:881-913 | when the copied ranges agree with the new bytes, running the compiled ops rebuilds the new file |
| Diff.RollingWeak.Roll | core/cavs-signature/src/weak.rs:54-61 | the wrapping update of the weak hash equals recomputing it on the next window |
| Diff.RollingWeak.Digest | core/cavs-signature/src/weak.rs:63-66 | the digest is `weak32` of the window |
| Diff.BuildIndex | core/cavs-signature/src/diff.rs:60-78 | the index finds exactly the full-size blocks under their weak hash |
| Diff.Pick | core/cavs-signature/src/diff.rs:93-118 | the block picked scores highest: own path, then continuation, then low offset |
| Diff.DiffBytes | core/cavs-signature/src/diff.rs:120-174 | the ops tile the new bytes, copies agree with the old ones, inline ops are capped, no window equal to a full old block is left wholly outside the copies, a first window that an old block holds is copied from such a block, and there are at most two ops a block and one more |
| Diff.Coalesce | core/cavs-signature/src/diff.rs:192-220 | merging adjacent copies keeps a good plan, covers the same ranges, leaves none to merge and only lengthens the first op |
| Sections.SectionBuilder.Push | core/cavs-cli/src/patch_v2.rs:654-679 | appends one section that decompresses to the raw bytes, packed with the smaller codec under `auto`; it fails only when the codec does |
| Sections.SectionBuilder.Probe | core/cavs-cli/src/patch_v2.rs:681-696 | returns the size `Push` would give |
| Sections.WorkingToolsExist | core/cavs-cli/src/patch_v2.rs:654-696 | the assumptions about the foreign tools can all be met at once, for every hash and all options |
| Sections.Choose | core/cavs-cli/src/patch_v2.rs:957-987 | under `auto` nothing measured beats the choice, ties to the lower-memory strategy; a forced algorithm when measured, otherwise the whole file |
| Generate.IndexOld | core/cavs-cli/src/patch_v2.rs:726-752 | the old-side tables are mutually consistent and record true sizes and hashes, and the total is the size of all old files, modulo 2^64 |
| Generate.Measure | core/cavs-cli/src/patch_v2.rs:914-955 | every candidate carries its true cost, and each delta is measured if and only if it is asked for, available and, for bsdiff, not too large |
| Generate.KeepChosen | core/cavs-cli/src/patch_v2.rs:1017-1046 | the payload of the chosen candidate exists, its section is pushed, the strategy rebuilds the file, and that strategy's counter and no other goes up |
| Generate.ChangedFile | core/cavs-cli/src/patch_v2.rs:870-1046 | the recorded decision is the best of what was measured, the strategy is what was decided, and the patch pays the measured size but for the section of an empty inline stream |
| Generate.EmptyInlineIsUnderpriced | core/cavs-cli/src/patch_v2.rs:914-923 | an old file cut down to its first block: a plan charged 12 bytes wins the tie against a delta of 12 and costs 13 |
| Generate.FirstBlockKept | core/cavs-cli/src/patch_v2.rs:870-987 | for that file the differ answers the one copy, it compiles without inline bytes, and the plan is chosen |
| Generate.Unchanged | core/cavs-cli/src/patch_v2.rs:829-868 | a whole-file copy is chosen exactly when some old file has the content, its own path first; a move is counted and recorded exactly when it is not its own path |
| Generate.FileStrategy | core/cavs-cli/src/patch_v2.rs:826-1046 | the chosen strategy rebuilds the file and uses at most one section of its own, and the report gains exactly the count and the decision that explain it |
| Generate.TalliesGrow | core/cavs-cli/src/patch_v2.rs:824-1046 | the counters, incremented one by one at their places, always agree with the entries and decisions, and the five strategies make up `files_total` |
| Generate.ExplainedStill | core/cavs-cli/src/patch_v2.rs:1006-1015 | decisions recorded earlier keep explaining their entries as sections are added: same strategy, same measurements, same cost |
| Generate.NewSide | core/cavs-cli/src/patch_v2.rs:794-1047 | every entry rebuilds its file, exactly the executable files are flagged, sections are used once each and in order, the total is the size of all new files modulo 2^64, counters tally and decisions explain every file that did not stay put |
| Generate.Deletions | core/cavs-cli/src/patch_v2.rs:1049-1057 | the old paths the new build lacks, in the order of the old walk |
| Generate.Generate | core/cavs-cli/src/patch_v2.rs:700-1078 | returns a patch whose entries all rebuild their files and carry their executable flags, with true totals, its deletions in walk order and a report that tallies and explains it, whenever compression works and paths are safe |
| Generate.GeneratedIsValid | core/cavs-cli/src/patch_v2.rs:1060-1071 | the `validate` call at the end never fails on safe paths |
| Generate.GeneratedIsPlanned | core/cavs-cli/src/patch_v2.rs:1060-1071 | new paths are distinct and disjoint from the deleted ones |
| ApplySpec.InstallKeeps | core/cavs-cli/src/patch_v2.rs:1298-1307 | committing a verified staged file keeps every path old, new or deleted, never mixed |
| ApplySpec.RemoveKeeps | core/cavs-cli/src/patch_v2.rs:1319-1331 | so does a managed deletion |
| ApplySpec.ConflictsDoNotAppear | core/cavs-cli/src/patch_v2.rs:1291-1307 | no step of an update creates a file-directory conflict that was not there |
| ApplySpec.CompletionRefutesConflict | core/cavs-cli/src/patch_v2.rs:1291-1307 | an update that completed had none |
| ApplySpec.FinishedIsUpdated | core/cavs-cli/src/patch_v2.rs:1246-1336 | a finished tree has exactly the new files, the deletions made and every other file untouched |
| ApplySpec.ReservedIsLost | core/cavs-cli/src/patch_v2.rs:1332-1335 | what a patch puts at a reserved name is not there after an update |
| ApplySpec.ReservedNewFile | core/cavs-cli/src/patch_v2.rs:503-587 | `validate` accepts a new file at any safe reserved name |
| ApplySpec.NewAndDeleted | core/cavs-cli/src/patch_v2.rs:503-587 | an accepted patch with a new file also listed as deleted: no tree without that file is final |
| ApplySpec.DeletedIsNotFinal | core/cavs-cli/src/patch_v2.rs:1319-1331 | without a file at the path of a new file a tree is not final, for any patch |
| ApplySpec.RepeatedPathsDisagree | core/cavs-cli/src/patch_v2.rs:503-587 | two file entries for one path with different hashes: no tree has every new file, for any patch |
| ApplySpec.RepeatedPathsExact | core/cavs-cli/src/patch_v2.rs:503-587 | where the first hash has a content, some tree satisfies both entries if and only if the hashes agree |
| ApplySpec.SamePathTwice | core/cavs-cli/src/patch_v2.rs:503-587 | an accepted patch with a path twice: consistent if and only if the hashes agree |
| Apply.Disk.WriteStaged | core/cavs-cli/src/patch_v2.rs:1378-1441 | a staged write may be torn by a power cut, and touches no other copy |
| Apply.Disk.Commit | core/cavs-cli/src/patch_v2.rs:1303-1303 | a rename is atomic: both sides change or neither |
| Apply.Reconstruct | core/cavs-cli/src/patch_v2.rs:1344-1453 | what is left staged carries the recorded hash, or nothing is; a refusal means the patch does not rebuild the file |
| Apply.StageAll | core/cavs-cli/src/patch_v2.rs:1262-1286 | after staging, every file entry is in place or has a verified copy listed for commit; no user file is touched |
| Apply.NothingLost | core/cavs-cli/src/patch_v2.rs:1270-1279 | at any recoverable moment a file entry has a matching final file, a matching staged copy, or its old sources intact |
| Apply.CommitAll | core/cavs-cli/src/patch_v2.rs:1298-1307 | every pending copy is installed in order, keeping the invariant at each step |
| Apply.DeleteRemoved | core/cavs-cli/src/patch_v2.rs:1319-1331 | the deletion loop removes every listed file and empty directory in the listed order, and no new file of a planned patch |
| Apply.CleanUp | core/cavs-cli/src/patch_v2.rs:1334-1335 | staging and journal go, and may be interrupted anywhere |
| Apply.Apply | core/cavs-cli/src/patch_v2.rs:1246-1337 | in every run: a failing reconstruction changes no user file, installed files carry their hashes, a journal of verified or later is honest, success means the update of a planned patch is complete, and of any patch that all deletions were made and staging and journal are gone |
| Apply.ApplyThroughPowerCuts | core/cavs-cli/src/patch_v2.rs:1246-1337 | however many power cuts fall wherever, re-running the same apply ends with the new files, the deletions and all other files untouched, if and only if no path changes between file and directory and no new path is a reserved name |
| Apply.DeletePassExact | core/cavs-cli/src/patch_v2.rs:1319-1331 | with directories listed before their contents, exactly the listed files and the listed directories that were empty at the start go |
| Apply.DirectoriesLeftBehind | core/cavs-cli/src/patch_v2.rs:1319-1331 | a listed directory stays if and only if something was in it before the pass |
| Apply.SecondDeletePass | core/cavs-cli/src/patch_v2.rs:1319-1331 | re-running deletions changes no file, and nothing at all if and only if no listed directory lost all its contents in the first pass |
| Apply.EmptiedDirectoryStays | core/cavs-cli/src/patch_v2.rs:1319-1331 | a tree where one was |
| EndToEnd.SignOld | core/cavs-cli/src/patch_v2.rs:716-724 | the signature taken of the old build tells the differ the truth about every block |
| EndToEnd.GeneratedRestores | core/cavs-cli/src/patch_v2.rs:794-1078 | a generated patch rebuilds every new file from any installation that has the old files |
| EndToEnd.GeneratedIsClear | core/cavs-cli/src/patch_v2.rs:794-1078 | a generated patch names a reserved path if and only if the new build has one |
| EndToEnd.GeneratedIsWellformed | core/cavs-cli/src/patch_v2.rs:700-1078 | builds within limits that can be checked beforehand give a patch within the format's limits |
| EndToEnd.Ship | core/cavs-cli/src/patch_v2.rs:346-501 | signed, generated, encoded and decoded, such builds arrive as the generated patch |
| EndToEnd.DroppedDirectories | core/cavs-cli/src/patch_v2.rs:1049-1057 | of the old directories a new build drops, exactly the non-empty ones are left behind |
| EndToEnd.Deliver | core/cavs-cli/src/patch_v2.rs:1201-1340 | for builds within the limits, with safe paths and working compression: signing, generating, encoding, decoding and applying in place turns old plus extra files into new plus the same extra files, through any power cuts, if and only if no path is a file on one side and a directory on the other and the new build has no reserved path; renamed sources may be overwritten |
| EndToEnd.FileBecomesDirectory | core/cavs-cli/src/patch_v2.rs:1291-1331 | two trees that clash |
| EndToEnd.JournalNameIsAccepted | core/cavs-cli/src/patch_v2.rs:1178-1179 | a build with a file named like the journal: accepted, without clash, and never delivered |
| Ignore.GlobExact | core/cavs-cli/src/ignore.rs:107-128 | the matcher succeeds if and only if the text splits into pieces the pattern's tokens accept |
| Ignore.SlashesKept | core/cavs-cli/src/ignore.rs:107-128 | without `**` a pattern matches only texts with as many slashes as itself |
| Ignore.FileMatchIsDirMatch | core/cavs-cli/src/ignore.rs:57-98 | what matches as a file matches as a directory |
| Ignore.SubtreeClosed | core/cavs-cli/src/ignore.rs:57-98 | a pattern that matches a directory matches everything below it, unless it is anchored without a trailing slash |
| Ignore.EntryPatternStopsThere | core/cavs-cli/src/ignore.rs:83-85 | an anchored pattern without trailing slash and without `**` matches nothing below what it matches |
| Ignore.DoubleStarTailClosed | core/cavs-cli/src/ignore.rs:111-120 | ending in `**` it matches everything below after all |
| Ignore.IgnoredSubtree | core/cavs-cli/src/ignore.rs:47-54 | rule lists of subtree patterns ignore whole subtrees |
| Ignore.IgnoreFileIsNotASubtree | core/cavs-cli/src/ignore.rs:47-54 | with no rules at all, the ignore file's own rule does not extend below a directory of that name |
| Ignore.IgnoreFileSubtree | core/cavs-cli/src/ignore.rs:47-98 | under subtree patterns, everything below a directory called like the ignore file is ignored if and only if some pattern matches that directory |
| Ignore.DoubleStarIgnoresBoundaries | core/cavs-cli/src/ignore.rs:111-120 | `a/**/b` matches `a/xb` |
| Ignore.AcrossSkipsSegments | core/cavs-cli/src/ignore.rs:111-120 | a leading `**/` skips only whole segments, whatever the text, if and only if the rest is a star after any number of `?`; whole segments are always skipped |
| Ignore.SegmentGlobIsGlob | core/cavs-cli/src/ignore.rs:107-128 | what the whole-segment reading matches the matcher matches, and nothing more when every `**/` has such a rest |
| GodotPck.ParseSynth | core/cavs-cli/src/analyze_packs.rs:456-547 | parsing a synthesised PCK succeeds exactly for formats 1 and 2 within the count and path limits, with every path, offset and size in order |
| GodotPck.ImageLayout | core/cavs-cli/src/analyze_packs.rs:524-547 | the directory takes exactly the size computed before it was written |
| GodotPck.RangesSlice | core/cavs-cli/src/analyze_packs.rs:530-543 | every range slices to its file's bytes, adjacent ranges touch and the last ends with the PCK file |
| GodotPck.TrimNulExact | core/cavs-cli/src/analyze_packs.rs:489-491 | trimming keeps a path if and only if it does not end in NUL |
| GodotPck.PackRoundTrip | core/cavs-cli/src/analyze_packs.rs:456-547 | each file of a synthesised PCK is served: its path unless that ends in NUL, its size, its bytes |
| GodotPck.Reader.ReadU32 | core/cavs-cli/src/analyze_packs.rs:424-432 | reads four little-endian bytes or fails at the end of the data |
| GodotPck.Parse | core/cavs-cli/src/analyze_packs.rs:456-505 | the reading loop returns the specified directory or failure on all inputs |
| GodotPck.Synth | core/cavs-cli/src/analyze_packs.rs:509-547 | the appending loops write the specified image |
| Compare.MatchIsEquality | core/cavs-cli/src/compare.rs:180-213 | block comparison against a cut of the old file decides equality of contents |
| Compare.Fill | core/cavs-cli/src/compare.rs:200-206 | however reads are split, the loop gathers the wanted bytes or all that is left |
| Compare.FileMatchesBlocks | core/cavs-cli/src/compare.rs:180-213 | the streaming comparison agrees with the block specification on every input |
| Compare.IndexBlocks | core/cavs-cli/src/compare.rs:170-176 | each entry's blocks, in order |
| Compare.ClassifyDir | core/cavs-cli/src/compare.rs:93-168 | the reports of the walk and of the deleted entries, sorted by path |
| Compare.ClassifiedRight | core/cavs-cli/src/compare.rs:93-168 | every path gets exactly the report due to it: NEW, MODIFIED, SAME or DELETED, none for a directory that stayed, the apply machinery's own paths counted as absent |
| Compare.HashBlocks | core/cavs-cli/src/compare.rs:257-276 | the fingerprint loop hashes consecutive full blocks and the rest |
| Compare.FingerprintExact | core/cavs-cli/src/compare.rs:237-279 | fingerprints agree if and only if contents agree and the old file was cut evenly |
| Compare.DetectRenames | core/cavs-cli/src/compare.rs:219-283 | renames are reported exactly for moves by fingerprint, naming a source |
| Compare.Preview | core/cavs-cli/src/compare.rs:45-283 | a rename is reported if and only if a new non-empty file has the content of an evenly signed file that is gone, and names such a file |
| Compare.UnevenRenameIsMissed | core/cavs-signature/src/lib.rs:344-350 | a signature cut after the first byte of a file: well-formed and true, yet the renamed file is not found |
| Signing.SignatureBuilder.Append | core/cavs-signature/src/lib.rs:574-589 | streaming through the block buffer cuts the bytes into even blocks however they arrive |
| Signing.SignDir | core/cavs-signature/src/lib.rs:411-442 | the signature is the even blocks of every file with numbered entries |
| Signing.BlocksAreEven | core/cavs-signature/src/lib.rs:591-609 | an entry's blocks are the even cut of its content |
| Signing.AllBlocksFaithful | core/cavs-signature/src/lib.rs:591-603 | every block records the true weak and strong hash of its range |
| Signing.SignThenPreview | core/cavs-cli/src/compare.rs:45-283 | comparing a build with a signature taken of another reports every path rightly, and a rename if and only if a new non-empty file carries the content of a vanished one |
| Heatmap.DistanceSplits | core/cavs-analyzer/src/windows.rs:44-61 | differing bytes add up across a cut |
| Heatmap.MarkWindows | core/cavs-analyzer/src/windows.rs:38-61 | the loop flags exactly the differing windows, its byte count is the Hamming distance of the common prefix plus the length difference, for every window size, and its window bytes are the sizes of the differing windows |
| Heatmap.CoarseIsSomeFine | core/cavs-analyzer/src/windows.rs:43-50 | a window made of several fine ones changed if and only if one of them did |
| Heatmap.CollectRuns | core/cavs-analyzer/src/windows.rs:63-77 | the run loop collects the specified runs |
| Heatmap.RunsAreMaximal | core/cavs-analyzer/src/windows.rs:63-77 | runs are ascending, disjoint, maximal and hold every changed window and no other |
| Heatmap.RunsSpan | core/cavs-analyzer/src/windows.rs:63-93 | runs sum to the changed count, and first to last change spans at least changed + runs - 1 |
| Heatmap.KeptAndDropped | core/cavs-analyzer/src/windows.rs:78-79 | kept and dropped ranges are all the runs, equal lengths in position order |
| Heatmap.KeptAreLongest | core/cavs-analyzer/src/windows.rs:78-79 | no dropped run is longer than a kept one |
| Heatmap.Scatteredness | core/cavs-analyzer/src/windows.rs:82-86 | between 0 and 1: 0 exactly for one run or at most one changed window, 1 exactly when every changed window is isolated |
| Heatmap.Measure | core/cavs-analyzer/src/windows.rs:37-114 | all fields against the true flags, runs, differing bytes and changed windows' bytes; no window changed if and only if the contents are equal |
| Cache.HexInjective | core/cavs-client/src/cache.rs:25-27 | different keys have different files |
| Cache.ChunkCache.Put | core/cavs-client/src/cache.rs:33-45 | an existing entry is kept; otherwise the payload appears whole, and a crash leaves at most a torn temporary file |
| Cache.ChunkCache.Get | core/cavs-client/src/cache.rs:48-60 | only bytes hashing to the key come back; a file with other bytes is dropped |
| Cache.ChunkCache.Refetch | core/cavs-client/src/cache.rs:33-60 | get, put, get yields the payload if and only if no directory is in the way |
| Cache.ChunkCache.Entries | core/cavs-client/src/cache.rs:65-94 | lists the chunks and removes exactly the torn-write leftovers |
| Cache.ChunkCache.Verify | core/cavs-client/src/cache.rs:99-121 | counts are exact, only corrupt entries go, none stays unless a directory blocks it, deleting removes files only, and quarantine keeps the evidence |
| Cache.TotalSorted | core/cavs-client/src/cache.rs:125-137 | sorting by age keeps the total |
| Cache.ChunkCache.Gc | core/cavs-client/src/cache.rs:125-147 | removes the shortest oldest-first prefix that fits the budget if and only if it holds files only, and otherwise the files before a directory in it; evicted bytes are exact |
| Cache.DirectoryStopsGc | core/cavs-client/src/cache.rs:138-146 | a disk whose only chunk is a directory: nothing is evicted |
| Cache.AnswersHash | core/cavs-client/src/cache.rs:48-60 | whatever happened to the files, gets return only bytes hashing to their key |
| Cache.HonestRun | core/cavs-client/src/cache.rs:33-148 | in a history without corruption every chunk file keeps its key's content at every moment, and a get misses if and only if its key has no file |
| Cache.FoundAgain | core/cavs-client/src/cache.rs:33-148 | what was found once is found again, with the same bytes, until a collection or a disturbance |
| Cache.History | core/cavs-client/src/cache.rs:33-148 | every event changes the disk as it must, and every get in order is answered by what was on disk just before it |
| Policy.Planner.Push | core/cavs-cli/src/patch_policy.rs:126-140 | the plan so far is the uncapped plan of the candidates seen, cut at the cap |
| Policy.PlanPairs | core/cavs-cli/src/patch_policy.rs:100-207 | the plan under cap k is the first k pairs of the uncapped plan, for every rule list and distribution; the notes do not depend on the cap |
| Policy.PlanIsSound | core/cavs-cli/src/patch_policy.rs:126-140 | old versions are known, distinct and never the target, under every cap |
| Policy.LargerShareFirst | core/cavs-cli/src/patch_policy.rs:169-186 | among the `top-installed` candidates a larger share comes first |
| Policy.TopInstalledIsGreedy | core/cavs-cli/src/patch_policy.rs:167-187 | under every cap no unplanned older version other than the target has a larger share than a pair chosen by `top-installed` |

## Left out

- Artifact mode of `generate` and `apply`: a single file through the same strategies; only directory mode is modelled.
- Symlinks, executable bits and their restoration in `apply`; entries carry both through the codec.
- fsync ordering and I/O errors other than power cuts, missing sources and file-directory conflicts; the temporary file of a journal save (a save is atomic in the model).
- Files of the installation at reserved names: the output root starts with none but the staged copies and the journal, and what a patch's own actions at such names do to those is left open.
- The memory budget check, statistics, labels and reasons written for people, and the walk of the file system (a walk is an input that lists the tree).
- BLAKE3, zstd, brotli, bsdiff and xdelta3 internals: known by contract.
- `.cavssig` encoding and decoding: `Compare` takes a signature as a value; block validity is what decoding checks.
- The single-artifact branch of `classify`: one call of `file_matches_blocks`.
- Unreadable files and shards that are not directories in the cache; concurrent users of one cache.
- NaN shares and the formatting of percentages in the planner.
- EndToEnd.Deliver: the update is promised for builds within the format's limits (names and labels of at most 65536 bytes of UTF-8, at most 16777216 entries a side, files of at most some eight terabytes so that no plan exceeds the op limit), as `decode` refuses larger patches.
- Apply.ApplyThroughPowerCuts: empty directories left behind may differ between crash histories; files do not.
- Generate.Generate: tool availability and failures of the external delta tools are inputs, not processes.
- GodotPck.Parse: adding the header's base offset to an entry offset wraps, as in a build without overflow checks.
- Compare.ClassifyDir: paths are byte strings with forward slashes already; replacement of backslashes is not modelled.
- Cache.ChunkCache.Verify: what `rename` does when a directory is moved into the quarantine is left open.
