# Verified models of ctguard

ctguard watches hosts: a disk scanner reports changed files, and a research daemon turns
log lines into alerts by a tree of rules. This project models five of its parts and proves
what they promise, for every input, every run and every interleaving.

| part | files | what is proved about it |
|---|---|---|
| comparison, patch and merge library | `Scripts`, `Ses`, `EditGraph`, `Onp`, `Sweep`, `Rounds`, `Diff`, `Hunks`, `HunkComposer`, `LineNumbers`, `Merge`, `MergeMeaning`, `Diff3` | the recorded script is right in every mode and shortest when no round is cut; both encodings of a change rebuild the new sequence, and the hunks of a script are determined by it; a three-way merge is described gap by gap and its conflicts exactly |
| SHA-2 | `Sha2Core`, `Sha2Bytes`, `Sha2Message`, `Sha2Ring`, `Sha2Rolled`, `Sha2Unrolled`, `Sha2Stream`, `Sha256`, `Sha512`, `Sha2Constants`, `Sha256Standard`, `Sha512Standard`, `Sha2Layout` | the streaming contexts with their 16-word ring give the hash that FIPS 180-4 defines, for any split of the message; functions, constants and layout of that definition are those of the standard |
| disk scan pipeline | `Diskscan`, `DiskscanEffects`, `AlertTask`, `ScanPipeline`, `ScanCompleteness` | what every queue element does, alert by alert and field by field; no row is missed by a scan, deferred rows never clash, the alerts tell the whole story, a scan of a file system that stands still leaves exactly what is there; when a deferred row is wrong |
| rule engine | `Activation`, `UnlessTimer`, `RuleTree`, `RuleFile`, `RuleWalk`, `RuleChain`, `RuleCopies`, `RuleWay`, `RuleReach`, `RuleThrows` | window, timer and tree agree with definitions over the whole history or the whole file; which files are accepted, which rule an event ends with, and which files make each exception possible |
| XML | `XmlGrammar`, `XmlParser`, `XmlReading`, `XmlLayout`, `XmlRoundTrip`, `XmlReadBack` | the parser with pushback follows the grammar; documents are read as what they mean, however they are laid out; exactly which nodes it reads back from what the printer writes |

`Optional` holds the option type. `dafny verify dfyconfig.toml` checks everything.

How the parts are modelled:

- Objects whose methods change fields are classes: `DiffLibrary.Diff`, `ScriptContainer.Ses`,
  `Diff3Library.Diff3`, `Sha256.Context`, `Sha512.Context`, `AlertTask.Task`,
  `Activation.RuleState`, `UnlessTimer.Timer`, `RuleTree.Parser` and `XmlParser.Parser`. Every
  method is proved against a specification function or an outright property; the theorems are
  about those specifications.
- The comparison's cap on recorded coordinates (2000000 in the source) is a parameter of at
  least 2; its `goto` is an outer loop; list iterators are a cursor that splits a sequence.
- A C buffer is an array of bytes on a little-endian machine; the ring is the same memory
  read four or eight bytes at a time. Bit counts are reduced modulo 2^64 and 2^128 where the C
  types wrap.
- The threads of the disk scanner are a state machine whose actions are one step of one thread
  each. Pushing into a queue and handling one queue element are atomic; what the alert task
  pushes while it handles the middle of a scan is pushed one element at a time, interleaved
  with all other threads. Only the main thread pushes all jobs of a scan in one step. That
  loses nothing, because the list of directories is arbitrary: one that a watch task pushes in
  between is one more in the list, and a job is not taken before its turn. The table is a map
  keyed by path, and inserting a row requires the key to be new, so every insertion carries the
  proof that the UNIQUE key holds.
- What the outside world decides is a parameter: what is seen at a path, in which order the
  database lists rows, the clock, and which rules match an event.

Where code and documentation differ the code is followed. `docs/rules.xml.5.adoc` lines 107-108
say of `if_rule` that a rule is evaluated only if its parent matches. There are two exceptions.
`parse_rules` puts a rule with an activation group at the top of the group rules, where it is
evaluated for every event, parents or not (`RuleReach.GroupedChildIsEvaluated`); and a rule with an
`unless_rule` is also evaluated after the rule it watches, whether its parent has matched or not
(`RuleReach.WatcherIsEvaluated`). `RuleReach.EvaluatedAfterParentIff` says exactly for which files
the promise is kept, and `RuleReach.EvaluatedAfterEitherIff` when it is kept with the watched rule
as another parent.

Behaviour of the code that a reader may not expect, with the conditions for it:

- A rule with several parents has several copies, and a later child is hung under the first one
  only; an event that comes through another parent never meets the child
  (`RuleCopies.EveryCopyGetsTheChildIff`, `RuleReach.ChildIsMissed`).
- Both exceptions of the rule walk, the second of which "should never happen", can be thrown
  (`RuleThrows.UnknownChildPossibleIff`, `RuleThrows.NoFitIff`).
- A scan that is started while another one runs does no harm as long as its start mark gets to the
  alert task behind the end mark of the other; the main thread does not see to that
  (`ScanPipeline.NoRowIsMissed`, `ScanPipeline.OverlapMissesARow`).
- An object that is seen to be gone while its deferred row waits is inserted and reported as new
  (`Diskscan.ObservedIff`, `ScanPipeline.GoneIsRecorded`).
- An attribute value that contains the start of a comment is not read back, and the parser itself
  can return such values (`XmlReadBack.ReadsBackIff`, `XmlReadBack.NestedIsLost`).

## Model

| member | source | states |
|---|---|---|
| EditGraph.NoShorterScript | src/external/dtl-master/dtl/Diff.hpp:253-257 | an independent reference: by dynamic programming over the edit graph, no script between two sequences, in either direction, has fewer insertions and deletions than length difference plus twice the fewest deletions |
| EditGraph.CommonSubsequenceBound | src/external/dtl-master/dtl/Diff.hpp:253-257 | and no common subsequence is longer than the shorter sequence minus the fewest deletions |
| Onp.FurthestIsReachable | src/external/dtl-master/dtl/Diff.hpp:270-279 | every point a sweep stores lies inside the grid and is reached with exactly the budget of its level, as long as the corner was out of reach before: `fp` never overshoots N |
| Onp.FurthestIsFurthest | src/external/dtl-master/dtl/Diff.hpp:270-279 | no point of that cost lies further down the same diagonal, for every diagonal and every level |
| Onp.CornerLevel | src/external/dtl-master/dtl/Diff.hpp:278-281 | the loop test `fp[delta+offset] == N` first holds exactly at the fewest number of deletions |
| Onp.TrailReplays | src/external/dtl-master/dtl/Diff.hpp:585-619 | replaying the chain of back pointers behind a stored point is a path to that point, over equal elements on diagonals, with as many deletions as its level says |
| Sweep.StoreStep | src/external/dtl-master/dtl/Diff.hpp:557-572 | one `snake` call turns its diagonal from one level of the recurrence to the next in all three mutable tables and leaves the other diagonals alone |
| Sweep.FreshTables | src/external/dtl-master/dtl/Diff.hpp:265-268 | tables filled with -1 are the tables of the level before the first |
| DiffLibrary.Diff.Snake | src/external/dtl-master/dtl/Diff.hpp:557-572 | the slide down a diagonal ends where elements differ or the grid ends; the new coordinate points back to the neighbour that reached further |
| DiffLibrary.Diff.SweepLevel | src/external/dtl-master/dtl/Diff.hpp:270-278 | all sweeps of a level stay inside the M+N+3 cells and leave the furthest rows of that level behind |
| DiffLibrary.Diff.SearchRound | src/external/dtl-master/dtl/Diff.hpp:269-279 | a round stops at the fewest deletions, or earlier exactly when the recorded coordinates reach the cap; p never exceeds M |
| Rounds.RoundEnds | src/external/dtl-master/dtl/Diff.hpp:621-654 | a round ends on diagonal delta: at the corner, or with equally long non-empty remainders and, for a cap of at least 2, never where it began; so restarts make progress |
| DiffLibrary.Diff.RecordOddSequence | src/external/dtl-master/dtl/Diff.hpp:659-668 | a leftover is recorded entry by entry, the last one included, without reading past its end |
| DiffLibrary.Diff.CollectPoints | src/external/dtl-master/dtl/Diff.hpp:292-297 | following the back pointers from the corner ends and collects the chain behind it |
| DiffLibrary.Diff.Restart | src/external/dtl-master/dtl/Diff.hpp:638-651 | a restart works on the remaining suffixes with tables that fit them and hold nothing |
| DiffLibrary.Diff.ReplayPoints | src/external/dtl-master/dtl/Diff.hpp:577-619 | the recorder hands exactly the entries of the replayed path to script and subsequence |
| DiffLibrary.Diff.RecordSequence | src/external/dtl-master/dtl/Diff.hpp:577-654 | complete rounds, the trivial mode and restarts on the remaining suffixes: what each records, counts and leaves over |
| DiffLibrary.Diff.Compose | src/external/dtl-master/dtl/Diff.hpp:258-307 | the comparison ends for every input and every cap; distance, subsequence and script agree; with distance only, the distance is the least possible |
| Rounds.DiffTransforms | src/external/dtl-master/dtl/Diff.hpp:258-307 | swapped or not, one round or many, trivial or not: keeping common and deleted entries gives the old sequence, keeping common and added ones the new |
| Rounds.DistanceIsLeast | src/external/dtl-master/dtl/Diff.hpp:281 | no script at all has fewer edits than the reference distance |
| Rounds.DiffIsShortest | src/external/dtl-master/dtl/Diff.hpp:258-307 | when the first round is not cut, the script is shortest and the common subsequence longest |
| Rounds.UncutIff | src/external/dtl-master/dtl/Diff.hpp:269-279 | the first round is not cut if and only if the fewest deletions times the fewest insertions are less than the cap |
| Rounds.LargeCapIsUncut | src/external/dtl-master/dtl/Diff.hpp:279 | a caller can tell beforehand: a cap of (M+1)(N+1) cuts no round |
| Rounds.SameMeansNoEdits | src/external/dtl-master/dtl/Diff.hpp:258-307 | comparing a sequence with itself records no edit, whatever the cap |
| DiffLibrary.ComposeResults | src/external/dtl-master/dtl/Diff.hpp:258-307 | all results of one comparison together: they describe the same change, in the deletes-first order if asked for, and are optimal for a large enough cap |
| DiffLibrary.ComposeThenPatch | src/external/dtl-master/dtl/Diff.hpp:229-251 | comparing and patching rebuilds the new sequence in every mode, with any number of restarts |
| DiffLibrary.Diff.Patch | src/external/dtl-master/dtl/Diff.hpp:229-251 | patching any sequence that starts like the script's base replaces that start by what the script leads to and keeps the rest |
| ScriptContainer.Ses.AddSequence | src/external/dtl-master/dtl/Ses.hpp:83-117 | the stored entries are the calls so far, or with deletesFirst the calls with deletions moved ahead of insertions inside each run between common entries; the three flags say which kinds occurred |
| ScriptContainer.MovedSnoc | src/external/dtl-master/dtl/Ses.hpp:93-116 | the insertion index is right: where one more entry lands in the deletes-first order, for each kind |
| Scripts.MovingKeepsMeaning | src/external/dtl-master/dtl/Ses.hpp:93-116 | moving deletions first changes neither side of the script, nor what is common, nor the counts |
| Scripts.MovedInOrder | src/external/dtl-master/dtl/Ses.hpp:93-116 | afterwards no deletion directly follows an insertion |
| ScriptContainer.StoredMeansCalled | src/external/dtl-master/dtl/Ses.hpp:119-121 | whatever the mode, the stored script says the same as the calls that made it |
| LineNumbers.DiffIndexed | src/external/dtl-master/dtl/Diff.hpp:580-619 | a script of one round, or one completed by the trivial mode, gives every common entry its true line on both sides |
| HunkComposer.Compose | src/external/dtl-master/dtl/Diff.hpp:371-502 | one pass cuts the script into ordered, disjoint hunks that hold every edit, with b and d counting their lines and a and c being the true start lines, swapped or not; every hunk begins exactly three common entries before its first edit, or with the end of the hunk before if there are fewer, holds no five common entries in a row, and ends either with the script or three entries behind its last edit, where five common ones follow that edit |
| Hunks.HunksAreDetermined | src/external/dtl-master/dtl/Diff.hpp:371-502 | no other hunks have these properties: two truly placed descriptions of a script with such cuts are equal |
| HunkComposer.TakeContext | src/external/dtl-master/dtl/Diff.hpp:416-437 | at most three common entries are kept in front of a first edit, and the start lines move along when the oldest is dropped |
| HunkComposer.CloseHunk | src/external/dtl-master/dtl/Diff.hpp:466-490 | the finished hunk holds exactly its part of the script and starts at its true lines |
| HunkComposer.CountCommons | src/external/dtl-master/dtl/Diff.hpp:454-465 | the test that may end a hunk holds exactly when the next three entries exist and are common |
| HunkComposer.PatchHunk | src/external/dtl-master/dtl/Diff.hpp:187-220 | the cursor arithmetic of one hunk: gap and running increment lead exactly to its first line |
| HunkComposer.PatchLines | src/external/dtl-master/dtl/Diff.hpp:195-219 | applying the lines of a hunk at the cursor replaces what they read by what they write |
| DiffLibrary.Diff.UniPatch | src/external/dtl-master/dtl/Diff.hpp:180-224 | patching with hunks has the effect of the script they describe, and rewrites every start line on the way |
| DiffLibrary.ComposeThenUniPatch | src/external/dtl-master/dtl/Diff.hpp:180-224 | the second encoding is faithful: hunks made from a single round, applied to the old sequence, give the new one |
| HunkComposer.PatchedHunksStillFit | src/external/dtl-master/dtl/Diff.hpp:191 | the rewritten hunks still hold the same parts of the script; their start lines are still true if and only if no hunk had moved |
| MergeMeaning.InsertedSnoc | src/external/dtl-master/dtl/Diff3.hpp:117-203 | what a script inserts in a gap are its added entries behind that many base elements, in order |
| MergeMeaning.DeletedSnoc | src/external/dtl-master/dtl/Diff3.hpp:117-203 | and it deletes a base element if it has a deletion behind that many base elements |
| MergeMeaning.ConflictIff | src/external/dtl-master/dtl/Diff3.hpp:168-191 | two scripts clash if and only if in some gap neither insertion continues the other, or one inserts more than the other in front of an element that the other deletes |
| MergeMeaning.MergedIs | src/external/dtl-master/dtl/Diff3.hpp:117-203 | without a clash the merge is, gap by gap, the longer of the two insertions and the base element unless either side deletes it |
| Merge.MergedSymmetric | src/external/dtl-master/dtl/Diff3.hpp:117-203 | the meaning of a merge, gap by gap of the base (insertions of either side, equal ones once, base elements deleted by neither), does not depend on the order of the sides |
| Merge.MergedSame | src/external/dtl-master/dtl/Diff3.hpp:117-203 | merging a change with itself gives the changed sequence |
| Merge.StateBase | src/external/dtl-master/dtl/Diff3.hpp:128-167 | both cursors have consumed the same number of base elements, so two entries that consume one agree on it: the mismatch branch is unreachable |
| Merge.StateClash | src/external/dtl-master/dtl/Diff3.hpp:168-191 | the conflict branches are taken only for scripts that are incompatible |
| Merge.StateEnd | src/external/dtl-master/dtl/Diff3.hpp:195-199 | when one script ends the other holds insertions only, and appending them completes the merge |
| Diff3Library.Diff3.MergeScripts | src/external/dtl-master/dtl/Diff3.hpp:117-203 | the two-cursor walk ends and reports a conflict exactly when the scripts are incompatible in some gap, and otherwise returns the merge |
| Diff3Library.Diff3.Merge | src/external/dtl-master/dtl/Diff3.hpp:83-103 | the shortcuts for an unchanged side give the same result as the walk would |
| Diff3Library.Diff3.AddDecentSequence | src/external/dtl-master/dtl/Diff3.hpp:235-240 | the insertions among the remaining entries are appended in order |
| Diff3Library.ComposeThenMerge | src/external/dtl-master/dtl/Diff3.hpp:83-111 | conflict and result of a whole three-way merge; unchanged sides and equal changes merge to what one expects |
| Diff3Library.MergeIsSymmetric | src/external/dtl-master/dtl/Diff3.hpp:83-203 | swapping the two sides changes neither result nor conflict |
| Sha2Constants.Constants256AreRoots | src/external/sha2/sha2.c:228-245 | each of the 64 constants holds the first 32 bits behind the point of the cube root of its prime number |
| Sha2Constants.Constants512AreRoots | src/external/sha2/sha2.c:260-301 | each of the 80 constants holds the first 64 bits |
| Sha2Constants.Initial256AreRoots | src/external/sha2/sha2.c:248-257 | the initial hash value holds 32 bits of the square roots of the first eight primes |
| Sha2Constants.Initial512AreRoots | src/external/sha2/sha2.c:316-325 | that of SHA-512 holds 64 bits of the same roots |
| Sha2Constants.Initial384AreRoots | src/external/sha2/sha2.c:304-313 | that of SHA-384 holds 64 bits of the roots of the ninth to sixteenth prime |
| Sha256Standard.ChIs | src/external/sha2/sha2.c:201 | Ch takes the bits of y where x has ones and of z elsewhere |
| Sha256Standard.MajIs | src/external/sha2/sha2.c:202 | Maj takes the common bit of x and y where they agree and the bit of z elsewhere |
| Sha256Standard.RotationsAre | src/external/sha2/sha2.c:196 | for each amount used, bit i of the rotated word is bit i + n of the word |
| Sha512Standard.RotationsAre | src/external/sha2/sha2.c:198 | the same for words of 64 bits |
| Sha256Standard.SumsAre | src/external/sha2/sha2.c:488-499 | what a round adds up |
| Sha256Standard.RoundIs | src/external/sha2/sha2.c:488-499 | a round makes two new registers and moves the others on |
| Sha256Standard.CompressIs | src/external/sha2/sha2.c:505-514 | after 64 rounds the registers are added to the hash value |
| Sha512Standard.CompressIs | src/external/sha2/sha2.c:827-836 | after 80 rounds for SHA-512 |
| Sha256Standard.ScheduleIs | src/external/sha2/sha2.c:482-489 | the recurrence of the message schedule |
| Sha2Layout.Sha256Is | src/external/sha2/sha2.c:570-631 | the whole hash: blocks of the message with its one bit, zeros and length, hash values built up block by block, and 32 bytes, every word most significant byte first |
| Sha2Layout.Sha512Is | src/external/sha2/sha2.c:933-1045 | the same with blocks of 128 bytes and a length of 16; SHA-384 starts elsewhere and gives out six of the eight words |
| Sha2Layout.BytesOfWord32 | src/external/sha2/sha2.c:129-133 | a word is its four bytes, the first one most significant |
| Sha2Core.RingStep | src/external/sha2/sha2.c:479-488 | sixteen words are enough: the word that replaces the oldest ring entry, added up in the code's order, is the next word of the 64-word schedule |
| Sha2Core.FeedCopy | src/external/sha2/sha2.c:459-465 | copying a block word by word into the ring works even over the memory it is read from |
| Sha2Core.InPlaceThenRename | src/external/sha2/sha2.c:370-379 | overwriting d and h and renaming the registers is the round of the definition |
| Sha2Ring.StoredWords | src/external/sha2/sha2.c:447-463 | seen as words, the byte buffer changes in the stored word only, in both byte orders |
| Sha2Rolled.Transform | src/external/sha2/sha2.c:442-518 | the rolled loop over bytes computes the compression function of section 6.2.2 of FIPS 180-4, also when the block is the context's own buffer |
| Sha2Unrolled.Transform | src/external/sha2/sha2.c:381-435 | the unrolled version with renamed registers computes the same |
| Sha2Bytes.ReverseReadsBigEndian32 | src/external/sha2/sha2.c:129-133 | the byte-swapping macro turns a word in host order into the big-endian word of the standard |
| Sha2Bytes.ReverseWritesBigEndian64 | src/external/sha2/sha2.c:134-141 | and a stored swapped word has the big-endian bytes of the original |
| Sha2Message.PadInOneBlock | src/external/sha2/sha2.c:584-609 | marker, zeros and length in one block are the last block of the padded message of section 5.1.1 |
| Sha2Message.PadInTwoBlocks | src/external/sha2/sha2.c:591-600 | and so are the two blocks when the length does not fit any more |
| Sha2Message.FewerZerosDoNotFit | src/external/sha2/sha2.c:588-606 | the number of zero bytes is the smallest that fills a block |
| Sha2Stream.Appended | src/external/sha2/sha2.c:540-550 | input copied behind the used part of the buffer extends the message held |
| Sha2Stream.Compressed | src/external/sha2/sha2.c:540-545 | a full buffer becomes a block of the message |
| Sha2Stream.Finish | src/external/sha2/sha2.c:584-611 | both padding branches give the hash of the padded message; how much of a second block is cleared does not matter |
| Sha2Stream.WriteDigest | src/external/sha2/sha2.c:613-622 | the digest is the hash value with every word most significant byte first |
| Sha256.Context.Update | src/external/sha2/sha2.c:522-568 | whatever its length, a piece extends the message held, in the buffer and in the blocks already compressed; the bit count is 8 times the bytes, modulo 2^64 |
| Sha256.Context.Final | src/external/sha2/sha2.c:570-631 | the digest is the hash of everything fed to the context, and the context is wiped, with or without a digest buffer |
| Sha256.HashPieces | src/external/sha2/sha2.c:335-342 | for every split of a message into pieces the result is the hash of their concatenation |
| Sha512.MoreBits | src/external/sha2/sha2.c:149-154 | ADDINC128 adds with carry: the carry is seen from the low word being smaller than what was added |
| Sha512.WordsOfTheLength | src/external/sha2/sha2.c:149-154 | the two words are the number of bits modulo 2^128 |
| Sha512.Context.Update | src/external/sha2/sha2.c:844-890 | as for SHA-256, with the two-word count |
| Sha512.Context.Last | src/external/sha2/sha2.c:892-931 | the padding of section 5.1.2, although 14 bytes more than needed are cleared |
| Sha512.HashPieces | src/external/sha2/sha2.c:933-960 | SHA-512 and SHA-384 of any split message |
| AlertTask.Task.DoInsertSet | src/diskscan/daemon.cpp:459-522 | the deferred rows are inserted in path order, each under a new key and with its alert |
| AlertTask.Task.DoUpdateQueue | src/diskscan/daemon.cpp:524-554 | the deferred marks are set in order |
| AlertTask.Task.HandleKnown | src/diskscan/daemon.cpp:670-829 | an observation of a path that has a row: deleted, changed, marked now or marked later |
| AlertTask.Task.HandleUnlisted | src/diskscan/daemon.cpp:833-897 | an observation of a path that has none: inserted now, or put into the set and inserted with its block |
| AlertTask.Task.HandleMid | src/diskscan/daemon.cpp:604-627 | phase 2 queues every unmarked row once and then the end mark, before the deferred work is caught up on |
| AlertTask.Task.Handle | src/diskscan/daemon.cpp:571-901 | one round of the loop does what the step function says, for every element and in every state between two elements |
| DiskscanEffects.AlertIff | src/diskscan/daemon.cpp:688-829 | an object that has a row is reported if and only if it is gone, or its owner, group, size, mode or kind, the checked checksum of a file or the checked target of a link is another; one alert, and of the right kind |
| DiskscanEffects.ChangedEffect | src/diskscan/daemon.cpp:753-784 | its row then takes over every field, except a checksum that was not computed, and counts as seen |
| DiskscanEffects.SameEffect | src/diskscan/daemon.cpp:786-816 | otherwise nothing happens unless the look was forced: then only the mark of the row is set, at once or, during the walk, when its block is full |
| DiskscanEffects.GoneEffect | src/diskscan/daemon.cpp:817-829 | a row is deleted and reported when nothing is there |
| DiskscanEffects.NewEffect | src/diskscan/daemon.cpp:833-879 | an object without a row gets one outside the walk, with every field, and is reported |
| DiskscanEffects.DeferredEffect | src/diskscan/daemon.cpp:881-896 | during the walk it waits, in place of an older observation, until the block is full; then all that wait are inserted and reported in the order of their paths |
| DiskscanEffects.MidEffect | src/diskscan/daemon.cpp:604-627 | the middle of a scan queues a forced look at every path selected, then the end mark, inserts what waits and sets the marks that wait |
| DiskscanEffects.StartEffect | src/diskscan/daemon.cpp:592-602 | the start of a scan unmarks every row and changes nothing else about it |
| DiskscanEffects.BlocksStay | src/diskscan/daemon.cpp:882-895 | neither block of deferred work is full between two elements |
| DiskscanEffects.LessMeans | src/diskscan/daemon.cpp:454-457 | the order of the set is that of strings: by the first character that differs, a prefix first |
| Diskscan.PutSorted | src/diskscan/daemon.cpp:454-457 | the ordered set stays strictly ordered by path when an element is inserted or replaced |
| Diskscan.StepKeeps | src/diskscan/daemon.cpp:571-901 | every element leaves the deferred rows insertable and nothing deferred outside a scan; and if replaying the alerts gave exactly the paths in the table before, it does so after |
| Diskscan.MarksStay | src/diskscan/daemon.cpp:592-602 | only the start of a scan takes marks away |
| Diskscan.ForcedIsSettled | src/diskscan/daemon.cpp:753-816 | a forced observation outside the walk marks, replaces or deletes its row |
| Diskscan.SeenIsRecorded | src/diskscan/daemon.cpp:665-870 | outside the walk the table shows what was seen: the path has a row if and only if something is there, the row does not differ from the observation, and the other rows are untouched |
| Diskscan.ObservedIff | src/diskscan/daemon.cpp:833-897 | after an observation the paths that have a row or wait for one agree with it if and only if something was seen or the path was not waiting; other paths are untouched |
| Diskscan.WalkedIsRecorded | src/diskscan/daemon.cpp:882-895 | during the walk a new object is in the table or waits for it as it was seen; an object without a row that has gone again changes nothing at all |
| Diskscan.WaitingIsInserted | src/diskscan/daemon.cpp:604-627 | whatever waits when the walk is over gets a row that counts as seen, and phase 2 does not look at it |
| ScanPipeline.DoKeeps | src/diskscan/daemon.cpp:592-653 | any step of any thread keeps the invariant, whenever scans are started, except handling a start mark before the end mark of an earlier scan: start and mid marks take turns, no end mark is pending during a walk, and while one is pending every unmarked row is queued in front of it |
| ScanPipeline.NoRowIsMissed | src/diskscan/daemon.cpp:592-653 | for every interleaving in which the alert task handles no start mark between a mid mark and its end mark: when the end of a scan is handled, no row is left that the scan has not seen |
| ScanPipeline.OneAtATimeIsInTurn | src/diskscan/daemon.cpp:1180-1194 | starting no scan while one is running is enough for that order of the marks |
| ScanPipeline.OneAtATimeMissesNoRow | src/diskscan/daemon.cpp:592-653 | so no row is missed in any run with one scan at a time either |
| ScanPipeline.OverlapMissesARow | src/diskscan/daemon.cpp:1180-1194 | the main thread does not check for a running scan, and the order is needed: for every row and whatever is seen at its path there is a run in which a second start mark is handled before the first end mark, and the first end mark while the row is unmarked |
| ScanPipeline.GoneIsRecorded | src/diskscan/daemon.cpp:833-895 | for every object there is a run from an empty table with a single scan, and blocks of at least two rows, in which the last thing seen at its path is that it is gone, while at the end of the scan it has been reported as new and has a row that counts as seen |
| ScanCompleteness.ScanIsComplete | src/diskscan/daemon.cpp:571-901 | for every interleaving with the marks in that order, and observations that all agree with the same objects: when the end of a scan is handled, every row is of an object that is there and does not differ from it, in its content too if every look was at the content; and every object has a row that was listed at the start or found by the walk before this scan's mid mark was queued |
| ScanPipeline.AlertsAreComplete | src/diskscan/daemon.cpp:459-895 | in every run from any consistent state, scans overlapping or not: the UNIQUE key holds, nothing is deferred outside a scan, and if the alerts told the table before the run they do so after it |
| ScanPipeline.AlertsTellTheTable | src/diskscan/daemon.cpp:459-895 | in every run from an empty table each alert is legal where it occurs, and replaying them gives exactly the paths in the table |
| Activation.DropOldIsRecent | src/research/process_log.cpp:75-87 | erasing from the front until an entry is young enough leaves exactly the young entries |
| Activation.WindowAfterFiring | src/research/process_log.cpp:325-345 | a reset discards exactly the events that the definition over the history discards, all or those with the same field |
| Activation.ActiveMeans | src/research/process_log.cpp:89-122 | without a same field the definition asks for as many counting entries as the rate, with one for that field in the event and as many counting entries that have the same value |
| Activation.RuleState.Check | src/research/process_log.cpp:46-115 | for every history with a clock that never goes back: exactly the tagged events that no reset discarded and that are not too old are stored, and the rule is active if and only if the number of entries of the history that count, or with a same field those with the same value, reaches the rate |
| Activation.RuleState.Fire | src/research/process_log.cpp:313-345 | choosing the rule keeps the stored events equal to the definition |
| Activation.FirstEventShortcut | src/research/process_log.cpp:58-66 | answering "inactive" on the very first counted event is right if and only if the rate is at least two |
| RuleTree.RatesAreLegal | src/research/rule.cpp:388-398 | which every rule of an accepted file satisfies |
| UnlessTimer.Timer.Check | src/research/process_log.cpp:17-44 | a check from a parent starts the timer, one from the watched rule stops it, any other throws; the stored state is that of the timer running by the definition over the history |
| UnlessTimer.Timer.LookAt | src/research/daemon.cpp:108-121 | a tick consumes the trigger if and only if the latest check came from a parent, its timeout has passed and no tick has consumed it; the alerts are those of the definition |
| UnlessTimer.FiresOnce | src/research/daemon.cpp:108-121 | at most one alert per trigger and one trigger per alert |
| UnlessTimer.TickAlerts | src/research/daemon.cpp:108-121 | a tick later than the timeout after a check from a parent, with no other check and no such tick in between, puts out that event with the rule's id and priority, if that priority is high enough or the event is always wanted |
| UnlessTimer.NothingAlerts | src/research/daemon.cpp:108-121 | nothing else puts out an alert |
| RuleTree.Parser.AddRule | src/research/rule.cpp:447-532 | a rule is accepted, or rejected with its error, and hung into the two lists as the functional reading of the parser says |
| RuleFile.AcceptedIff | src/research/rule.cpp:447-532 | a file is accepted if and only if every group has a proper name, and every rule has numbers that fit, refers only to rules and groups in front of it, has a new id and combines only what goes together |
| RuleFile.ErrorMeans | src/research/rule.cpp:447-532 | the error of a rejected file is about its first bad node and says what is wrong with it |
| RuleTree.ParsePlaced | src/research/rule.cpp:500-532 | in every accepted tree a rule below the top names the rule above it as a parent or watches it, and only rules with an activation group have a parent and are at the top |
| RuleWalk.UnknownChildIff | src/research/process_log.cpp:35-43 | for every accepted file and whatever matches, "Unknown child case" is thrown if and only if a top-level group rule that watches another meets an event whose last standard rule is neither a parent nor the watched rule |
| RuleThrows.UnknownChildPossibleIff | src/research/process_log.cpp:17-43 | for every accepted file: for some matching behaviour it is thrown if and only if an event can leave the standard rules with a last rule that a watching group rule does not know |
| RuleThrows.NoUnknownChild | src/research/process_log.cpp:35-43 | it is unreachable when no watching rule has an activation group |
| RuleThrows.GroupedUnlessThrows | src/research/rule.cpp:500-503 | every accepted file with such a rule throws for every event that no rule matches, unless the rule names 0, the id of no rule, as a parent |
| RuleThrows.GroupedUnlessIff | src/research/rule.cpp:500-503 | so where 0 is not named like that, some matching behaviour throws if and only if a watching rule has an activation group |
| RuleThrows.GroupedUnlessExists | src/research/rule.cpp:500-503 | there is such an accepted file |
| RuleWalk.SelectIsBest | src/research/process_log.cpp:373-390 | the chosen rule has the highest priority and among those the lowest id; none is chosen, and the exception thrown, if and only if every matching rule has priority 0 and the largest id |
| RuleWalk.ChooseFit | src/research/process_log.cpp:373-386 | the loop over the matching rules computes that choice |
| RuleWalk.CheckTopRules | src/research/process_log.cpp:347-407 | the recursive walk: check all rules of a level, choose, go on with the children of the chosen one |
| RuleChain.ProcessEndsIff | src/research/process_log.cpp:347-407 | for every accepted file and whatever matches: an event ends with a rule if and only if that is the last of a chain, through the standard rules and then the group rules, of which each is the first of the best matching rules below the one before and the last has no matching rule below it |
| RuleCopies.OneCopyGetsTheChild | src/research/rule.cpp:505-532 | of the copies of each parent, however many parents there are, and of the watched rule, exactly the one that a lookup finds gets the child |
| RuleCopies.EveryCopyGetsTheChildIff | src/research/rule.cpp:505-532 | all copies of a parent, or of the watched rule, get a new child if and only if there is one copy |
| RuleWay.ParseTidy | src/research/rule.cpp:500-532 | in every accepted tree no rule hangs below itself, and a rule with a copy among the standard rules has no children among the group rules |
| RuleWay.FollowerArrives | src/research/process_log.cpp:347-407 | an event that matches just the rules on a way gets to the end of it |
| RuleWay.GroupArrives | src/research/process_log.cpp:440-500 | whatever last standard rule and whatever group rule can be reached, one event reaches both |
| RuleReach.EvaluatedAfterParentIff | src/research/rule.cpp:500-532 | in an accepted file, rules with parents are evaluated only after a parent has matched, whatever matches, if and only if none of them has an activation group and no event can go on with a watched rule that the watching rule does not name as a parent |
| RuleReach.EvaluatedAfterParent | src/research/rule.cpp:500-532 | a condition on the file: no rule with a parent has an activation group, and every watched rule is named as a parent |
| RuleReach.EvaluatedAfterEitherIff | src/research/rule.cpp:500-532 | rules with parents are evaluated only after a parent or the watched rule if and only if none of them has an activation group |
| RuleReach.GroupedChildIsEvaluated | src/research/rule.cpp:501-502 | an accepted file with such a rule, which is evaluated although neither a parent nor a watched rule has matched |
| RuleReach.WatcherIsEvaluated | src/research/rule.cpp:519-532 | an accepted file without activation groups, in which a rule is evaluated after the rule it watches although its parent has not matched |
| RuleReach.ChildIsMissed | src/research/rule.cpp:505-516 | an accepted file in which an event goes on from a rule to its child when it comes through the rule's first parent, and ends when it comes through the second, even if the child would match |
| RuleThrows.NoFitIsUnreachable | src/research/process_log.cpp:388-390 | the exception that "should never happen" does not, whatever matches, if no rule of the accepted file has priority 0 and the largest id |
| RuleThrows.NoFitNeedsAWay | src/research/process_log.cpp:373-390 | whatever matches, it is thrown only if an event can get to such a rule |
| RuleThrows.NoFitIff | src/research/process_log.cpp:373-390 | for every accepted file: for some matching behaviour it is thrown if and only if a way past no watching rule leads to such a rule, among the standard rules, or among the group rules for an event whose last standard rule all watching group rules know |
| RuleThrows.LargestOnTopFails | src/research/process_log.cpp:373-390 | in particular whenever such a rule has no parent and no watching group rule throws first |
| RuleThrows.LargestFails | src/research/process_log.cpp:373-390 | an accepted file with one rule that throws for every matching behaviour under which the rule matches |
| RuleCopies.TreeHoldsTheFile | src/research/rule.cpp:447-532 | the tree holds exactly the rules of the file, and different rules have different ids, so state kept by id belongs to one rule |
| XmlParser.Parser.GetChar | src/libs/xml/XMLparser.cpp:9-70 | the next character outside comments and line ends; the escape flag is never set |
| XmlParser.Parser.Parse | src/libs/xml/XMLparser.cpp:72-188 | the loop with its pushback and recursion ends and returns what the state machine of the grammar returns, leaving the same rest of the input |
| XmlParser.Parser.React | src/libs/xml/XMLparser.cpp:84-185 | what each state does with the character that ends its run: the next state, a child, the node or an error |
| XmlGrammar.Step | src/libs/xml/XMLparser.cpp:83-185 | every state gets closer to the end of the input or moves on to a state that pushes nothing back |
| XmlLayout.LaidOutIsRead | src/libs/xml/XMLparser.cpp:72-188 | any document is read as what it means and the rest of the input is left: with white space in front, between attributes and before the end of a tag, self-closing tags with their attributes, and texts with tabs and elements in any order |
| XmlLayout.MisclosedIsRejected | src/libs/xml/XMLparser.cpp:171-184 | a closing tag with another name is an error, whatever the body |
| XmlLayout.FailsIff | src/libs/xml/XMLparser.cpp:84-185 | exactly which characters end a run without an error, and that a key must be new |
| XmlLayout.ErrorsAreFinal | src/libs/xml/XMLparser.cpp:84-188 | an error, the end of the input inside a tag, or a zero byte ends the parsing |
| XmlRoundTrip.RoundTrip | src/libs/xml/XMLNode.cpp:13-37 | parsing the printed form of any clean node without "<!" in a value gives the node and leaves the rest of the input |
| XmlRoundTrip.WrittenIsRead | src/libs/xml/XMLparser.cpp:9-188 | every clean node is read from a text: the printed form with a comment put into every "<!" of a value |
| XmlRoundTrip.ReturnedIff | src/libs/xml/XMLparser.cpp:72-188 | so the nodes that the parser returns are exactly the clean ones |
| XmlRoundTrip.MachineIsClean | src/libs/xml/XMLparser.cpp:95-185 | whatever is parsed has alphanumeric names, distinct keys that start alphanumeric, printable values and text without markup |
| XmlReadBack.ValueReadsBackIff | src/libs/xml/XMLparser.cpp:140-152 | a printable attribute value is read as it was written, up to its closing quote, if and only if it does not contain "<!" |
| XmlReadBack.MachineWeight | src/libs/xml/XMLparser.cpp:9-70 | a comment or line end that is skipped costs a character that is in no node: the whole parser collects at most what it passes, and a node with a comment start in a value only by skipping something |
| XmlReadBack.ReadsBackIff | src/libs/xml/XMLNode.cpp:13-37 | every node that a parser can return is read back from its printed form if and only if no attribute value in it contains "<!" |
| XmlReadBack.ReprintReadsBack | src/libs/xml/XMLNode.cpp:13-37 | so printing what was parsed and parsing it again gives the same node under exactly that condition |
| XmlReadBack.NestedIsLost | src/libs/xml/XMLparser.cpp:9-70 | a text that is parsed to a node whose reprint is not read back as that node |
| XmlReadBack.CommentValueIsLost | src/libs/xml/XMLparser.cpp:42-70 | inside any opening tag, an attribute value that looks like a comment is read back as empty |
| XmlReadBack.CommentNodeIsLost | src/libs/xml/XMLparser.cpp:42-70 | an element whose attribute value looks like a comment is read back with an empty value |

## Left out

- inotify, file access, sockets, processes, signals, mail and serialisation: calls into the system; what they observe is a parameter.
- SQLite: the table is a map and its statements are single steps; transactions that fail are not modelled.
- Regular expressions: which rules match an event is an arbitrary function; capture groups and their count are not modelled.
- Text of alerts, logging, counters, time formatting, option parsing and command lines.
- Shutdown of the disk scanner's threads in `ScanPipeline`: `AlertTask` handles the kill element, the pipeline model has no stop and no failing task.
- `uniPatch` after a comparison with restarts: line numbers start again in every round, so hunk properties are stated for one round and for the trivial mode; nor is a second `uniPatch` with the same hunks, whose start lines have been rewritten.
- A second `compose` on the same object, and comparators other than equality.
- Escaped characters in XML: the escape flag of the parser is never set, so there are none.
- SHA-2 on big-endian machines, hexadecimal output, and messages of 2^64 (2^128) bits or more, for which the standard defines no hash; the model reduces their length as the C types do.
- Sha2Unrolled.AllRounds: the two do-while loops of the unrolled transform are one loop over groups of eight rounds.
- The walk over a directory: the paths that a scan emits are arbitrary.
- Trigger groups, fields and traits in `check_rule`: chains of independent tests without state.
- Position and wording of XML parse errors: every error is the same failure.
- UnlessTimer.Timer.Check: the clock is taken to be positive, as zero stands for "not running".
- Data races on the map of rule states: each locked section is one step.
