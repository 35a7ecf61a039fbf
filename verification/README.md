# A verified model of pstrain's Python algorithms

pstrain trains acoustic models with native code; the Python around it decides, aligns, compares, replaces
and recovers. This project models the parts of that Python whose correctness is not obvious from one
function, and proves what they are for. `dafny verify dfyconfig.toml` checks everything.

| module | what it models |
|---|---|
| `Feasibility` | the 0-1 breadth-first search for the fewest frames an utterance HMM can occupy |
| `EditAlign`, `BoundaryScore` | the Levenshtein tables with deterministic ties, the walk back, and the phone-boundary scores |
| `ProjectSwap` | histories of commands that create, replace or train a project, with a swap journal, each interrupted anywhere by an exception, an interrupt or a crash, and recovery |
| `ModelPublication` | publishing a set of model files with rollback, and restoring a checkpoint on top of it, when any file operation may raise before or after it took effect |
| `ContainmentScanner` | the labelling of native calls as "worker only", against an operational semantics |
| `IdentitySettling` | the timed loop that settles the identity of a launched process |
| `TreeCompare`, `PartitionCompare` | canonical forms of decision-tree tables, first differences, and the comparison of senone assignments as partitions |
| `Json`, `ProvenanceDiff`, `ConditionPins` | documents under Python's equality, their diff read as a patch, and authenticating and adopting pinned conditions |
| `MachO` | masking UUIDs and signatures of a thin Mach-O image in place |
| `LexiconCheck`, `FeatParams` | the one-pass lexicon check, and the numeric part of the front-end record check |
| `SortedStrings`, `Options` | helpers |

Code that updates variables, lists, directories or buffers is modelled by methods and classes; each is proved
against a specification that does not mention how it works, and the lemmas are about that specification.
Where the environment decides (a file operation failing, a clock moving, a reader's answer), the method
chooses arbitrarily, so its contract covers every run; a ghost record in the environment notes which operations
failed and what was read, and contracts are stated against it, so that nothing fails without a cause.

## What the proofs found

- The search in `feasibility.py` is written to improve distances, but never does: every edge into a state
  costs the same, so the first distance written is final and each state is queued once.
- `staged_model_update` may raise although the publication is complete, when only its staging directory cannot
  be removed; every other raise leaves the files alone, or loses none of them when the rollback fails. A file
  name given twice can never be published, and if a file of that name exists, an attempt that gets as far as
  publishing always ends in a failed rollback, because the first restoration uses up the backup.
- `_provenance_diff` is silent where Python finds equal a boolean, an integer, a float or -0.0 and another of
  these: `true` and `1`, `1` and `1.0`, `0.0` and `-0.0`. The patch gives exactly the second document if and
  only if no two values at the same keys differ in that way alone.
- One failed operation alone is harmless in both protocols: with names given once, `staged_model_update` leaves
  the files wholly old or wholly new; and a replacement that meets one exception leaves a project in place, and
  no staging directory unless making or removing that is what failed.
- What survives any history of interrupted `train` commands is the first project, what some command built or
  wrote, or an authenticated part of what one built; a project once there is never lost.
- `_disagreement_samples` never meets a pair again, so its guard against repetition does nothing: without the
  limit the samples number twice the pairs of labels that occur, less the labels on either side.
- `adopt_uncovered_conditions` never reads the record below its top-level keys: what it passes down as the
  recorded value is the live value again. Below those keys it returns the live conditions if and only if every
  live value at the path of a frozen field list is a list or an object. A live string there, pinned or not,
  passes authentication and is then taken apart into characters, after which the record no longer
  authenticates; an unpinned number there passes authentication and then raises.
- Its documentation promises that no pinned condition changes. A pin does change, to the live value, if that is
  equal to Python and yet differs, as `1.0` does from a pinned `1`; outside the frozen lists the pins are kept
  if and only if none does.
- The documentation of `check_model_lexicon` promises to report any alternative that survives after its base
  was dropped from the same file. The code reports it exactly when no spelling of the word, in any
  file, survives before the first such alternative; the model follows the code.
- A crash before the swap journal is written leaves a staging directory that no recovery will find:
  without a journal, `Recover` changes nothing.
- What the refusal message of `_settled_live_fingerprint` calls distinct identities is the number of runs of
  equal identities; the two agree exactly when no identity returns after another one was read. After one
  change too many, the last identity it names is not the last one read, as its documentation says, but the
  one before.

## Model

| member | source | states |
|---|---|---|
| Feasibility.MinimumEmittingStates | pstrain/lib/feasibility.py:41-79 | None exactly when there is no state or the last is unreachable; otherwise the minimum, over all walks, of the emitting states visited; states are popped once each, in order of distance, and the distance at that moment is the final one; terminates on every graph |
| Feasibility.Expand | pstrain/lib/feasibility.py:65-77 | relaxing a popped state keeps the 0-1 order and leaves every distance already written as it was |
| Feasibility.FixpointBoundsWalks | pstrain/lib/feasibility.py:44-49 | a labelling that no edge improves is below the cost of every walk, cyclic ones included |
| Feasibility.FixpointIsMinimum | pstrain/lib/feasibility.py:44-51 | realised labels that no edge improves are exactly the minima, and are set exactly on the reachable states |
| Feasibility.FramesDecide | pstrain/lib/feasibility.py:3-9 | no alignment has fewer frames than the minimum, and one has exactly that many |
| EditAlign.Fill | pstrain/benchmarks/boundaries.py:137-153 | the loops fill every cell with the distance of its prefixes and the operation the tie rule picks |
| EditAlign.Align | pstrain/benchmarks/boundaries.py:133-174 | the walk back returns the alignment of an optimal script, the most preferred of them |
| EditAlign.DistanceIsLowerBound | pstrain/benchmarks/boundaries.py:144-153 | no edit script of two prefixes makes fewer edits than their cell says |
| EditAlign.WalkbackRealises | pstrain/benchmarks/boundaries.py:155-174 | the operations walked back form a script that makes exactly that many edits |
| EditAlign.WalkbackIsPreferred | pstrain/benchmarks/boundaries.py:136-152 | among optimal scripts, the one walked back comes first under match or substitute, delete, insert |
| EditAlign.ReadAccounts | pstrain/benchmarks/boundaries.py:155-174 | pairs increase strictly on both sides and match equal labels; the counts add up to the edits and to both lengths |
| EditAlign.CorrectAccounts | pstrain/benchmarks/boundaries.py:155-174 | the same for the returned alignment, whose edits no script undercuts |
| EditAlign.CorrectIsUnique | pstrain/benchmarks/boundaries.py:136-136 | the tie rule leaves one alignment |
| BoundaryScore.Validate | pstrain/benchmarks/boundaries.py:123-130 | accepts exactly labelled, well-timed, ordered intervals, and otherwise names the first fault |
| BoundaryScore.ScorePhoneBoundaries | pstrain/benchmarks/boundaries.py:58-116 | refuses exactly invalid input, reference first, naming the index and kind of its first fault; otherwise counts, errors and rates are those of the correct alignment |
| BoundaryScore.ComparedIsInjective | pstrain/benchmarks/boundaries.py:78-86 | exactly the boundaries between two matches consecutive on both sides are compared, each to a hypothesis boundary of its own |
| BoundaryScore.ComparedIsFew | pstrain/benchmarks/boundaries.py:66-70 | comparable boundaries are no more than the boundaries of either side |
| BoundaryScore.ErrorMeans | pstrain/benchmarks/boundaries.py:84-86 | the error is the distance of the midpoints in milliseconds: none exactly for equal ones, and a delay of one side by d seconds adds 1000 d to the signed difference |
| BoundaryScore.HitsCount | pstrain/benchmarks/boundaries.py:93-96 | hits are the errors within the tolerance and the epsilon |
| BoundaryScore.Rates | pstrain/benchmarks/boundaries.py:90-101 | at each tolerance, recall, precision and F1 are the hits over the reference, the hypothesis and all boundaries |
| BoundaryScore.F1IsOneRatio | pstrain/benchmarks/boundaries.py:97-101 | the harmonic mean of precision and recall is twice the hits over all boundaries of both sides, zero cases included |
| BoundaryScore.RatesAreOrdered | pstrain/benchmarks/boundaries.py:93-101 | every rate lies in [0, 1] and grows with the tolerance |
| BoundaryScore.SelfScoreIsPerfect | pstrain/benchmarks/boundaries.py:64-71 | two or more phones against themselves: all boundaries comparable, no error, and rates 1 exactly at tolerances not below minus the epsilon |
| ProjectSwap.Disk.Install | pstrain/cli/train.py:237-302 | a normal return leaves the new tree and nothing beside it; however it ends, the project that can be had is the one before or the whole new one, in place or named by the journal; it stops only at a failed operation; an exception brings the old project back and clears the journal, unless that fails too, and an interrupt does not; the staging directory goes |
| ProjectSwap.Disk.Attempt | pstrain/cli/train.py:260-292 | the try block: what its local flags say when it stops, which failed operation stopped it, and where the old project is then |
| ProjectSwap.Disk.Guarded | pstrain/cli/train.py:260-299 | the try block with its except block, which runs after an exception and nothing else |
| ProjectSwap.Disk.Tidy | pstrain/cli/train.py:300-302 | the finally block removes a staging that was not installed, and what it raises replaces what was raised before |
| ProjectSwap.Disk.SetAside | pstrain/cli/train.py:278-284 | the old project is in place until the journal names its backup, and then it is that backup |
| ProjectSwap.Disk.RollBack | pstrain/cli/train.py:293-299 | the except block restores the old tree and forgets the journal unless an operation of its own fails, and then loses neither |
| ProjectSwap.Disk.Recover | pstrain/cli/train.py:119-167 | wherever it stops, which is only at a failed operation, the project that can be had is the same, or the authenticated staging if none was in place; finished, it leaves the tree in place, else that staging, else the backup, and no journal, staging or backup; the backup is missing exactly if neither it nor the project is there, which cannot follow a replacement |
| ProjectSwap.Execute | pstrain/cli/train.py:345-639 | one command, stopped anywhere: a project that was there is not lost, and a new one is what this command built or wrote, or an authenticated staging; a normal end created exactly when there was no project, trained what it built or, resuming, what was there, and has in place what that wrote, without a journal; it ends otherwise only if it is refused, an operation fails or a name is taken |
| ProjectSwap.Run | pstrain/cli/train.py:345-639 | over any commands, creating, replacing, resuming, refused or stopped anywhere, on a disk with or without a project, each state follows in that way from the one before and from what earlier commands built |
| ProjectSwap.ChainDescends | pstrain/cli/train.py:119-167 | in such a chain a project once there stays, and is the first one, what some command built or wrote, or an authenticated part of what one built |
| ProjectSwap.RunThenRecover | pstrain/cli/train.py:119-167 | after any such history one finished recovery forgets the journal and has in place the current project, or so much of the last replacement as authenticates; what it has in place descends from the first project or a command |
| ModelPublication.ModelDir.Open | pstrain/lib/model.py:47-56 | refuses exactly overlapping names, and names taken by directories, changing no file; otherwise only making the staging directory can fail |
| ModelPublication.ModelDir.Publish | pstrain/lib/model.py:69-72 | without an error every staged file is installed, every removed name absent and no name repeated; otherwise an operation failed or a name is repeated, and only affected names changed |
| ModelPublication.ModelDir.Rollback | pstrain/lib/model.py:76-86 | finished, every file is as before, and no existing file was named twice; it fails only if an operation fails or one was, and then every original is at its destination or in the backup |
| ModelPublication.ModelDir.Close | pstrain/lib/model.py:57-90 | all or nothing: returns only when published; a raise leaves the files as before, except when the rollback failed or only the staging directory remained; a rollback fails only after a second failed operation or for repeated names, and always for an existing file named twice; any raise has a failed operation, the block, a missing staged file or a repeated name behind it |
| ModelPublication.Restore.RestoreCheckpoint | pstrain/lib/checkpoints.py:107-169 | restored, the snapshot is the selected one, which the checkpoint still has; once invalidation is over its files stay absent; parameters are wholly old or wholly selected unless the rollback failed, which takes two failed operations; whatever changed was archived; with none failed and nothing in the way it restores |
| ModelPublication.Restore.Stage | pstrain/lib/checkpoints.py:161-168 | the block ends without an error only when every staged file and the checkpoint have the selected digests, and otherwise an operation failed or one of them has not |
| ModelPublication.PublishedSnapshot | pstrain/lib/checkpoints.py:24-29 | publishing what was staged, over an agreeing mdef, makes the snapshots equal, absent counts included |
| ModelPublication.UpdatedIsCovered | pstrain/lib/checkpoints.py:147-155 | everything a restore may change or delete is in the archive |
| ModelPublication.InvalidatedMeans | pstrain/lib/checkpoints.py:135-136 | invalidated are provenance.json, sendump and every .mdef.*.complete |
| ContainmentScanner.Scanner.VisitStatements | scripts/check_containment_routing.py:154-180 | the labels are those of one truth value per context, and the counter ends above its start by exactly its drift |
| ContainmentScanner.Scanner.VisitFunctionDef | scripts/check_containment_routing.py:140-150 | the body is labelled as if nothing surrounded it, and the counter is restored, so drift never escapes |
| ContainmentScanner.Scanner.VisitExpr | scripts/check_containment_routing.py:282-304 | every native call is recorded once, in order, with the disposition of its context, whose meaning the results below give |
| ContainmentScanner.WorkerTestIsFalse | scripts/check_containment_routing.py:93-99 | outside a worker a recognised test runs nothing and yields the opposite of what it says about a worker |
| ContainmentScanner.GuardStops | scripts/check_containment_routing.py:169-180 | outside a worker no execution gets past a guard |
| ContainmentScanner.ListRecorded | scripts/check_containment_routing.py:154-180 | every call that runs outside a worker is recorded with its caller-process disposition |
| ContainmentScanner.WorkerOnlyIsNeverRun | scripts/check_containment_routing.py:292-297 | no execution of a module, or of any function in it, outside a worker reaches a call labelled worker only |
| ContainmentScanner.PastAGuard | scripts/check_containment_routing.py:155-180 | and past a guard every call that is not in a function of its own gets that label |
| ContainmentScanner.InAWorkerBranch | scripts/check_containment_routing.py:161-167 | and so does every such call in the branch of a worker test that a worker takes |
| ContainmentScanner.ViolationsAreReported | scripts/check_containment_routing.py:288-299 | in an ordinary module, what some execution outside a worker runs at the top or in an undecorated function is recorded as a violation; contained is recorded only inside decorated functions, and for everything there |
| ContainmentScanner.NoViolationNoCall | scripts/check_containment_routing.py:296-299 | an ordinary module without a violation makes native calls outside a worker only in decorated functions |
| ContainmentScanner.ModuleDecides | scripts/check_containment_routing.py:288-291 | in infrastructure and excepted modules every call is recorded as such |
| ContainmentScanner.ScanHasAllCalls | scripts/check_containment_routing.py:282-304 | the record has the native calls of the text, once each and in order |
| ContainmentScanner.ScanModule | scripts/check_containment_routing.py:307-314 | a scanner leaves the record that the results here are about |
| ContainmentScanner.GuardForms | scripts/check_containment_routing.py:89-122 | which branches are guards: leaving by return or raise unless in a worker, or through the proxy |
| ContainmentScanner.AForwardIsNeeded | scripts/check_containment_routing.py:115-122 | after a proxy test that does not forward, a call is a violation |
| IdentitySettling.SettledLiveFingerprint | scripts/procctl.py:176-261 | the readings are the looks at the process, one by one and each begun when due; an identity returned was confirmed before the deadline, in at most three runs, and at the first opportunity; a refusal means nothing was confirmed, why, and that its counts are the runs, the failures straight after a success and the failures at the end; another error is passed on exactly if the last look ended in one; readers start and all but the last reading end before the deadline; the loop ends within two lags of its last look and three of the deadline |
| IdentitySettling.Observe | scripts/procctl.py:236-248 | a timely reading confirms, begins a window, or is one change too many |
| IdentitySettling.Miss | scripts/procctl.py:215-229 | a failed reading interrupts the window without counting as a change, and ends the loop only at the deadline or after a second failure in a row too long after the last success |
| IdentitySettling.World.ReaderTimeout | scripts/procctl.py:56-68 | refuses once the deadline has passed, and otherwise grants no more than the hang cap and the time left |
| IdentitySettling.World.LiveFingerprint | scripts/procctl.py:164-173 | every look is recorded with its times and its outcome, and fails exactly if a reader is refused or fails or finds nothing readable |
| IdentitySettling.RunsAgainstIdentities | scripts/procctl.py:242-246 | there are at least as many runs as identities, and as many exactly when no identity returns after another one |
| IdentitySettling.CountedTwice | scripts/procctl.py:255-261 | two identities that are counted as three |
| IdentitySettling.Confirms | scripts/procctl.py:238-242 | a success one settle duration into a window confirms two readings with nothing else between them |
| IdentitySettling.AppendSuccess | scripts/procctl.py:238-248 | a window begun has no confirmation in it yet |
| TreeCompare.CanonicalTree | scripts/tree_compare.py:77-106 | accepts exactly the tables that are one full binary tree rooted at 0 covering every node, with leaves one more than internal nodes; otherwise the table has the fault that is named |
| TreeCompare.Walker.Walk | scripts/tree_compare.py:84-99 | terminates on every table; fails exactly when no tree of unseen nodes hangs at the node; a missing child is led to, a cycle leads from the node back to itself, a reused node is at the end of two routes that part |
| TreeCompare.EqualIffRenumbered | scripts/tree_compare.py:1-6 | accepted tables have equal canonical forms exactly when a one-to-one renumbering that keeps the root maps one onto the other |
| TreeCompare.PlanIsUnique | scripts/tree_compare.py:84-99 | a table has at most one tree at a node |
| TreeCompare.OneLeafMore | scripts/tree_compare.py:105-106 | a full binary tree has one leaf more than internal nodes |
| TreeCompare.DifferenceIsFirst | scripts/tree_compare.py:109-118 | none exactly for equal trees; otherwise a real difference whose ancestors agree and left of which everything is equal |
| TreeCompare.DifferenceInTables | scripts/tree_compare.py:109-118 | the reported route, followed in both tables from the root, leads to nodes that differ as reported |
| PartitionCompare.DisagreeingSize | scripts/tree_compare.py:248-252 | the pairs sharing a senone on exactly one side number left plus right minus twice joint pairs |
| PartitionCompare.CountingPairs | scripts/tree_compare.py:245-252 | the sum of pairs over label counts is the number of pairs with equal labels |
| PartitionCompare.PairCount | scripts/tree_compare.py:245-251 | the counter and its sum compute that number, and the number of parts |
| PartitionCompare.CompareSubject | scripts/tree_compare.py:237-273 | equal exactly when both sides make the same parts; the count is that of the disagreeing pairs; left and right parts are the numbers of parts of the common contexts; there are samples exactly when the count is positive, no pair twice, and as many as there are neighbours or ten |
| PartitionCompare.LabelsAreParts | scripts/tree_compare.py:245-265 | the number of distinct labels is the number of parts |
| PartitionCompare.SamePartitionIffSameParts | scripts/tree_compare.py:229-230 | agreeing about every pair is the same as having the same parts |
| PartitionCompare.RelabelingIsInvisible | scripts/tree_compare.py:8-9 | senone numbers matter on neither side: labelings with the same parts have the same contexts, disagreements, numbers of parts and genuine samples |
| PartitionCompare.DisagreementSamples | scripts/tree_compare.py:193-226 | samples are genuine, of distinct pairs, and exist whenever some pair disagrees; they number twice the pairs of labels that occur, less the labels on either side, or the limit if that is smaller |
| PartitionCompare.GroupsCount | scripts/tree_compare.py:200-214 | the neighbours in the groups of one side are the pairs of labels less the labels of that side |
| PartitionCompare.NotSeenYet | scripts/tree_compare.py:214-217 | the next neighbours were never sampled before |
| ProvenanceDiff.NormalisingTwice | pstrain/lib/compare.py:693-704 | normalising is idempotent |
| ProvenanceDiff.WithoutPathsMeans | pstrain/lib/compare.py:693-704 | nothing is left at or below a key "path" at any depth, lists included, and everything else is where it was |
| ProvenanceDiff.Differences | pstrain/lib/compare.py:716-739 | the visitor lists the rows of the two normalised documents in key order |
| ProvenanceDiff.DifferencesArePatch | pstrain/lib/compare.py:716-739 | rows are empty exactly for equal documents, prefix-free, and patch the first into one equal to the second, the second itself exactly when no boolean, integer, float or -0.0 stands for another |
| ProvenanceDiff.RowsAreTrue | pstrain/lib/compare.py:725-733 | a row holds what its path holds in each document, and one side is missing or Python finds them different |
| ProvenanceDiff.RowsAreSorted | pstrain/lib/compare.py:721-733 | rows come in the order of their paths, key by key |
| Json.EqualMeans | pstrain/lib/compare.py:725-725 | what Python takes for equal: the same number however it is held, the same string or null, and lists and objects of such |
| ProvenanceDiff.PatchYields | pstrain/lib/compare.py:721-733 | what applying the rows one after the other makes of the first document |
| ProvenanceDiff.TruePassesForOne | pstrain/lib/compare.py:725-725 | true and 1, 1 and 1.0, 0.0 and -0.0 differ and no row says so |
| ConditionPins.Authenticate | pstrain/benchmarks/arctic.py:1606-1640 | passes exactly authentic conditions, and then reports exactly what is not covered, a field once and an entry as often as the live list has it |
| ConditionPins.AuthenticMeans | pstrain/benchmarks/arctic.py:1610-1638 | conditions are authentic exactly if at the path of every pin there is an object for an object, an equal value, or a frozen list with its entries |
| ConditionPins.UncoveredMeans | pstrain/benchmarks/arctic.py:1618-1635 | not covered are exactly the live fields that a pinned object at their path lacks, and the live entries that a pinned frozen list lacks |
| ConditionPins.ReportedIsUncovered | pstrain/benchmarks/arctic.py:1618-1635 | what is reported at least once is exactly what is not covered, and a field is reported once |
| ConditionPins.AdoptUncovered | pstrain/benchmarks/arctic.py:1643-1666 | which input is a mismatch, which raises after authentication passed, and otherwise exactly when the result is the live conditions, authenticates with nothing uncovered, and keeps the pins |
| ConditionPins.AdoptedEqualsLive | pstrain/benchmarks/arctic.py:1648-1662 | below the pinned top-level keys, raises exactly if a live value at a frozen path is no list, object or string, and returns the live conditions, or an equal document, exactly if none is a string either |
| ConditionPins.AdoptLive | pstrain/benchmarks/arctic.py:1648-1662 | the same for a live value passed down against itself |
| ConditionPins.PinsAreKept | pstrain/benchmarks/arctic.py:1643-1662 | a pin outside the frozen lists becomes an equal value, and stays the same exactly if the live value is the same |
| ConditionPins.PinsAreKeptIff | pstrain/benchmarks/arctic.py:1643-1662 | all of those pins are kept exactly when nowhere outside the frozen lists the live value is equal and yet different |
| ConditionPins.FrozenListsGrow | pstrain/benchmarks/arctic.py:1657-1661 | a frozen list becomes the live one, which has every pinned entry |
| ConditionPins.AdoptedIsCovered | pstrain/benchmarks/arctic.py:1606-1666 | the adopted conditions authenticate exactly when below pinned top-level keys every live value at a frozen path is a list or an object, and elsewhere a list, an object or a string; then nothing is left uncovered |
| ConditionPins.AStringIsTakenApart | pstrain/benchmarks/arctic.py:1657-1661 | a live string in place of a list, pinned or unpinned, that authenticates, is changed by adoption, and then does not authenticate |
| ConditionPins.ANumberRaises | pstrain/benchmarks/arctic.py:1657-1661 | a live number there that authenticates, and adoption raises |
| ConditionPins.APinIsRewritten | pstrain/benchmarks/arctic.py:1644-1662 | a pinned 1 that adoption replaces by the live 1.0 |
| MachO.NormalizeMacho | pstrain/benchmarks/arctic.py:525-568 | in bounds and length-preserving on every input; the error, or the bytes, of a run that reads what it has masked; on every image put together from a header, commands and a body it zeroes the sixteen bytes of each UUID and the range of each signature and nothing else, in either byte order and width; the first malformed command is the error |
| MachO.ImageIsMasked | pstrain/benchmarks/arctic.py:541-564 | what the run makes of an image with given commands |
| MachO.BrokenFails | pstrain/benchmarks/arctic.py:543-561 | which error a malformed command after well-formed ones gives |
| MachO.ImagesExist | pstrain/benchmarks/arctic.py:528-541 | every choice of header, commands and body, with signatures in the body, is such an image |
| MachO.RunMasksRegions | pstrain/benchmarks/arctic.py:541-564 | with signatures past the load commands the run masks exactly the regions of the original image |
| MachO.NormalizedAlike | pstrain/benchmarks/arctic.py:549-563 | images differing only in those regions normalise to the same bytes |
| MachO.AlikeOnlyThere | pstrain/benchmarks/arctic.py:549-563 | and with the same regions only those do |
| MachO.NormalizedOnce | pstrain/benchmarks/arctic.py:549-563 | every other byte and the length are kept, and masking twice is masking once |
| LexiconCheck.BaseWordMeaning | pstrain/lib/lexicon_check.py:172-178 | a numeric suffix, and nothing else, is stripped |
| LexiconCheck.MissingMeans | pstrain/lib/lexicon_check.py:394-399 | the missing phones of a line are those the inventory lacks, sorted and once each |
| LexiconCheck.CheckModelLexicon | pstrain/lib/lexicon_check.py:339-427 | resolved and unresolvable words are those of the declarative statement about file order, and disjoint; entries are the dropped lines in order |
| LexiconCheck.StepResolved | pstrain/lib/lexicon_check.py:404-415 | one more line makes a word resolved exactly under the loop's condition on its sets |
| LexiconCheck.DocumentedIsResolvedIff | pstrain/lib/lexicon_check.py:404-415 | a word is reported exactly when it is documented and no spelling of it survives before every alternative that the documentation means |
| LexiconCheck.HiddenAlternative | pstrain/lib/lexicon_check.py:351-354 | a main and a filler dictionary with a documented word that is not reported |
| FeatParams.LowestBitOnly | pstrain/lib/model.py:265-266 | the bit test accepts exactly the powers of two |
| FeatParams.AcceptedFrames | pstrain/lib/model.py:271-284 | an accepted record has 2 <= shift <= size <= transform length, a power of two, each rounded to the nearest sample |
| FeatParams.AcceptedIff | pstrain/lib/model.py:183-284 | accepted are exactly the records with every number in range, equal lengths, a band below the Nyquist limit, a power-of-two transform, at least one and a half samples a frame, and a window that has the frame shift and that the transform covers |
| FeatParams.RefusedForTheFirst | pstrain/lib/model.py:183-284 | a refusal names the first thing wrong with the record, in the order of the checks |

## Left out

- Native training code, CFFI, feature extraction, subprocesses, signals, argument parsing and report rendering: not part of this model.
- Real file systems: fsync, permissions and the text of journals and manifests; `_staging_is_complete` is an arbitrary predicate, and digests are the contents themselves.
- ProjectSwap.Disk.Recover: the symlink, version and name checks on the journal are one predicate; a journal that fails it stops recovery with nothing changed.
- ProjectSwap.Execute: the other reasons for refusing a command, and dry runs, are one flag; what reports and training write is arbitrary, and other programs do not touch the parent directory.
- ProjectSwap.Disk.Install: the refusal of symlinks inside the old project before staging begins is not modelled.
- ModelPublication.Restore.RestoreCheckpoint: selecting exactly one numbered directory inside `iterations`, and writing `restore.json`, are not modelled; reading a missing model `mdef` counts as a refusal, and files to invalidate are visited in any order.
- ContainmentScanner.Scanner.VisitExpr: recognising native names through aliases, `getattr`, dictionaries and shadowing is replaced by marking the calls; decorators and default arguments, which the scanner never visits, have no place in the statements.
- ContainmentScanner.WorkerOnlyIsNeverRun: rests on `in_worker()` being constant in a process and on every object outside a worker having its proxy, as the scanner does.
- IdentitySettling.SettledLiveFingerprint: how late the system is in reaping a reader, waking up or telling the time is one constant, `lag`, of any size.
- BoundaryScore.ScorePhoneBoundaries: rounding of floating point, and the mean and median of the errors, which the statistics library computes.
- PartitionCompare.DisagreementSamples: the order in which groups are visited is arbitrary, where Python has insertion order; contexts are numbers in sort order.
- PartitionCompare.CompareSubject: parsing mdef rows and grouping them by subject.
- TreeCompare.CanonicalTree: parsing; the declared node count is the size of the table.
- ProvenanceDiff.DifferencesArePatch: rows carry their path as a list of keys, which the original joins with slashes.
- Json.Equal: the nonstandard Infinity and NaN are excluded.
- ConditionPins.Authenticate: a mismatch is one outcome, whatever its message; the record's own key order is arbitrary, so the order of what is reported is open.
- MachO.NormalizeMacho: universal images, whose signature offsets the original takes as absolute.
- FeatParams.AcceptedFrames: parsing of spellings, booleans, enumerations and feature layouts.
- `evaluation_health`, `list_checkpoints` and the remaining report fields are not part of this model.
