# A verified model of denetX

denetX is a fork of Vowpal Wabbit. This project models the parts of it where correctness depends on more than one
function at a time, and proves what they are for.

* **The learner protocol** (`Protocol*.dfy`, `Shards.dfy`). One parser thread and `T` learner threads share a ring of
  examples and a delay ring. The model is a state machine with one step per lock-protected section (and one per unlocked
  read that another thread can race with), and an event that says who moves next; waiting on `example_available` is a
  state of its own that a broadcast, or a spurious wake-up, ends. Over every run, of any length and interleaving: the
  threads take turns example by example, outputs and weights are those of the plain sequential predict-then-train learner
  while the examples are in slice order, the assertions in the source hold, reference counts are exact, ring slots are
  never shared, `delay_example` never waits, no wake-up is lost, the work in any run is bounded by the examples published,
  and from every state the system can be brought to a complete shutdown. What is published is what the parser was given
  (`ProtocolInput.dfy`), and only labelled examples, and only while training, change the weights (`TrainingGate.dfy`).
  `Features.dfy`, `Partition.dfy` and `Learner.dfy` hold what each thread computes and the sequential learner it is
  compared with; `SliceOrder.dfy` says exactly which examples the partition cuts right.
* **Timsort** (`StableSort.dfy`, `TimsortSteps.dfy`, `TimsortMerge.dfy`, `RunStack.dfy`, `Timsort.dfy`). In place, on
  arrays. `swap_elements` (src/timsort.h:70-75) assigns `y = x` where it should assign `y = temp`, so "reversing" a
  strictly descending run loses elements. The code is modelled as it is. The result is the stable sort of the input if
  and only if no run starts with a strict descent; otherwise it is not a permutation at all. The depth of the run stack
  is bounded although the collapse does not keep "A > B + C" below the top three.
* **The cache codec** (`CacheCodec.dfy`, `CacheFormat.dfy`, `CacheBuffer.dfy`, `CachedExample.dfy`), **the sorted flag**
  (`UniqueSort.dfy`) and **the namespaces of a line of text** (`ReadExample.dfy`, `Namespaces.dfy`).
* **The multi-source join** (`MultiSource.dfy`), **the refillable buffer** (`IoBuffer.dfy`), **the partition of
  features** (`Partition.dfy`) and **the host grid** (`Sender.dfy`).
* **Skip-grams** (`SkipGrams.dfy`, `GramHash.dfy`, `GramOrder.dfy`), **LDA run merging** (`LdaMerge.dfy`), **updates that
  follow the loss** (`LossLaw.dfy`) **and do not overshoot** (`UpdateGain.dfy`, `Overshoot.dfy`, `OvershootLearner.dfy`).

Floats are reals in sums and updates and opaque 32-bit words in the codec. Masks such as `index & (E - 1)` are written
as `index % E`. Reads, `select` and scheduling are nondeterministic.

## Where the code differs from what it promises

* Timsort: see above; `Timsort.LosingRun` is an input of 64 elements, `Timsort.TimSort` gives the exact condition.
* Several threads on unsorted features: `setup_example` cuts every namespace by binary search, but features are sorted
  only with `--sort_features` or from a sorted cache (src/parser.cc:626-627), and n-grams are appended after that. The
  threads then predict with other weights than one thread would. They agree for all weights and values if and only if
  every namespace lists its features slice by slice (`SliceOrder.AddsUpIff`); `SliceOrder.TwoSwapped` is two features on
  two threads that do not. With one thread any order will do (`ProtocolTheorems.OneThreadIsSequential`).
* Updates: one update moves the example's own prediction by the update times a gain, the sum over weights of the square
  of what the example's features put on the weight (`UpdateGain.ExampleShifts`). No rate and no weights make it pass the
  label if and only if the label is on the right side of the clamp and `total_sum_feat_sq` is at least the gain, or no
  update moves anything (`Overshoot.NeverOvershootsIff`, for the sequential learner's step
  `OvershootLearner.TrainingNeverOvershootsIff`). Every part can fail. In this fork `set_minmax` is never called, so the
  clamp is fixed and labels may lie outside it. Words repeat and hashes collide, and features on one weight raise the gain
  above the sum of squares: the line `1 | a a` goes past its label (`OvershootLearner.RepeatedWordOvershoots`). And
  `total_sum_feat_sq`, one plus the squares of what was read, leaves out what is pushed afterwards; with all values one it
  is enough if and only if no two features share a weight and at most one, the constant or an n-gram, was pushed
  (`OvershootLearner.UnitsCoveredIff`, `OvershootLearner.GramsCoveredIff`). Three words with `--ngram 2` are
  `OvershootLearner.BigramsOvershoot`. `receive_features` never adds to the sum, which stays at one.
* Hinge: `getUpdate` stops at the margin `label * label`, `getLoss` is zero from `label * prediction = 1` on. The update
  follows the loss for labels of one and minus one and for no others (`LossLaw.GapIsLossIff`).
* Cache: `c_memcpy` ends the program when asked to copy nothing (src/utils.cc:294-297), so writing an example without a
  tag to the cache does, and so does reading one. An example comes back if and only if it has a tag
  (`CachedExample.ExampleRoundTripIff`).
* Skip-grams: the comment at src/parser.cc:561 lists, for 1-skip-3-grams, grams with one skip after each word. The code
  limits the skips of a gram in all; `SkipGrams.SkipsAreCountedTogether` names one listed gram that is never emitted.
* `readto` at the end of the input returns 0, as it does for an empty line, and hands nothing out.

Three limits of single functions are proved exactly although this program never reaches them:

* The count of namespaces in a cached example is one byte and would lose 256 of them (`CacheCodec.FullSectionIsLost`).
  A line of text lists at most 253, because a newline and the delimiters never begin one (`ReadExample.CountFits`), and a
  cache that is read holds at most 255, so every example there is survives (`ReadExample.TextSurvivesCache`).
* `order_features` is not an order for indices 2^31 or more apart (`UniqueSort.CompareIff`, `UniqueSort.CompareCycles`).
  It runs before the indices are spread by the stride, on hashes masked to at most 30 bits.
* The join waits for ever when a source sends a ring size more messages than the shortest one
  (`MultiSource.Joiner.JoinAll` gives the exact condition). That takes two sources; the set-up of a connection
  (src/parser.cc:405-418) accepts one.

## Model

| member | source | states |
|---|---|---|
| ProtocolTheorems.TakesTurns | src/gd.cc:23-68 | in every reachable state, whatever the examples, the outputs are those of the threads' turns, in order, and each thread's weights those after the examples it has trained on, at most one behind |
| ProtocolTheorems.RefinesSequential | src/gd.cc:23-68 | and while the examples are in slice order they are the sequential learner's outputs and slices of its weights |
| ProtocolTheorems.OneThreadIsSequential | src/gd.cc:23-68 | with one thread the outputs are the sequential learner's on all examples |
| ProtocolInput.PublishesItsInput | src/parser.cc:746-784 | in any run the published examples, with the one the parser still holds, are the examples it was given, as given and in order; the end is announced exactly when the last end of a pass was met |
| ProtocolInput.PredictsItsInput | src/gd.cc:23-68 | the outputs are the predictions, in order, of what the parser was given, and in slice order the sequential learner's |
| ProtocolInput.CompleteRun | src/parser.cc:746-784 | once parser and threads have stopped, every example given has its output and the weights are those after all of them |
| ProtocolInput.EveryInputRuns | src/parser.cc:746-784 | every list of examples is the input of some complete run |
| TrainingGate.TestingKeepsTheModel | src/parse_args.cc:449-452 | with `--testonly`, in every reachable state all weights are the ones at the start and the delay ring was never used |
| TrainingGate.UnlabelledLearnsNothing | src/gd.cc:550-553 | an example without a label changes neither the sequential weights nor any thread's |
| TrainingGate.LabelledLearns | src/gd.cc:377-384 | a labelled one, while training, changes them by the update rule at its own clamped prediction and label |
| TrainingGate.TrainsOnLabels | src/gd.cc:550-553 | while training the delay ring has been given exactly the labelled examples all threads have predicted, and a thread about to predict has taken all earlier ones |
| Shards.OrderedAfter | src/gd.cc:377-384 | on examples in slice order the threads' weights are slices of the sequential weights |
| Shards.OrderedPredictions | src/gd.cc:539-547 | and together they predict what the sequential learner predicts |
| Shards.NextShard | src/gd.cc:377-384 | training at the rate of the prediction leads from the weights before an example to those after it |
| Shards.UntrainedBetween | src/gd.cc:550-553 | examples without a label leave all weights and the training count alone |
| Shards.AfterExtends | src/gd.cc:582-591 | the weights after e examples do not depend on later ones |
| SliceOrder.AddsUpIff | src/parser.cc:705-724 | the threads' predictions add up to the whole one for all weights and values if and only if every namespace comes slice by slice |
| SliceOrder.Misplaced | src/parser.cc:640-656 | out of slice order, weights and values for which the whole prediction is 1 and the threads find 0 |
| SliceOrder.OneThreadInOrder | src/parser.cc:705-724 | with one slice every order is in slice order |
| SliceOrder.TwoSwapped | src/parser.cc:640-656 | two features in the wrong order both go to the first of two threads |
| ProtocolTheorems.QuiescentWeights | src/gd.cc:539-562 | between examples in slice order the threads' slices side by side equal the weights of the one-thread learner |
| ProtocolTheorems.PredictsInTurn | src/gd.cc:539-562 | a thread about to predict example e has its slot and has trained on every earlier labelled one, and on nothing else |
| ProtocolTheorems.PredictsSequentially | src/gd.cc:539-562 | in slice order it works on its slice of the sequential weights before e |
| ProtocolTheorems.AssertionsHold | src/parser.cc:797-828 | the in_use and threads_to_finish assertions never fail and return_example never reads a null entry |
| ProtocolTheorems.CountsAreExact | src/gd.cc:86-97 | threads_to_finish and threads_to_use equal the numbers of threads that still owe the step |
| ProtocolTheorems.SlotsAreExclusive | src/parser.cc:581-596 | slot i % ring_size holds example i, untouched, from publication until it is freed; at most ring_size examples are live |
| ProtocolTheorems.PushNeverWaits | src/delay_ring.cc:161-178 | when an example is pushed the whole delay ring is empty, so the push never waits |
| ProtocolTheorems.FreesTheNext | src/parser.cc:797-807 | the slot a thread frees holds the next example in order and its prediction |
| ProtocolTheorems.FreedOnceInOrder | src/gd.cc:86-97 | a step outputs nothing, or the next example exactly when it clears that example's in_use |
| ProtocolTheorems.ExitIsComplete | src/delay_ring.cc:60-76 | a thread that passed thread_done has predicted every parsed example and trained on every labelled one, and no more come |
| ProtocolTheorems.AllExited | src/parser.cc:500-510 | once all threads have left, every published example was closed and freed |
| ProtocolTheorems.ShutdownIsComplete | src/parser.cc:766-784 | once parser and threads have stopped, all is output, all slots are free and the weights are the final ones, the sequential ones in slice order |
| ProtocolTheorems.ReachableInv | src/parser.cc:746-795 | every state of every run satisfies the invariant |
| ProtocolProgress.ReadyStep | src/gd.cc:32-66 | the step of any ready thread is enabled, keeps the invariant and brings the total rank down |
| ProtocolProgress.Progress | src/gd.cc:32-66 | while an example is unfinished some thread can take such a step |
| ProtocolProgress.WorkIsBounded | src/gd.cc:32-66 | every schedule of ready threads is at most as long as the total rank falls |
| ProtocolProgress.NothingLeft | src/gd.cc:32-66 | when no thread is ready everything published has been output |
| ProtocolProgress.AnyWorkFinishes | src/gd.cc:32-66 | so whatever the scheduler chooses, ready threads finish everything published within the total rank |
| ProtocolWork.PollRanks | src/gd.cc:59-65 | a step of a thread that is not ready, a poll, raises no rank |
| ProtocolWork.WorkIsPaidFor | src/gd.cc:32-66 | in every schedule, polls, wake-ups and parser steps included, the steps of ready threads are at most what the total rank falls by plus a fixed amount for every example published |
| ProtocolWork.WorkWithinRank | src/gd.cc:32-66 | so while nothing is published no schedule holds more work than the total rank |
| ProtocolWork.WorkPerExample | src/gd.cc:32-66 | and over a whole run the work is at most a fixed amount for every example published |
| ProtocolProgress.NoLostWakeUp | src/parser.cc:797-828 | a thread asleep on example_available with something to fetch, or with the end announced, has been woken |
| ProtocolProgress.Drain | src/gd.cc:32-66 | learner steps alone finish every published example, from any invariant state |
| ProtocolProgress.NoDeadlock | src/delay_ring.cc:161-178 | from every reachable state some such schedule finishes everything published |
| ProtocolShutdown.ParserStops | src/parser.cc:746-784 | when the input ends the parser stops, always finding a free slot |
| ProtocolShutdown.QuietStep | src/parser.cc:809-828 | once it has stopped and all is output, every step of a thread takes it nearer its exit |
| ProtocolShutdown.LeaveAll | src/delay_ring.cc:60-76 | so all threads can leave |
| ProtocolShutdown.CanFinish | src/parser.cc:746-784 | from every reachable state, if the input ends, a schedule stops the parser and all threads with everything output, all slots free and the final weights |
| ProtocolProgress.SomeoneIsReady | src/gd.cc:555-561 | with work left, some thread is neither blocked nor polling |
| ProtocolInv.InitInv | src/delay_ring.cc:26-47 | the initial state satisfies the invariant |
| ProtocolSteps.StepKeeps | src/gd.cc:23-68 | every step of any thread or of the parser keeps the invariant |
| ProtocolSteps.HeadKeeps | src/delay_ring.cc:129-133 | the unlocked test for a delayed example keeps the invariant |
| ProtocolSteps.Ret1Keeps | src/delay_ring.cc:78-82 | reading the delay ring finds an example, and keeps the invariant |
| ProtocolSteps.Ret2Keeps | src/delay_ring.cc:84-86 | so does advancing the thread's delay index |
| ProtocolSteps.Ret3Keeps | src/delay_ring.cc:88-89 | so does decrementing threads_to_use under the example's lock |
| ProtocolSteps.Ret4Keeps | src/delay_ring.cc:89-96 | so does clearing the entry after the last use |
| ProtocolSteps.TrainKeeps | src/gd.cc:377-384 | training a slice keeps the invariant |
| ProtocolSteps.TrainedShard | src/gd.cc:377-384 | inline_train with the stored rate turns slice t before the example into slice t after it |
| ProtocolSteps.FinKeepsMore | src/gd.cc:86-97 | finish_example by a thread that is not the last keeps the invariant |
| ProtocolSteps.FinKeepsLast | src/gd.cc:86-97 | and so does the last one, which then owns the example alone |
| ProtocolSteps.FreeKeeps | src/gd.cc:91-93 | output and free after training keep the invariant |
| ProtocolSteps.FetchKeeps | src/parser.cc:809-828 | get_example, which may fall asleep until a broadcast, keeps the invariant |
| ProtocolSteps.AsleepKeeps | src/parser.cc:822-827 | so does waking up, signalled or not |
| ProtocolSteps.ScanKeeps | src/parser.cc:500-510 | each unlocked read of the termination test keeps the invariant |
| ProtocolSteps.PredKeepsMore | src/gd.cc:539-562 | adding a partial prediction keeps the invariant |
| ProtocolSteps.PredKeepsLast | src/gd.cc:546-554 | the last partial prediction completes the prediction and keeps the invariant |
| ProtocolSteps.WholePrediction | src/gd.cc:544-547 | when the count reaches zero the accumulated partial predictions are the whole prediction |
| ProtocolSteps.WaitKeeps | src/gd.cc:555-561 | waking from finished_sum keeps the invariant |
| ProtocolSteps.PushKeeps | src/delay_ring.cc:161-178 | handing the example to the delay ring can go ahead and keeps the invariant |
| ProtocolSteps.DropKeeps | src/delay_ring.cc:155-159 | freeing an example without training keeps the invariant |
| ProtocolSteps.UnlockKeeps | src/gd.cc:561-561 | releasing the lock of an example already freed keeps the invariant |
| ProtocolSteps.GetKeeps | src/parser.cc:581-596 | taking an unused slot keeps the invariant |
| ProtocolSteps.ParseKeeps | src/parser.cc:660-672 | filling the slot with any example, or meeting the end of a pass, can always go ahead and keeps the invariant |
| ProtocolSteps.PublishKeeps | src/parser.cc:760-763 | publishing the example keeps the invariant |
| ProtocolSteps.EndPassKeeps | src/parser.cc:767-779 | the end of a pass keeps the invariant |
| ProtocolSteps.ReleaseParserKeeps | src/parser.cc:780-783 | giving the slot back keeps the invariant |
| Features.SdAddLoop | src/sparse_dense.cc:10-16 | the accumulating loop returns the sparse dot product of the range |
| Features.TrainLoop | src/gd.cc:379-384 | the update loop over one range performs the sparse update |
| Features.SdAddSlice | src/sparse_dense.cc:10-16 | on the features of a slice, the slice under its own mask gives what the whole vector gives |
| Features.TrainInside | src/gd.cc:377-384 | updating with the features of slice k changes slice k as the whole update does |
| Features.TrainOutside | src/gd.cc:377-384 | and leaves every range its features do not touch as it was |
| Partition.SearchFindsCrossing | src/parser.cc:640-656 | whatever the order, search stops where the features cross the value |
| Partition.SearchIsLowerBound | src/parser.cc:640-656 | where no feature below the value follows one that is not, search is the exact lower bound of its range |
| Partition.CutIsExact | src/parser.cc:705-724 | in slice order boundary k separates indices below k times the expert size from the others |
| Partition.PartIsExact | src/parser.cc:705-724 | part k holds exactly the features with index in slice k |
| Partition.LastCutIsEnd | src/parser.cc:721-721 | the last boundary is the end of the namespace, sorted or not |
| Partition.SetupSubsets | src/parser.cc:708-724 | the boundary loop pushes exactly these boundaries and its assertion holds, sorted or not |
| Partition.SortedIsOrdered | src/parser.cc:626-627 | sorted namespaces are in slice order for any number of slices |
| Partition.PartitionedPrediction | src/gd.cc:167-195 | in slice order the threads' partial predictions add up to the dot product with the whole weight vector |
| Partition.PartitionedTraining | src/gd.cc:377-384 | in slice order training one slice with its part equals the slice of training the whole vector |
| Partition.InlinePredictLoop | src/gd.cc:167-195 | the prediction loop over the thread's ranges returns the thread's partial prediction |
| Partition.InlineTrainLoop | src/gd.cc:377-384 | the training loop in place leaves the trained slice |
| Partition.ZeroTrainsNothing | src/gd.cc:347-347 | an update of zero changes nothing, as the test around the loop takes for granted |
| UpdateGain.ExampleShifts | src/gd.cc:377-384 | an update u moves the example's own prediction by u times the gain, whatever features share weights |
| UpdateGain.TrainAt | src/gd.cc:377-384 | training adds to every weight the update times the sum of what lies on it |
| UpdateGain.DotIsSdAdd | src/sparse_dense.cc:10-16 | the sparse dot product is the sum over weights of the weight times what lies on it |
| UpdateGain.GainSnoc | src/gd.cc:377-384 | a further feature adds its square and twice its product with what lies on its weight |
| UpdateGain.DistinctGain | src/gd.cc:377-384 | with every feature on a weight of its own the gain is the sum of squares |
| UpdateGain.UnitGain | src/gd.cc:377-384 | for features of value one it is their number when they are apart and at least two more when they are not |
| LossLaw.QuantileFollowsLoss | src/loss_functions.cc:200-222 | the quantile update, times the normalizer and the error, is the rate times the quantile loss, capped at the square of the error |
| LossLaw.QuantileRests | src/loss_functions.cc:210-213 | without an error there is no update |
| LossLaw.HingeFollowsLoss | src/loss_functions.cc:103-113 | the hinge update follows in the same way how far the prediction is short of the margin |
| LossLaw.HingeRests | src/loss_functions.cc:108-109 | at the margin and beyond there is no update |
| LossLaw.GapIsLossIff | src/loss_functions.cc:103-106 | that shortfall is the hinge loss for all predictions if and only if the label is one or minus one |
| LossLaw.FinalizeIsNearest | src/gd.cc:70-80 | finalize_prediction is the one point of the clamp nearest to the prediction |
| Overshoot.QuantileBetween | src/loss_functions.cc:210-222 | for a label within the clamp and a gain of at most the normalizer the quantile update ends between the old prediction and the label |
| Overshoot.HingeTowards | src/loss_functions.cc:108-113 | for a safe label and such a gain the hinge update moves towards the margin and not past it |
| Overshoot.NeverOvershootsIff | src/loss_functions.cc:108-113 | no rate and prediction overshoots if and only if the label is on the right side of the clamp and the gain is at most the normalizer, or no update moves anything |
| Overshoot.QuantileOvershoots | src/loss_functions.cc:210-222 | for every other label or normalizer a quantile update that overshoots |
| Overshoot.HingeOvershoots | src/loss_functions.cc:108-113 | for every other label or normalizer a hinge update that overshoots |
| OvershootLearner.StepIsAfter | src/gd.cc:476-511 | the learner's step on an example is the scalar rule applied to its own prediction |
| OvershootLearner.TrainingDoesNotOvershoot | src/gd.cc:476-511 | on an example that meets the condition no step of the learner passes the label |
| OvershootLearner.TrainingNeverOvershootsIff | src/gd.cc:476-511 | no rate and no weights make the step pass the label if and only if the example meets it, whatever its features |
| OvershootLearner.DistinctCovered | src/gd.cc:476-511 | with every feature on a weight of its own the condition is on the sum of squares |
| OvershootLearner.RepeatedWordOvershoots | src/parser.cc:626-627 | a word given twice: normalizer 3, squares 2, gain 4, and the step on a label inside the clamp goes past it |
| OvershootLearner.OneExtraFeature | src/parser.cc:683-688 | one plus the squares read covers the squares of features of value one pushed afterwards if and only if there is at most one |
| OvershootLearner.UnitsCoveredIff | src/parser.cc:683-688 | with all values one the normalizer covers the gain if and only if at most one was pushed and no two share a weight |
| OvershootLearner.GramsAreNotCounted | src/parser.cc:633-634 | so it covers the squares of words and generated grams if and only if at most one gram is generated |
| OvershootLearner.GramsCoveredIff | src/parser.cc:633-634 | and, for words of value one, the gain if and only if besides no two words or grams share a weight |
| OvershootLearner.BigramsOvershoot | src/parser.cc:524-526 | three words with bigrams: normalizer 4, gain at least 5, and the learner's step goes past a label inside the clamp |
| StableSort.MergesAreStable | src/timsort.h:299-358 | merging sorted neighbours in either direction is the stable sort of their concatenation |
| StableSort.MergeLeftSum | src/timsort.h:312-335 | the left merge keeps the sum of keys even on unsorted runs |
| StableSort.MergeRightSum | src/timsort.h:336-357 | so does the right merge |
| TimsortSteps.BinaryInsertionFind | src/timsort.h:84-135 | the search returns the upper bound of the key in a sorted range |
| TimsortSteps.ShiftInsert | src/timsort.h:152-158 | the shifting loop moves one element down to its place and nothing else |
| TimsortSteps.BinaryInsertionSortStart | src/timsort.h:137-160 | with the first entries sorted, the range becomes its stable sort; keys are kept in any case |
| TimsortSteps.BinaryInsertionSort | src/timsort.h:162-167 | a short array becomes its stable sort |
| TimsortSteps.SwapElements | src/timsort.h:68-75 | the first element is overwritten and the second stays |
| TimsortSteps.ReverseElements | src/timsort.h:169-180 | the upper half is mirrored onto the lower half |
| TimsortSteps.MirrorLoses | src/timsort.h:169-180 | on a strictly descending run that lowers the sum of keys |
| TimsortSteps.RunIsLongest | src/timsort.h:182-220 | a run goes one way, as its first step does, as far as it can, but takes in the array's last entry only as one of two |
| TimsortSteps.CountRun | src/timsort.h:182-220 | the exact length of the run, which is left in place when ascending and mirrored when strictly descending |
| TimsortSteps.CountedRun | src/timsort.h:182-220 | so a counted run is sorted and untouched, or it was strictly descending and has lost keys |
| TimsortMerge.LeftMerge | src/timsort.h:312-335 | with the left run saved, the loop leaves the left merge in place |
| TimsortMerge.RightMerge | src/timsort.h:336-357 | with the right run saved, the loop leaves the right merge in place |
| TimsortMerge.MergeRuns | src/timsort.h:299-358 | two neighbouring runs become their merge, using scratch for the shorter one, and nothing else changes |
| RunStack.TailSum | src/timsort.h:360-419 | between pushes all runs above an entry together with it are at most six times its length |
| RunStack.PushSettles | src/timsort.h:360-419 | pushing any run and collapsing keeps the stack condition and makes the top three satisfy A > B + C and B > C |
| RunStack.StackSettles | src/timsort.h:444-456 | that holds whatever run lengths are pushed, from the third on |
| RunStack.CollapseConserves | src/timsort.h:360-419 | a collapse keeps the total length and never shortens a run |
| RunStack.FiveLevels | src/timsort.h:360-419 | five entries further down the stack the total above has tripled |
| RunStack.DepthBound | src/timsort.h:439-456 | n stacked runs of at least lo elements hold at least lo times 3^((n-1)/5) |
| RunStack.StackFits | src/timsort.h:439-439 | up to 2^44 elements in runs of 32 or more the 128 entries leave room for the next run |
| RunStack.WholeStackConditionFails | src/timsort.h:264-280 | runs after which A > B + C is false below the top three |
| Timsort.MinRunIs | src/timsort.h:222-231 | the minimum run is the size over 2^k, rounded up, for the least k that brings the size below 64 |
| Timsort.MinRunRange | src/timsort.h:222-231 | arrays of 64 or more elements are cut into runs of 32 to 64 |
| Timsort.MergeStep | src/timsort.h:392-416 | one merge of a collapse keeps the runs sorted, stable and tiling, or keeps a loss a loss |
| Timsort.Collapse | src/timsort.h:360-419 | the collapse does that, and its run lengths are those of the collapse on lengths |
| Timsort.CountNext | src/timsort.h:233-243 | counting and extending one run: its cells are stably sorted, or have lost keys |
| Timsort.PushNext | src/timsort.h:233-262 | a push extends the tiled prefix by one run, finding a free stack entry up to 2^44 elements |
| Timsort.FinishUp | src/timsort.h:245-253 | the final merges leave one run: the stable sort, or a smaller sum of keys |
| Timsort.MainLoop | src/timsort.h:448-456 | the main loop ends and leaves the outcome |
| Timsort.TimSort | src/timsort.h:421-457 | the result is the stable sort if and only if no run starts with a strict descent, and otherwise not a permutation |
| Timsort.SortedAscends | src/timsort.h:182-220 | sorted input satisfies the condition |
| Timsort.LosingRun | src/timsort.h:421-457 | an input that does not come back as a permutation |
| CacheFormat.SampleExample | src/cache.cc:190-207 | the bytes of one whole example: tag, count, namespace, length, and the three kinds of feature |
| CacheFormat.DigitsAre | src/cache.cc:128-137 | byte j of a number is its base-128 digit j, with the top bit set exactly when more follow, and no digit is wasted |
| CacheFormat.ZigZagOrders | src/cache.cc:139-142 | ZigZagEncode lists the differences by distance from zero: 0, -1, 1, -2, ... |
| CacheFormat.LittleEndianAre | src/cache.cc:186-187 | byte j of a length or value is its base-256 digit j |
| CacheCodec.RunLenRoundTrip | src/cache.cc:14-22 | the digits of a number are read back, in at most k bytes, leaving what follows |
| CacheCodec.RunLenPrefixFree | src/cache.cc:128-137 | no number's digits are the beginning of another's |
| CacheCodec.ZigZagInverse | src/cache.cc:139-142 | ZigZagDecode inverts ZigZagEncode, and the two top bits are zero exactly for 30-bit signed differences |
| CacheCodec.DeltaRoundTripIff | src/cache.cc:171-175 | an index survives the shifted difference if and only if the difference is in [-2^29, 2^29) |
| CacheCodec.TagSurvives | src/cache.cc:173-184 | the two tag bits survive whatever the difference |
| CacheCodec.DecodesAll | src/cache.cc:97-121 | whatever the indices, decoding stops at the recorded end with every value in place |
| CacheCodec.RoundTrip | src/cache.cc:97-121 | with all differences in range the masked list is read back and sorted is kept iff no difference is negative |
| CacheCodec.RoundTripIff | src/cache.cc:153-188 | a list is read back unchanged if and only if all its differences are in range |
| CacheCodec.SmallIndices | src/parse_args.cc:257-262 | indices below 2^29 are always in range |
| CacheCodec.CacheRoundTrip | src/cache.cc:72-123 | below that limit every list is read back under any mask, and sorted says whether it is nondecreasing |
| CacheCodec.WriteBound | src/cache.cc:153-188 | the bytes written stay within the six per feature and four per value reserved, with a byte per feature to spare |
| CacheCodec.BlockRoundTrip | src/cache.cc:72-123 | a namespace block followed by any bytes is read back and exactly its bytes are consumed |
| CacheCodec.SectionRoundTrip | src/cache.cc:204-206 | up to 255 namespaces followed by any bytes are read back in order |
| CachedExample.TagRoundTrip | src/cache.cc:28-46 | a tag is read back with exactly its bytes consumed |
| CachedExample.EmptyTagExits | src/utils.cc:294-297 | an empty tag ends the program when it is written and when it is read |
| CachedExample.ExampleRoundTripIff | src/cache.cc:201-207 | tag and namespaces followed by any bytes are read back if and only if the tag is not empty |
| CachedExample.SortedSectionIsOrdered | src/cache.cc:112-119 | a section read back with sorted set is sorted, in slice order and within the weights as the learner sees it, for any number of threads |
| ReadExample.Tokenize | src/parse_primitives.cc:14-34 | the loop returns the longest stretches without the delimiter, none of them empty |
| ReadExample.ReadNamespaces | src/parse_example.cc:154-210 | the loop over the channels lists the namespaces the model lists |
| Namespaces.LineListsExactly | src/parse_example.cc:154-210 | a namespace is listed if and only if it held nothing and some stretch behind a bar begins with its byte and has a word, and none before fills it |
| Namespaces.ListsExactly | src/parse_example.cc:166-209 | the same by channels, in the order of the channels, and exactly what then holds features |
| Namespaces.TokensAreStretches | src/parse_primitives.cc:14-34 | the tokens are all the longest nonempty stretches without the delimiter, from left to right |
| Namespaces.ChannelsFollowBars | src/parse_example.cc:129-137 | the channels are the stretches without a bar that stand behind a bar |
| Namespaces.FindsName | src/parse_example.cc:170-194 | the namespace is a blank in front or else the first byte that is no colon |
| Namespaces.CountsWords | src/parse_example.cc:196-206 | a channel adds a feature exactly when something stands behind a blank |
| ReadExample.ListedOnce | src/parse_example.cc:166-209 | every namespace is listed once and none begins with a newline, colon or bar |
| ReadExample.CountFits | src/parse_example.cc:154-210 | no line lists more than 253 namespaces |
| ReadExample.TextSurvivesCache | src/cache.cc:201-207 | so the features of every example read from text come back from the cache |
| CacheCodec.FullSectionIsLost | src/cache.cc:204-204 | the one-byte count would be zero for 256 namespaces, which no example has |
| CacheBuffer.WriteRunLen | src/cache.cc:128-137 | the writing loop stores the digits and touches nothing else |
| CacheBuffer.WriteFeature | src/cache.cc:171-185 | one round stores the encoding of one feature |
| CacheBuffer.Storage | src/cache.cc:157-160 | the reserving loop computes the reserved size |
| CacheBuffer.OutputFeatures | src/cache.cc:153-188 | the block with its back-patched length is stored, within the reserved region |
| CacheBuffer.ReadRunLen | src/cache.cc:14-22 | the reading loop returns the number and the position after its digits |
| CacheBuffer.ReadFeature | src/cache.cc:99-121 | one round reads one feature |
| CacheBuffer.ReadFeatures | src/cache.cc:97-121 | the loop returns the decoded list and flag |
| UniqueSort.CompareIff | src/unique_sort.cc:3-6 | the subtraction compares correctly if and only if the difference fits in 32 signed bits |
| UniqueSort.CompareCycles | src/unique_sort.cc:3-6 | three indices each of which compares below the next around a circle |
| UniqueSort.UniqueFeatures | src/unique_sort.cc:13-22 | the in-place pass keeps the first of each group of equal neighbours |
| UniqueSort.KeepsFirst | src/unique_sort.cc:13-22 | the entries left are those at the positions where a group begins |
| UniqueSort.BeginsRise | src/unique_sort.cc:13-22 | these positions are exactly those whose left neighbour has another index, in order |
| UniqueSort.UniqueIsIncreasing | src/unique_sort.cc:13-22 | on an ordered list the result is strictly increasing |
| UniqueSort.UniqueIndices | src/unique_sort.cc:13-22 | the pass drops no index |
| UniqueSort.UniqueIsSubset | src/unique_sort.cc:13-22 | every entry left was there |
| UniqueSort.SortThenUnique | src/unique_sort.cc:36-53 | after any qsort result the list is strictly increasing with the index set of the input |
| UniqueSort.SortedFlagIsSound | src/cache.cc:112-119 | at the width written, sorted is kept exactly when every namespace is nondecreasing, as compacted ones are |
| MultiSource.OneFromEach | src/multisource.cc:111-127 | a whole example is one feature per source: its prediction for that example under its own id |
| MultiSource.ContributedStep | src/multisource.cc:111-127 | a message adds its feature to its own example and to no other |
| MultiSource.StoreKeeps | src/multisource.cc:117-135 | storing a message keeps every slot holding what has arrived for its example |
| MultiSource.ResetKeeps | src/multisource.cc:67-71 | emptying the finished slot makes room for the example a ring size later |
| MultiSource.SlotCount | src/multisource.cc:137-137 | a slot is full exactly when its example is the next one and complete |
| MultiSource.Joiner.Retire | src/multisource.cc:96-109 | a source that has ended trades places with the last open one |
| MultiSource.Joiner.Take | src/multisource.cc:111-148 | one message is stored and the example it completes is handed over |
| MultiSource.Joiner.VisitIdle | src/multisource.cc:150-151 | a socket that was not ready is watched again unless a ring ahead |
| MultiSource.Joiner.VisitMessage | src/multisource.cc:110-148 | a source that gets a ring ahead is taken off the watch |
| MultiSource.Joiner.SweepAll | src/multisource.cc:92-152 | after a sweep exactly the open sources less than a ring ahead are watched, and something was read |
| MultiSource.Joiner.ReceiveFeatures | src/multisource.cc:75-155 | the next example in order, or the end, or a wait that can only mean every open source is a ring ahead |
| MultiSource.Joiner.JoinAll | src/multisource.cc:75-155 | every example all sources sent is handed over once, in order, with one feature per source and the label; the run ends iff no source sends a ring more than the shortest |
| IoBuffer.ConcatJoins | src/io.cc:10-38 | the stream is the files one after the other |
| IoBuffer.Reader.Shift | src/io.cc:19-25 | moving the unread bytes to the front keeps the stream |
| IoBuffer.Reader.Double | src/v_array.h:104-114 | doubling keeps the loaded bytes and resets the position |
| IoBuffer.Reader.Fill | src/io.h:106-121 | a read of any size keeps the stream and the position |
| IoBuffer.Reader.BufRead | src/io.cc:10-38 | the stream splits into the next min(n, remaining) bytes, handed out, and the rest, whatever the read sizes |
| IoBuffer.Reader.ReadTo | src/io.cc:53-82 | the stream splits into the bytes handed out, which hold no terminator, the first terminator, and the rest; without one nothing is handed out |
| IoBuffer.ReadAll | src/io.cc:10-38 | any series of reads returns a prefix of the concatenated files of the requested total length |
| IoBuffer.Writer.Flush | src/io.h:129-137 | flushing moves the waiting bytes to the file |
| IoBuffer.Writer.BufWrite | src/io.cc:84-102 | room for n bytes behind everything written so far, after any flushing and doubling |
| IoBuffer.Writer.Append | src/cache.cc:144-151 | reserving, storing and setting the end appends exactly the stored bytes |
| IoBuffer.WriteAll | src/io.cc:84-102 | flushed and waiting bytes together are everything written, in order |
| SkipGrams.VisitsExactlyOnce | src/parser.cc:545-553 | the two recursive calls reach every extension of a mask exactly once, and nothing else |
| SkipGrams.MasksExactlyOnce | src/parser.cc:567-579 | the masks visited are the increasing ones from 0 with at most k positions skipped, once each |
| SkipGrams.SkipsAreCountedTogether | src/parser.cc:551-561 | the limit is on the total number of skips |
| SkipGrams.GramsExactlyOnce | src/parser.cc:517-544 | each such mask gives one gram per start position where it fits |
| SkipGrams.GeneratedExactlyOnce | src/parser.cc:567-579 | over all orders every gram of two to ngram words is emitted exactly once |
| GramOrder.GeneratedInOrder | src/parser.cc:567-579 | the grams are emitted by number of words, then by mask, then by start |
| GramOrder.VisitsInOrder | src/parser.cc:545-553 | the masks are visited in lexicographic order |
| GramOrder.GeneratedFeature | src/parser.cc:517-526 | feature j appended has value one and, as index, the masked polynomial in the indices of all words of gram j |
| SkipGrams.HashIsPolynomial | src/parser.cc:520-523 | the hash is the polynomial in the gram's indices at quadratic_constant + 1, modulo 2^64 |
| GramHash.LastWordMatters | src/parser.cc:520-523 | grams that differ only in the last word hash differently |
| GramHash.FirstWordMatters | src/parser.cc:520-523 | so do bigrams that differ only in the first |
| SkipGrams.Namespace.HashAt | src/parser.cc:520-523 | the hash loop computes the polynomial in the indices of the gram's words, modulo 2^64 |
| SkipGrams.Namespace.Emit | src/parser.cc:517-526 | one feature per start position is appended, from the original words only |
| SkipGrams.Namespace.AddGrams | src/parser.cc:512-554 | the features of all masks visited are appended in order and gram_mask is restored |
| SkipGrams.Namespace.GenerateGrams | src/parser.cc:567-579 | the namespace grows by exactly the features of the generated grams |
| LdaMerge.MergedMultiset | src/lda.cc:199-219 | a pair merge loses and invents nothing |
| LdaMerge.MergedSorted | src/lda.cc:199-219 | sorted runs merge into a sorted one |
| LdaMerge.MergedTies | src/lda.cc:208-217 | among entries with one index the source's go first, and both runs keep their order |
| LdaMerge.AllCount | src/lda.cc:242-260 | a feature is paired with a document as often as it stands in it |
| LdaMerge.MoveUp | src/lda.cc:205-205 | the destination is moved up to make room |
| LdaMerge.MergePair | src/lda.cc:199-219 | the merge in the destination's memory, enlarged first if too short, equals the merge on values, so no entry is overwritten unread |
| LdaMerge.MergeSet.Merge | src/lda.cc:221-231 | contents and order are kept, runs that halved below the top halve throughout, and exactly the runs less than twice as long as what stands on them are taken in |
| LdaMerge.MergeSet.MergeAll | src/lda.cc:233-240 | one run is left with everything in it |
| LdaMerge.MergeSet.MergeIn | src/lda.cc:242-260 | a document adds exactly its pairs |
| LdaMerge.MergeDocuments | src/lda.cc:233-260 | after all documents the one run left is sorted by weight index and holds every pair of document and feature |
| LdaMerge.FewRuns | src/lda.cc:221-231 | n halving runs need 2^(n-1) entries in the first |
| Sender.LogIntIsExact | src/sender.cc:22-33 | log_int is the exact base-two logarithm, rounded down |
| Sender.Grid.FindSplit | src/sender.cc:35-55 | two powers of two with d_1 >= d_2 and d_1*d_2 <= number < 2*d_1*d_2, balanced when pairs exist |
| Sender.Grid.SendFeatures | src/sender.cc:97-107 | each host is sent the runs of parts of its row or column |
| Sender.RangeIsExact | src/sender.cc:103-105 | on features in slice order such a run holds exactly the features of its parts |
| Sender.OneRow | src/sender.cc:105-105 | a feature of a first namespace goes to one row of hosts and nowhere else |
| Sender.PairsMeetOnce | src/sender.cc:97-107 | a feature of a first and one of a second namespace meet on exactly one host, which is in the grid |

## Left out

* Sockets, files, gzip, fork, mmap, signals, option parsing, XML and RRD output, audit output and statistics.
* The network modes of the delay ring (`backprop`, `corrective`, `delayed_global`) and daemon mode; the protocol is the
  local one.
* The "save" tag branch of `gd_thread` and `active_simulation`, which step outside the reference counts; per-pass eta
  decay, taken as 1; the adaptive branch of `inline_train`; quadratic pairs, which each thread hashes into its own slice.
* NaN: a real is never NaN, so `finalize_prediction` has no such branch here.
* The protocol's state is a value, not an object: a step returns the next state. Waits that re-check their condition in
  a loop under the lock that guards it (`example_unused`, `finished_sum`, `delay_empty`) are steps that cannot be taken
  until the condition holds; `get_example`, which does not, is modelled with its broadcasts. Shared memory is taken as
  sequentially consistent. Pass counters are abstracted to a nondeterministic end of pass. `hist`, `closed`, `phase` and
  `out` are history and no step reads them.
* Memory management in timsort: `run_stack` is a sequence (with the 128-entry bound proved up to 2^44 elements), and the
  scratch buffer is allocated afresh for each merge instead of being kept.
- Timsort.PushNext: nothing is claimed about the 128 entries for arrays of more than 2^44 elements, which at eight bytes
  each fill a 47-bit address space.
- ProtocolProgress.NoDeadlock: ready threads finish their work under every schedule and polling never adds to it, but
  that a scheduler lets them run at all is not modelled.
* Label bytes of a cached example, of which `bufread_simple_label` reads four more than were written, and truncated input
  beyond the error result.
- CacheCodec.RunLenRoundTrip: decoding is defined for at most five bytes, the most that is ever written; the shifts of
  longer strings are undefined in the source.
* `qsort` itself: the order of equal indices it leaves is arbitrary, its result a sorted permutation.
* Failing `read` and `write` calls, `isbinary`, and reading on after the end of the input without resetting `current`.
- IoBuffer.Writer.BufWrite: the capacity is never zero, as `init` guarantees; short writes are not modelled.
* `push` and `push_many` of v_array: growing sequences stand for them; their reallocation would only add easy members.
- MultiSource.Joiner.JoinAll: messages are numbered in order by every source, as the senders number them; the "count is
  off" report for others is not modelled. Connection set-up accepts one source in this fork, the join is modelled for
  any number.
- SkipGrams.Namespace.GenerateGrams: one namespace; audit names are not modelled.
- LdaMerge.MergeSet.MergeIn: the runs are values; only the pair merge is modelled in place. The first document
  needs at least one namespace, since `merge` on an empty set is out of bounds.
* LDA inference, conjugate gradient, `InvSqrt`, logistic and squared loss, MurmurHash, `src/multiclass` and
  `src/offset_tree.cc`.
