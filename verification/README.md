# Verified models of the training and checkpoint tools

This project models ten pieces of the repository that compute over unbounded data, and proves what each of them
promises. Everything torch, Ray, HTTP or the file system does is a parameter with a stated contract or a value.

- **Sequence packing** (`Packing`, `FirstFit`, `PackingBound`, `PackedSamples`). `greedy_knapsack` fills one bin at a
  time by binary search in a shrinking ascending list. It yields exactly the bins of First-Fit Decreasing, ties
  included, and never more than 3/2 times the bins of any packing; no smaller factor holds.
- **Rank grid** (`MixedRadix`, `DimOrder`, `RankGrid`, `CommGrid`, `GridStrides`). `einops.rearrange` is unflatten,
  permute, flatten over mixed-radix coordinates. A process group is represented by its rank enumeration, and the grid is
  a class whose dictionary of groups is keyed by the joined dimension names.
- **Asynchronous training** (`AsyncTrain`, `AsyncTrainRuns`, `AsyncTrainLog`). A cluster object whose generations finish
  at arbitrary times. Weights are the list of rollouts the actor was trained on; training extends the actor's, an update
  serves them. The loop's whole effect is one log of events, and the safety properties are lemmas about that log.
- **Int4 packing** (`BitPacking`, `Int4Layers`, `Int4Values`). Codes are shifted into wrapped 32-bit words and read back
  by the obvious lane reader, then composed with quantisation and group-wise scaling in exact arithmetic.
- **Four-player game rollout** (`Junqi`, `JunqiRuns`, `JunqiTurns`). One shared token buffer and two teams' masks,
  log-probs, rewards and sessions. The board and the server are oracles with a contract; the number of turns is
  arbitrary.
- **Checkpoint converter** (`KeyPairs`, `KeyGroups`, `KeyOrder`, `Shards`, `FileNames`, `WorkerFiles`, `IndexMerge`,
  `ConvertedOutput`). Keys are paired and dealt to workers, each worker cuts and saves shards, and the indices are
  merged by two rename passes over a directory, which is a map from names to contents. Workers finish in any order.
- **Trace viewer** (`TraceEvents`, `TraceItems`, `Chains`, `SpanDepths`, `SpanClipping`). Start and end events are
  matched, parents inferred from a stack, depths memoised behind a cycle guard, and open spans clipped. A walk that
  never ends is an outcome of its own.
- **GPU utilisation** (`GpuBusy`). Interval merging, busy time and gaps, for durations of either sign.
- **Loss per conversation turn** (`MaskRuns`, `TurnLoss`, `TurnSums`). Edges of the mask zipped into runs, the weighting
  of the turns with the square root as a parameter, and the broadcast product that a rank without turns computes
  instead.
- **Learning rate and weight decay** (`LrCurves`, `LrValues`, `LrScheduler`, `LrKeys`, `LrResume`). All seven decay
  styles over real numbers, with cosine, powers and roots as parameters that have the shape of the real ones; the
  scheduler object; and what its checkpoint restores.

`Sequences`, `Arithmetic`, `Sorting` and `Wrappers` hold shared definitions.

Timestamps are integers. The floats of a trace are finitely many multiples of one power of two, so with that power as
the unit nothing is lost.

## Where a promise fails, and exactly when

- A sample cut by `_truncate_for_packing` fits the packing length if and only if its images leave a non-negative text
  budget; a negative budget is a slice from the end (`PackedSamples.TruncationFitsIffBudget`, and
  `NegativeBudgetSurvives` for a sample that is kept and too long).
- The key groups partition the listed checkpoint keys if and only if every key that holds both `linear_q_down_proj` and
  `linear_kv_down_proj`, and whose pair is listed, comes before that pair and is the only listed key with it
  (`KeyGroups.PartitionIffClaimedOnce`; `MixedKeyExample` is a list that is not partitioned). Every listing order is
  partitioned if and only if no such key has its pair in the list (`KeyGroups.PartitionInEveryOrderIffNoMixedPair`).
- A worker whose first tensor alone exceeds the chunk size, or that has no tensors, saves an empty first shard. No index
  names that file, so it is never renamed and stays behind; nothing is left over if and only if no worker is in that
  situation (`ConvertedOutput.NothingLeftOverIff`).
- The stack of the trace viewer agrees with the open spans if and only if no open span id is started again
  (`TraceEvents.StackIsOpenIffNoReopen`; `ReopenedId` starts one id twice).
- The walk to the nearest closed ancestor stops if and only if no open ancestor is met twice; otherwise the loop of the
  source does not end and the row is never built (`SpanClipping.WalkEndsIffNoRepeat`, `BuildRow`; in `OwnParent` one
  start names itself as its parent).
- The GPU busy time counts the busy ticks if and only if every interval with a negative duration starts within an
  earlier one (`GpuBusy.CountsTicksIffSettled`, `BackwardInterval`). In that case the utilisation divides by zero if
  and only if every interval is empty and all lie at one tick (`GpuBusy.AnalyzeIntervals`).
- A rank without loss tokens fails without context parallelism, and with it if and only if it holds two or more
  samples, or none, of two or more tokens: the flattened losses and the mask do not broadcast
  (`TurnLoss.ScaledLoss`, `TwoSilentSamples`).
- The learning rate of a group never drops in warmup if and only if there is no warmup or its maximum is not below the
  initial rate, and never grows afterwards if and only if the style is constant or its maximum is not below its minimum;
  for the inverse square root the sign of the maximum matters as well (`LrCurves.WarmupRisesIff`, `DecayFallsIff`).
- `load_state_dict` steps before it takes over the weight decay settings. A group of a fresh scheduler is left the saved
  weight decay if and only if its multiplier is zero or the scheduler's own settings have come to the same value at the
  saved step (`LrResume.LoadedWeightDecayIff`). Without the cosine style that is an equation between the settings
  (`SameLinearWeightDecayIff`). `StaleWeightDecay` is a checkpoint for which it fails.
- After every further step a resumed run is the uninterrupted one if and only if the scheduler was fresh and the
  settings a checkpoint does not hold give the same rates from there on (`LrResume.ResumeIsUninterruptedIff`): for one
  WSD style, the initial rate if warmup is not over, and the WSD length while it matters (`LrResume.SameRatesIff`,
  `ResumeIffSameSettings`). `InitialRateMatters` has two schedulers that differ in the initial rate.
- With `start_rollout_id >= num_rollout` the first generation may still be in flight, or not, when the manager is
  disposed of (`AsyncTrain.DisposeMayInterrupt`).

## Model

| member | source | states |
|---|---|---|
| Packing.SearchIsLastFit | Megatron-LM/examples/multimodal/dataset_helpers.py:95-98 | binary search in the list of lengths returns the position of the last item that fits, or -1 |
| Packing.LastFitIsLast | Megatron-LM/examples/multimodal/dataset_helpers.py:95-98 | no item behind the returned position fits |
| Packing.SortBySizeIsStable | Megatron-LM/examples/multimodal/dataset_helpers.py:116-119 | sorting the pairs gives an ascending permutation that keeps the order of equal lengths |
| Packing.FillKnapsack | Megatron-LM/examples/multimodal/dataset_helpers.py:126-138 | popping two lists in lockstep yields the samples of one greedy bin and leaves the lists paired |
| Packing.FillKnapsacks | Megatron-LM/examples/multimodal/dataset_helpers.py:125-142 | the nested loops yield the bins of the specification, for sorted paired lists whose items fit |
| Packing.GreedyKnapsack | Megatron-LM/examples/multimodal/dataset_helpers.py:103-142 | error cases with the largest offending length, otherwise the bins of the sorted samples |
| FirstFit.FillOneIsScan | Megatron-LM/examples/multimodal/dataset_helpers.py:129-138 | repeated binary search over the shrinking list takes what one scan from the large end takes |
| FirstFit.PlaceAllIsScan | Megatron-LM/examples/multimodal/dataset_helpers.py:125-142 | First-Fit puts exactly one scan's items into its first bin and the rest into the others |
| FirstFit.GreedyIsFirstFitDecreasing | Megatron-LM/examples/multimodal/dataset_helpers.py:103-142 | bin-by-bin filling equals First-Fit on the descending order, ties included, for every input |
| PackingBound.FillAllPacks | Megatron-LM/examples/multimodal/dataset_helpers.py:125-142 | the bins hold every item once and none exceeds the capacity |
| PackingBound.FillAllMaximal | Megatron-LM/examples/multimodal/dataset_helpers.py:125-142 | no bin is empty, no item of a later bin fits in an earlier one, and bins start with their largest remaining item |
| PackingBound.ThreeHalves | Megatron-LM/examples/multimodal/dataset_helpers.py:104-108 | any maximal packing uses at most 3/2 times the bins of any other packing |
| PackingBound.GreedyKnapsackBound | Megatron-LM/examples/multimodal/dataset_helpers.py:103-142 | the result is a maximal packing of the given samples, any two bins together exceed the capacity, and the 3/2 bound holds |
| PackingBound.BoundIsTight | Megatron-LM/examples/multimodal/dataset_helpers.py:103-142 | an input needing two bins gets three |
| PackedSamples.ReplaceValueWithRepetition | Megatron-LM/examples/multimodal/dataset_helpers.py:552-579 | the loop yields the recursive expansion, whose elements the next row places |
| PackedSamples.ExpandPlaces | Megatron-LM/examples/multimodal/dataset_helpers.py:552-579 | the k-th occurrence of the token becomes exactly the k-th number of new tokens at its shifted place, and every other element is kept at its own |
| PackedSamples.ExpandedLengthIsTotalLength | Megatron-LM/examples/multimodal/dataset_helpers.py:195-200 | the predicted total length is the length after the image tokens are expanded |
| PackedSamples.TruncationFitsIffBudget | Megatron-LM/examples/multimodal/dataset_helpers.py:202-216 | a truncated sample fits if and only if the text budget is non-negative, and how long it is otherwise |
| PackedSamples.TruncationKeepsPrefixes | Megatron-LM/examples/multimodal/dataset_helpers.py:202-216 | a truncated sample holds the first tokens and the first labels, as many as the budget keeps; it is dropped if and only if all labels kept are ignored |
| PackedSamples.TilesAre | Megatron-LM/examples/multimodal/dataset_helpers.py:195-206 | the tiles of a sample are the sum over its images |
| PackedSamples.NegativeBudgetSurvives | Megatron-LM/examples/multimodal/dataset_helpers.py:202-216 | a sample whose images exceed the packing length is kept with some text and stays too long |
| PackedSamples.KnapsacksArePackable | Megatron-LM/examples/multimodal/dataset_helpers.py:869-879 | the selected knapsacks hold every sample once and each passes the length check of packing |
| PackedSamples.SelectSamplesToPack | Megatron-LM/examples/multimodal/dataset_helpers.py:869-879 | succeeds if and only if every sample is short enough, and then partitions the samples into packable knapsacks; otherwise reports the longest sample |
| PackedSamples.PackSelectedSamples | Megatron-LM/examples/multimodal/dataset_helpers.py:882-942 | fails exactly on an empty or too long selection; otherwise prefix sums, concatenated fields and the longest length |
| PackedSamples.PiecesInOrder | Megatron-LM/examples/multimodal/dataset_helpers.py:918-941 | tokens, labels, images and tile counts of the packed sample are those of its samples, one behind the other |
| MixedRadix.DigitOfRavel | Megatron-LM/megatron/core/hyper_comm_grid.py:220-223 | a coordinate read from a flattened index is the coordinate that was flattened |
| MixedRadix.RavelOfDigits | Megatron-LM/megatron/core/hyper_comm_grid.py:220-223 | flattening the coordinates of an index gives the index back |
| DimOrder.OrderDimsIsAxisOrder | Megatron-LM/megatron/core/hyper_comm_grid.py:225-238 | existing distinct names come out in the order of the reversed axes, whatever order the caller used |
| RankGrid.InGroup | Megatron-LM/megatron/core/hyper_comm_grid.py:180-223 | group i holds exactly the ranks whose remaining coordinates flatten to i |
| RankGrid.GroupsPartitionTheGrid | Megatron-LM/megatron/core/hyper_comm_grid.py:180-223 | the groups partition the ranks from the offset on, each of the product of the chosen sizes, without repeats |
| RankGrid.SameGroupIffAgreeElsewhere | Megatron-LM/megatron/core/hyper_comm_grid.py:180-223 | two ranks share a group if and only if they agree on every coordinate outside the chosen ones |
| RankGrid.ComplementaryGroupsMeetOnce | Megatron-LM/megatron/core/hyper_comm_grid.py:180-223 | a group and a group over the complementary dimensions have exactly one rank in common |
| RankGrid.OrderedGroupsIncrease | Megatron-LM/megatron/core/hyper_comm_grid.py:148-159 | with ordered dimensions each group lists its ranks increasingly |
| RankGrid.AxisNames | Megatron-LM/megatron/core/hyper_comm_grid.py:211-223 | which axis names a pattern accepts, by example |
| CommGrid.JoinInjective | Megatron-LM/megatron/core/hyper_comm_grid.py:237-238 | joining hyphen-free names with hyphens is injective |
| CommGrid.KeysDiffer | Megatron-LM/megatron/core/hyper_comm_grid.py:237-238 | different sets of axis names have different keys |
| CommGrid.SizeIsProduct | Megatron-LM/megatron/core/hyper_comm_grid.py:105-112 | the product of the shape is the number of ranks the pattern enumerates |
| GridStrides.SizeAt | Megatron-LM/megatron/core/hyper_comm_grid.py:219-223 | each dimension has the size the shape gives it |
| GridStrides.RankIsStrideSum | Megatron-LM/megatron/core/hyper_comm_grid.py:187-223 | a rank is the sum of its coordinates times the product of the sizes before them: the first named dimension varies fastest |
| GridStrides.GroupSize | Megatron-LM/megatron/core/hyper_comm_grid.py:180-223 | every group has as many ranks as the chosen entries of the shape multiply to |
| CommGrid.HyperCommGrid.Create | Megatron-LM/megatron/core/hyper_comm_grid.py:82-118 | a grid is made if and only if lengths match, the offset is non-negative and the grid fits the world |
| CommGrid.HyperCommGrid.CreatePg | Megatron-LM/megatron/core/hyper_comm_grid.py:120-163 | for good requests, fails if and only if the same set of dimensions was created before, and otherwise records exactly that set |
| CommGrid.HyperCommGrid.GetPg | Megatron-LM/megatron/core/hyper_comm_grid.py:165-178 | finds a created set of dimensions under any listing, and nothing else |
| CommGrid.HyperCommGrid.CreatedGroups | Megatron-LM/megatron/core/hyper_comm_grid.py:120-163 | the groups of any created set partition the grid's ranks into increasing lists |
| AsyncTrain.Cluster.StartGenerate | slime/train_async.py:36-44 | a new generation is in flight with the served weights; the others keep their data |
| AsyncTrain.Cluster.Await | slime/train_async.py:39-40 | waiting returns the generation's own data and takes it out of flight |
| AsyncTrain.Cluster.TrainActor | slime/train_async.py:46-52 | training the actor adds the rollout to its weights and leaves the served ones as they are |
| AsyncTrain.Cluster.UpdateWeights | slime/train_async.py:72-73 | the actor's weights, with all its trainings so far, are served and reach what is still in flight; the log says what that was |
| AsyncTrain.NextRollout | slime/train_async.py:38-44 | collects the data of the current rollout and starts the next one early |
| AsyncTrain.RunTraining | slime/train_async.py:46-66 | trains and saves the models the settings ask for, with the given data |
| AsyncTrain.SyncWeights | slime/train_async.py:68-73 | on an update iteration the generation in flight is awaited first |
| AsyncTrain.TrainIteration | slime/train_async.py:37-76 | one iteration adds exactly its events to the log and keeps the future and data variables in step |
| AsyncTrain.TrainLoop | slime/train_async.py:28-78 | whatever the timing of generations, the log is the one of the specification, with nothing in flight at dispose when there is a rollout |
| AsyncTrain.DisposeMayInterrupt | slime/train_async.py:28-78 | without a rollout to train on, there are runs with and without a generation in flight at dispose |
| AsyncTrainRuns.EachRolloutTrainedOnce | slime/train_async.py:37-52 | each model trains on every rollout from its first on once, in order, with that rollout's own data generated with one list of actor trainings |
| AsyncTrainRuns.Staleness | slime/train_async.py:37-73 | exactly how many iterations old the weights behind each rollout are, never more than the update interval |
| AsyncTrainRuns.MissingTrainings | slime/train_async.py:37-73 | the weights behind a rollout are a first part of the actor's trainings before it, and exactly how many they miss |
| AsyncTrainRuns.NothingInFlightAtUpdates | slime/train_async.py:68-78 | no generation is in flight at any weight update or at dispose |
| AsyncTrainRuns.UpdatesAreCurrent | slime/train_async.py:46-73 | every update in the log sends exactly the rollouts the actor was trained on earlier in the log, in order |
| AsyncTrainRuns.UpdatesFollowSchedule | slime/train_async.py:68-73 | updates are sent at the start and after every multiple of the interval, and at no other time |
| AsyncTrainRuns.LastRolloutIsSaved | slime/slime/utils/misc.py:87-94 | when saving is on, each trained model is saved after the last rollout, with no training of it behind the save |
| AsyncTrainLog.UsableIff | slime/slime/utils/misc.py:87-94 | the settings for which no modulus is taken by zero |
| AsyncTrainLog.SavesInLog | slime/train_async.py:54-64 | a model is saved after rollout k, once, if and only if it is a model that is saved, saving is on, and an interval or an epoch ends there or the rollout is the last |
| AsyncTrainLog.DatasetSavesInLog | slime/train_async.py:54-66 | the same for the data set |
| AsyncTrainLog.EvalsInLog | slime/train_async.py:75-76 | an evaluation follows rollout k, once, if and only if an interval or an epoch ends there |
| AsyncTrainLog.GeneratesInLog | slime/train_async.py:36-44 | every rollout of the run is generated, once, and no other |
| AsyncTrainLog.EventsInOrder | slime/train_async.py:36-76 | rollout k + 1 is started before anything is done with rollout k; then come critic, actor, saves and evaluation |
| AsyncTrainLog.EventsSeeTheSchedule | slime/train_async.py:36-76 | the updates before each event are exactly the scheduled ones: an evaluation follows the update of its own iteration, training and saving precede it |
| AsyncTrainLog.TrainedOnLastSent | slime/train_async.py:36-73 | whoever is trained on a rollout gets data generated with exactly one version of the weights, the last one sent before that generation was started |
| BitPacking.LaneOfWrapped | slime/tools/convert_hf_to_int4_direct.py:65-68 | wrapping to a signed word changes no lane inside the word, sign bit included |
| BitPacking.UnpackPackWord | slime/tools/convert_hf_to_int4_direct.py:63-68 | every lane of a packed word holds the code that went in |
| Int4Layers.UnpackPackRow | slime/tools/convert_hf_to_int4_direct.py:51-73 | packing a row of any width and dropping the padding is lossless if and only if every code fits its lane |
| Int4Layers.PaddingIsZero | slime/tools/convert_hf_to_int4_direct.py:51-73 | the lanes behind the codes of a row are zero, and fewer than a word has |
| Int4Layers.SymmetricRowRoundTrip | slime/tools/convert_hf_to_int4_direct.py:45-73 | with the symmetric offset, a row is read back if and only if its values fit the signed range |
| Int4Layers.QuantizeInvertsScaling | slime/tools/convert_hf_to_int4_direct.py:76-118 | quantising a code times a non-zero scale gives the code back, with or without a zero point |
| Int4Layers.ScaleGroupsAt | slime/tools/convert_k2_thinking_int4_to_bf16.py:69-83 | element k of group q is its code times scale q |
| Int4Layers.LayerRoundTrip | slime/tools/convert_k2_thinking_int4_to_bf16.py:55-84 | quantise, pack, unpack and rescale returns code times group scale everywhere; another group size is rejected |
| Int4Layers.ZeroPointLanes | slime/tools/convert_hf_to_int4_direct.py:132-139 | zero point k of eight sits in the lane the order map gives it |
| Int4Values.WordIsNumber | slime/tools/convert_hf_to_int4_direct.py:63-68 | a packed word is the number with the codes as digits, the first one lowest, as a signed 32-bit word |
| Int4Values.DigitsAreWeighted | slime/tools/convert_hf_to_int4_direct.py:63-68 | each further code weighs 16 or 256 times as much, for four and eight bits |
| Int4Values.LanesOfWords | slime/tools/convert_hf_to_int4_direct.py:63-68 | the lanes of a word from the lowest bits on, by example, for a negative word as well |
| Int4Values.PackFailsIff | slime/tools/convert_hf_to_int4_direct.py:39-43 | packing rejects more than eight and fewer than one bit, in this order, and nothing else |
| Int4Values.UnsignedBytes | slime/tools/convert_hf_to_int4_direct.py:45-48 | the offset values are bytes that differ from value plus offset by a multiple of 256 |
| Int4Values.SymmetricLanes | slime/tools/convert_hf_to_int4_direct.py:45-68 | the symmetric mode adds half the range of the lanes to every value |
| Int4Values.RowsPacked | slime/tools/convert_hf_to_int4_direct.py:45-68 | every row is packed on its own |
| Int4Values.QuantizeIsNearest | slime/tools/convert_hf_to_int4_direct.py:76-118 | quantising takes the nearest integer, the even one of two, and the nearer end of the range outside it |
| Int4Values.ReadFailsIff | slime/tools/convert_k2_thinking_int4_to_bf16.py:69-81 | reading fails if and only if the repeated scales are not as many as the elements |
| Int4Values.ReadUngrouped | slime/tools/convert_k2_thinking_int4_to_bf16.py:74-84 | without a group size every element is multiplied by its own scale |
| Int4Values.ZeroPointOrder | slime/tools/convert_hf_to_int4_direct.py:132-139 | zero points at even positions fill the lower half of the word, those at odd positions the upper half |
| Junqi.AppendMove | slime/patch/ppo_rollout.py:171-209 | a move appends its tokens to the buffer, one trainable position to the mover and as many entries to all four lists |
| Junqi.PlayTurn | slime/patch/ppo_rollout.py:153-209 | a turn of a living player leaves the lists of both teams as the specification of a real move says |
| Junqi.Generate | slime/patch/ppo_rollout.py:123-221 | the loop with its early exit ends in the state of the step-by-step specification |
| JunqiRuns.OnesInRange | slime/patch/ppo_rollout.py:171-209 | the trainable positions are exactly the ones of the loss mask, in order |
| JunqiRuns.RunKeepsInvariant | slime/patch/ppo_rollout.py:142-234 | after every turn the lists have the buffer's length, no position trains both teams, the k-th trainable token is allowed by the k-th logits mask, and each session got its prompt and a prefix of the buffer |
| JunqiTurns.TurnOfRun | slime/patch/ppo_rollout.py:142-219 | what every turn of every run does: a real move sends the mover's session its prompt and the whole buffer so far, trains the mover on the action alone and leaves the other session as it is; a dead player's turn sends nothing and adds one pass |
| JunqiTurns.RunStart | slime/patch/ppo_rollout.py:123-141 | a run starts with an empty buffer, nothing sent and nobody dead |
| JunqiTurns.PassingGame | slime/patch/ppo_rollout.py:142-219 | a game of allowed passes goes on for any number of turns, so the contract of the board and the server can be met |
| JunqiTurns.MoveTokensAre | slime/patch/ppo_rollout.py:171-209 | a move appends its action, its result unless it passes, the flags shown and the players lost, as their token numbers |
| JunqiTurns.LogitsMaskRises | slime/patch/ppo_rollout.py:155-155 | the logits mask is in ascending order |
| JunqiRuns.OnlyLegalActions | slime/patch/ppo_rollout.py:153-169 | a token is in the logits mask if and only if the board's mask allows its action |
| JunqiRuns.RewardsAreEntries | slime/patch/ppo_rollout.py:186-188 | each entry is the mover's reward followed by the negated opponent rewards up to its next move |
| JunqiRuns.RewardsCancel | slime/patch/ppo_rollout.py:186-188 | for any sequence of moves both teams' totals add up to what was earned before the opponent's first move |
| JunqiRuns.RolloutRewardsCancel | slime/patch/ppo_rollout.py:142-234 | the same for the reward lists of a rollout |
| JunqiRuns.GameOverIffTeamDead | slime/patch/ppo_rollout.py:212-219 | the two size tests on the dead set recognise exactly a dead team, unless all four are dead |
| JunqiRuns.CompleteIffTeamDead | slime/patch/ppo_rollout.py:211-219 | a rollout is complete if and only if a whole team is dead |
| JunqiRuns.BothTeamsKeepMoving | slime/patch/ppo_rollout.py:142-151 | while the game goes on every four consecutive turns hold a real move of each team |
| KeyPairs.PairIsMutualIffUnmixed | slime/tools/convert_torch_dist_to_hf_parallel.py:475-481 | the pair of a marked key is a different marked key, and is mapped back if and only if the key holds one marker only |
| KeyOrder.PairsByName | slime/tools/convert_torch_dist_to_hf_parallel.py:475-481 | the query projection is paired with the key and value projection of the same name, and the other way round; other names are not marked |
| KeyOrder.HasPairIff | slime/tools/convert_torch_dist_to_hf_parallel.py:475-484 | a key is grouped with its pair if and only if it is marked and the pair is listed |
| KeyGroups.GroupKeys | slime/tools/convert_torch_dist_to_hf_parallel.py:466-491 | the loop with its set of placed keys yields the groups of the specification |
| KeyGroups.GroupsPartitionTheKeys | slime/tools/convert_torch_dist_to_hf_parallel.py:466-491 | if each mixed key comes before its listed pair and alone claims it, every key is in exactly one group |
| KeyGroups.PartitionIffClaimedOnce | slime/tools/convert_torch_dist_to_hf_parallel.py:466-491 | for the list as given, every key is placed exactly once if and only if each mixed key comes before its listed pair and alone claims it |
| KeyGroups.MixedKeyExample | slime/tools/convert_torch_dist_to_hf_parallel.py:466-491 | a list of a mixed key behind its pair is not partitioned |
| KeyGroups.PartitionInEveryOrderIffNoMixedPair | slime/tools/convert_torch_dist_to_hf_parallel.py:466-491 | every listing order is partitioned if and only if no mixed key has its pair in the list |
| KeyGroups.PairSharesGroup | slime/tools/convert_torch_dist_to_hf_parallel.py:483-487 | two listed keys that are each other's pair form one group |
| KeyOrder.GroupsFollowList | slime/tools/convert_torch_dist_to_hf_parallel.py:471-491 | each group starts with the first of its keys, the pair behind it, and the groups follow the list |
| KeyGroups.ShareSize | slime/tools/convert_torch_dist_to_hf_parallel.py:493-499 | worker w gets the rounded-down share of the groups, plus one for the first remainder workers |
| KeyOrder.DealtAt | slime/tools/convert_torch_dist_to_hf_parallel.py:493-499 | dealing is round-robin: group g is number g / workers of chunk g modulo workers |
| KeyGroups.Distribute | slime/tools/convert_torch_dist_to_hf_parallel.py:493-499 | chunk w concatenates the groups at positions w modulo the worker count, and no key is lost or doubled |
| KeyGroups.ChunkKeys | slime/tools/convert_torch_dist_to_hf_parallel.py:466-503 | as many non-empty chunks as workers or groups, whichever is fewer; every key in one chunk exactly under the condition above, and then pairs in the same chunk |
| Shards.CutShards | slime/tools/convert_torch_dist_to_hf_parallel.py:303-313 | the shards concatenate to the tensors, none is overfull, none was closed early, and the total is the sum of sizes |
| Shards.ShardsAreUnique | slime/tools/convert_torch_dist_to_hf_parallel.py:303-313 | only one cut has these properties |
| Shards.EmptyShardIff | slime/tools/convert_torch_dist_to_hf_parallel.py:303-313 | only the first shard can be empty, and is if and only if there is no tensor or the first exceeds the limit |
| FileNames.WorkerFileUnique | slime/tools/convert_torch_dist_to_hf_parallel.py:317-322 | a worker's file name determines the worker, the shard number and the shard count, for numbers of any width |
| FileNames.FinalFileUnique | slime/tools/convert_torch_dist_to_hf_parallel.py:563-564 | a final name determines its number and the total |
| FileNames.ModelIsNotFinal | slime/tools/convert_torch_dist_to_hf_parallel.py:563-564 | the names of the two passes never coincide |
| FileNames.NamesSpelled | slime/tools/convert_torch_dist_to_hf_parallel.py:317-322 | which number stands where in each kind of name, in how many digits |
| WorkerFiles.SaveTensors | slime/tools/convert_torch_dist_to_hf_parallel.py:303-340 | one worker adds its shards and an index that maps each name to its shard's file, and touches nothing else |
| WorkerFiles.RunWorkers | slime/tools/convert_torch_dist_to_hf_parallel.py:511-528 | in whatever order workers finish, the directory holds exactly their shards and indices |
| IndexMerge.MoveWorkerFiles | slime/tools/convert_torch_dist_to_hf_parallel.py:541-551 | the files of one worker get the next numbers, contents unchanged, and no move overwrites a file |
| IndexMerge.NumberFiles | slime/tools/convert_torch_dist_to_hf_parallel.py:530-558 | after the first pass the merged map sends every name to the number of the file that holds it |
| IndexMerge.AddTotal | slime/tools/convert_torch_dist_to_hf_parallel.py:560-571 | the second pass renames every numbered file to its final name without overwriting, and the map follows |
| IndexMerge.MergeIndices | slime/tools/convert_torch_dist_to_hf_parallel.py:530-574 | each indexed file is moved once and its names are mapped to where it ended up |
| ConvertedOutput.TensorIsWhereIndexed | slime/tools/convert_torch_dist_to_hf_parallel.py:530-574 | every converted tensor is in the file its name is mapped to |
| ConvertedOutput.MergedIsConverted | slime/tools/convert_torch_dist_to_hf_parallel.py:530-574 | the index lists exactly the tensors, files 1 to T each hold indexed tensors within the limit, the total is the sum of sizes, and anything else is an empty shard |
| ConvertedOutput.NothingLeftOverIff | slime/tools/convert_torch_dist_to_hf_parallel.py:303-326 | only indexed files remain if and only if every worker has tensors and its first one fits |
| ConvertedOutput.Convert | slime/tools/convert_torch_dist_to_hf_parallel.py:303-574 | the whole path from converted tensors to the output directory, for any worker count and completion order |
| TraceEvents.Normalize | slime/tools/trace_timeline_viewer.py:167-204 | keeps the events with a timestamp and infers each parent from the stack before the event |
| TraceEvents.UpdateStack | slime/tools/trace_timeline_viewer.py:194-202 | a start pushes its id, an end deletes the topmost entry with its id |
| TraceEvents.CollectItems | slime/tools/trace_timeline_viewer.py:253-314 | the event loop yields the items of the event-by-event specification |
| TraceEvents.EventsAccounted | slime/tools/trace_timeline_viewer.py:259-314 | events = 2 closed + open + orphan ends + points + overwritten starts |
| TraceEvents.OpenIffUnanswered | slime/tools/trace_timeline_viewer.py:263-277 | the open spans are exactly the starts that nothing of the same id followed |
| TraceEvents.ClosedIffAnswered | slime/tools/trace_timeline_viewer.py:279-301 | the closed spans are exactly the pairs of a start and an end of one id with nothing of that id between |
| TraceEvents.OpenSpanIs | slime/tools/trace_timeline_viewer.py:263-277 | the record of an open span is that of its start, without an end |
| TraceEvents.ClosedSpanIs | slime/tools/trace_timeline_viewer.py:279-301 | the record of a closed span has the end of the event that closed it, the rest from its start |
| TraceItems.ClosedSpansAre | slime/tools/trace_timeline_viewer.py:259-301 | the closed spans, from the kinds and ids of the events alone |
| TraceItems.OpenSpansAre | slime/tools/trace_timeline_viewer.py:259-277 | the open spans, from the kinds and ids of the events alone |
| TraceItems.PointsAre | slime/tools/trace_timeline_viewer.py:303-314 | points are the other events and the starts without an id, in order |
| TraceItems.OrphansAre | slime/tools/trace_timeline_viewer.py:279-296 | orphans are the ends that no start belongs to, in order |
| TraceItems.ClosedInOrder | slime/tools/trace_timeline_viewer.py:298-301 | closed spans are listed in the order of their ends |
| TraceItems.ReopenedKeepsPlace | slime/tools/trace_timeline_viewer.py:263-277 | a re-opened id keeps its place among the open spans |
| TraceEvents.StackIsOpenIffNoReopen | slime/tools/trace_timeline_viewer.py:191-202 | the stack equals the open spans after every event if and only if no open id is started again |
| TraceEvents.ReopenedId | slime/tools/trace_timeline_viewer.py:191-202 | an id started twice is on the stack twice and open once |
| TraceEvents.InferredParentIsLatestOpen | slime/tools/trace_timeline_viewer.py:191-202 | without re-opened ids the inferred parent is the latest start not yet ended |
| Chains.EndsIffNeverRepeats | slime/tools/trace_timeline_viewer.py:329-338 | following links ends if and only if no span is met twice |
| SpanDepths.DepthCache.Resolve | slime/tools/trace_timeline_viewer.py:223-235 | terminates on any links, caches exact ancestor counts where the chain ends, and never exceeds the number of cached spans |
| SpanDepths.ComputeSpanDepths | slime/tools/trace_timeline_viewer.py:219-241 | every span has a depth: its number of ancestors if its chain ends, at most the number of spans in any case |
| SpanDepths.DepthsCountParents | slime/tools/trace_timeline_viewer.py:219-241 | a span without a parent in the trace has depth zero, any other one more than its parent, where following the parents ends |
| SpanDepths.DepthsAgree | slime/tools/trace_timeline_viewer.py:237-241 | the depth of a span whose chain does not repeat is independent of the visiting order |
| SpanClipping.NearestClosedAncestorEnd | slime/tools/trace_timeline_viewer.py:329-338 | the end of the first ancestor that is not open, or none; endless exactly when the walk does not stop |
| SpanClipping.NearestEndSteps | slime/tools/trace_timeline_viewer.py:329-338 | the nearest end one step at a time: none, the parent's own end, or the nearest end of the parent |
| SpanClipping.LatestById | slime/tools/trace_timeline_viewer.py:320-320 | an id stands for the last span that has it |
| SpanClipping.WalkEndsIffNoRepeat | slime/tools/trace_timeline_viewer.py:329-338 | the walk stops if and only if no open ancestor is met twice |
| SpanClipping.ClipSpan | slime/tools/trace_timeline_viewer.py:340-370 | the drawn end is the latest time the row, later siblings and the ancestor allow, and the reason names the limit |
| SpanClipping.ClipOpenSpans | slime/tools/trace_timeline_viewer.py:320-370 | every open span is drawn that way among all spans of the row, unless the walk of one of them does not stop |
| SpanClipping.DrawnEndKeepsLimits | slime/tools/trace_timeline_viewer.py:340-370 | start <= drawn end <= row end, not past a later sibling's start nor past a later closed ancestor's end |
| SpanClipping.BuildRow | slime/tools/trace_timeline_viewer.py:244-370 | from normalised events to drawn open spans, with the latest timestamp as the row end; never built exactly when a walk does not stop |
| SpanClipping.OwnParent | slime/tools/trace_timeline_viewer.py:329-338 | a single start that names itself as its parent makes the walk endless |
| GpuBusy.Merge | slime/tools/analyze_profile.py:239-245 | merged intervals are properly separated and cover the same ticks as the input; none is backward exactly when every backward input starts within an earlier one |
| GpuBusy.BusyIsTicks | slime/tools/analyze_profile.py:247-247 | the summed length of separated intervals is the number of covered ticks, less what backward ones take away |
| GpuBusy.CountsTicksIffSettled | slime/tools/analyze_profile.py:236-247 | the busy time of any intervals is the number of covered ticks if and only if every backward one starts within an earlier one |
| GpuBusy.BusyAndGapsFillSpan | slime/tools/analyze_profile.py:247-261 | busy time plus all gaps is the active span, whatever the durations |
| GpuBusy.GapsAreUncovered | slime/tools/analyze_profile.py:257-261 | the gaps are exactly the ticks of the extent at which nothing runs, unless a backward interval lies outside all earlier ones |
| GpuBusy.GapsAt | slime/tools/analyze_profile.py:257-261 | gap k reaches from the end of merged interval k to the start of the next |
| GpuBusy.AnalyzeIntervals | slime/tools/analyze_profile.py:236-261 | busy time, span, gaps and percentage of any intervals and when the division fails; at most 100 percent, exactly 100 without gaps, unless a backward interval lies outside all earlier ones |
| GpuBusy.BackwardInterval | slime/tools/analyze_profile.py:236-261 | a stray negative duration makes the busy time too small, or the span zero |
| MaskRuns.EdgesAreRuns | Megatron-LM/examples/multimodal/train.py:177-188 | the edge lists have equal length and their k-th entries are the two ends of the k-th maximal run |
| MaskRuns.PairsAreMaximalRuns | Megatron-LM/examples/multimodal/train.py:168-190 | the pairs are all maximal runs of set bits, in order and apart, and zipping drops no edge |
| TurnLoss.ScaledLoss | Megatron-LM/examples/multimodal/train.py:193-233 | the loss equals the documented formula over the turns; without turns it fails exactly without context parallelism or when the shapes do not broadcast, and is zero otherwise |
| TurnLoss.MaskedLoss | Megatron-LM/examples/multimodal/train.py:226-231 | the masked sum of a rank without turns: zero for one sample or at most one token each, a shape error otherwise |
| TurnLoss.TwoSilentSamples | Megatron-LM/examples/multimodal/train.py:226-231 | two samples of two tokens without loss tokens do not broadcast |
| TurnSums.TurnSumIsSliceSum | Megatron-LM/examples/multimodal/train.py:212-213 | the loss of a turn is the sum of the losses from its first to its last token |
| TurnSums.TurnsOfOneSample | Megatron-LM/examples/multimodal/train.py:208-218 | a sample has exactly one turn for each maximal run of its mask, in order, with the sum and number of its losses |
| TurnSums.BatchTurnsAppend | Megatron-LM/examples/multimodal/train.py:208-218 | the turns of a batch are those of its samples, one sample after the other |
| TurnSums.BaseAppend | Megatron-LM/examples/multimodal/train.py:220-220 | the sum of the roots is additive over the turns |
| TurnSums.RootScaledSumAppend | Megatron-LM/examples/multimodal/train.py:193-203 | the numerator of the formula is additive over the turns |
| TurnSums.SumsOfOneTurn | Megatron-LM/examples/multimodal/train.py:193-203 | one turn adds the root of its length to the one sum, and its loss over that root to the other |
| TurnLoss.ScaledLossIsAverage | Megatron-LM/examples/multimodal/train.py:220-223 | the turn weights are those of an average: bounds on the turn means bound the loss |
| TurnLoss.BatchLossBetween | Megatron-LM/examples/multimodal/train.py:193-229 | bounds on the losses of the unmasked tokens bound the scaled loss |
| LrCurves.WarmupRisesIff | Megatron-LM/megatron/core/optimizer_param_scheduler.py:143-147 | the rate never drops in warmup if and only if there is no warmup or the group's maximum is not below the initial rate |
| LrCurves.DecayFallsIff | Megatron-LM/megatron/core/optimizer_param_scheduler.py:149-196 | for every style, exactly when the rate never grows after warmup |
| LrCurves.LrBounds | Megatron-LM/megatron/core/optimizer_param_scheduler.py:132-196 | for every style, the rate stays between the initial or minimum rate and the maximum |
| LrCurves.LrDefined | Megatron-LM/megatron/core/optimizer_param_scheduler.py:132-196 | with a supported style the rate is defined at every step, so none of the assertions and divisions on the way fails |
| LrCurves.WdFailsIff | Megatron-LM/megatron/core/optimizer_param_scheduler.py:111-130 | the weight decay fails exactly for a constant style with different ends, or another one over zero steps or without support, and only until the increment is over |
| LrCurves.WdRises | Megatron-LM/megatron/core/optimizer_param_scheduler.py:98-130 | the weight decay climbs from its start to its end value |
| LrValues.RateInWarmup | Megatron-LM/megatron/core/optimizer_param_scheduler.py:143-147 | the rate in warmup: that part of the way from the initial rate to the maximum |
| LrValues.RateOutsideDecay | Megatron-LM/megatron/core/optimizer_param_scheduler.py:149-156 | a constant rate is the maximum, any other the minimum after the decay |
| LrValues.RateLinear | Megatron-LM/megatron/core/optimizer_param_scheduler.py:164-173 | the linear rate: that part of the way from the maximum to the minimum |
| LrValues.RateCosine | Megatron-LM/megatron/core/optimizer_param_scheduler.py:164-175 | the cosine rate at the fraction of the steps since warmup |
| LrValues.RateWsd | Megatron-LM/megatron/core/optimizer_param_scheduler.py:176-196 | the maximum until the annealing starts, then each annealing curve at the fraction of its steps |
| LrValues.RateInverse | Megatron-LM/megatron/core/optimizer_param_scheduler.py:158-162 | the maximum times the root of the warmup steps over the root of the step, but not below the minimum |
| LrValues.RateFailsIff | Megatron-LM/megatron/core/optimizer_param_scheduler.py:149-196 | a rate is missing exactly within the decay or annealing of a style that is not supported |
| LrValues.WeightDecayIs | Megatron-LM/megatron/core/optimizer_param_scheduler.py:98-130 | the weight decay of every style, times the group's multiplier |
| LrValues.StepWrites | Megatron-LM/megatron/core/optimizer_param_scheduler.py:198-207 | a step writes the rate and the weight decay of the new step count to every group, each in its field |
| LrScheduler.OptimizerParamScheduler.constructor | Megatron-LM/megatron/core/optimizer_param_scheduler.py:39-96 | a new scheduler is at step zero with all groups set |
| LrScheduler.OptimizerParamScheduler.Create | Megatron-LM/megatron/core/optimizer_param_scheduler.py:39-96 | a scheduler is made if and only if every assertion of the constructor and the first step succeed |
| LrScheduler.OptimizerParamScheduler.Step | Megatron-LM/megatron/core/optimizer_param_scheduler.py:198-207 | all groups get the values of the new step count, or the first failure is reported with the count advanced |
| LrScheduler.OptimizerParamScheduler.SaveStateDict | Megatron-LM/megatron/core/optimizer_param_scheduler.py:209-223 | a checkpoint holds the step count and every saved setting under its current key, and no older key |
| LrScheduler.OptimizerParamScheduler.LoadStateDict | Megatron-LM/megatron/core/optimizer_param_scheduler.py:248-311 | old and new key names, override, mismatch and missing keys, in the order of the source |
| LrKeys.LoadedSettings | Megatron-LM/megatron/core/optimizer_param_scheduler.py:248-311 | which key each setting is loaded from, older names first, and under which settings the step is done |
| LrKeys.RatesLoadIff | Megatron-LM/megatron/core/optimizer_param_scheduler.py:255-292 | the rate settings load if and only if no key is missing and every value is allowed by the policy |
| LrKeys.WeightDecayLoadsIff | Megatron-LM/megatron/core/optimizer_param_scheduler.py:300-311 | the same for the weight decay settings, which a checkpoint may lack |
| LrKeys.LoadsIff | Megatron-LM/megatron/core/optimizer_param_scheduler.py:248-311 | loading succeeds if and only if both do, the step count is saved and the step succeeds |
| LrResume.StepsAdd | Megatron-LM/megatron/core/optimizer_param_scheduler.py:198-207 | two steps in a row are one step of both increments |
| LrResume.LoadSaved | Megatron-LM/megatron/core/optimizer_param_scheduler.py:248-311 | loading with checkpoint values takes over all saved settings and adds the saved steps |
| LrResume.OverrideKeepsSettings | Megatron-LM/megatron/core/optimizer_param_scheduler.py:225-246 | loading with override keeps all own settings and only adds the saved steps |
| LrResume.StrictLoadsIffEqual | Megatron-LM/megatron/core/optimizer_param_scheduler.py:225-246 | loading with neither succeeds if and only if all saved settings are the own ones and the step succeeds |
| LrResume.ResumeIsUninterruptedIff | Megatron-LM/megatron/core/optimizer_param_scheduler.py:209-311 | after every further step the resumed run equals the uninterrupted one if and only if the scheduler was fresh and the unsaved settings give the same rates from there on |
| LrResume.SameRatesIff | Megatron-LM/megatron/core/optimizer_param_scheduler.py:132-196 | for one WSD style, those rates agree if and only if the initial rate does, if warmup is not over, and the WSD length does where it still matters |
| LrResume.ResumeIffSameSettings | Megatron-LM/megatron/core/optimizer_param_scheduler.py:209-311 | whether the resumed run is the uninterrupted one, told from the settings |
| LrResume.InitialRateMatters | Megatron-LM/megatron/core/optimizer_param_scheduler.py:143-147 | two fresh schedulers that differ in the initial rate have different rates in warmup |
| LrResume.LoadedValues | Megatron-LM/megatron/core/optimizer_param_scheduler.py:293-311 | right after loading, rates follow the checkpoint and weight decays the scheduler's own settings |
| LrResume.LoadedWeightDecayIff | Megatron-LM/megatron/core/optimizer_param_scheduler.py:293-311 | a fresh scheduler's group is left the saved weight decay if and only if its own settings reach the same value at the saved step or its multiplier is zero |
| LrResume.SameLinearWeightDecayIff | Megatron-LM/megatron/core/optimizer_param_scheduler.py:98-130 | that condition as an equation between the settings, for constant and linear increments |
| LrResume.StaleWeightDecay | Megatron-LM/megatron/core/optimizer_param_scheduler.py:293-311 | a checkpoint of 0.5 after which the loaded weight decay is 1.0 |
| LrResume.SameSettingsRestoreState | Megatron-LM/megatron/core/optimizer_param_scheduler.py:209-311 | a fresh scheduler with the same settings is brought to exactly the saved state |

## Left out

- PackedSamples.TruncationFitsIffBudget: no context-parallel padding; the sample's total length is a field, as in the source.
- PackedSamples.PackSelectedSamples: sample keys and flavours are not modelled.
- CommGrid.HyperCommGrid.CreatePg: a process group is its enumeration and backend options are not modelled; einops accepts only identifiers as axis names, so names with a hyphen never create a group, and the world size is a parameter.
- AsyncTrain.TrainLoop: placement groups, metrics and the weight comparison check are not modelled; intervals of zero, which divide by zero in the source, are excluded.
- Int4Layers.LayerRoundTrip: exact arithmetic in place of bfloat16 and float32 rounding; the codes and scales of the CUDA kernel are inputs; zero scales, one-dimensional scales and packing along dimension 0 are not modelled.
- Junqi.Generate: response ids of the server are always set; `generate_junqi1` is the same machine with two servers; the rules of the board game are an oracle with a contract.
- WorkerFiles.RunWorkers: converted names are unique, conversions do not raise, and the output directory is fresh; the thread pool that writes the shards of one worker is a loop, as their names differ.
- IndexMerge.MoveWorkerFiles: the files of a worker are taken in an arbitrary order, which covers the sorted order of the source, and every worker returns an index.
- ConvertedOutput.Convert: loading checkpoint shards, converting parameters and copying assets are inputs or absent.
- TraceEvents.Normalize: names, attributes, attempts and sample ids of events are not modelled.
- SpanClipping.ClipOpenSpans: siblings are ordered by start only, since ties do not affect the first later start; lane assignment is not modelled.
- GpuBusy.AnalyzeIntervals: the causes of gaps, their order by length and the wall time are not modelled.
- TurnLoss.ScaledLoss: exact arithmetic, the mask has entries 0 and 1, and the square root is a parameter whose square is its argument.
- LrCurves.DecayFallsIff: no floating-point rounding; cosine, powers of one half and square roots are parameters that fall from 1 to 0, or square to their argument.
- LrResume.SameRatesIff: two different WSD styles, whose curves are parameters, are compared by their rates only, in LrResume.ResumeIsUninterruptedIff.
- Building the models, parsing arguments, and the forward and backward passes.
- Sessions, actors, tensor files, CUDA graphs and communication libraries, except for what they promise to the loops above.
- The HTML and JavaScript of the trace viewer, and all printing.
- The rollout functions in `slime/patch/sglang_rollout.py`, microbatch counting, image sizes, dataset preprocessing and energy monitoring.
