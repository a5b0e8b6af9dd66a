# TOPF: rollouts, redaction, YAML paths and the decrypt cache

TOPF rolls configuration and operating-system upgrades out over a cluster of Talos nodes. This project models the
parts of it that carry algorithms and protocols of their own, and proves what they promise. Everything remote (the
Talos and Kubernetes APIs, SOPS, vals) is an unconstrained parameter: a reply, a stream of responses, a decoded
document. A parameter may be anything, so each theorem holds for every behaviour of the outside.

- **Redaction** (`Redaction`, `Streaming`, `MaskedWriter`, `Masking`). `Redaction` says what leftmost-longest
  replacement is, first without an algorithm (`LeftmostLongest`) and then as a function, and shows that the two leave
  no choice. `Streaming` is the life of a writer as a state machine over `AddSecrets`, `Write` and `Close`;
  `MaskedWriter` is the class with its held-back buffer, every method proved to be one step of that machine.
- **Rolling upgrades** (`Pool`, `MaxParallel`, `NodeUpgrade`, `Rollout`, `FullUse`, `NodePool`, `UpgradePlan`). `Pool`
  is `RunConcurrent` as a labelled transition system, one program counter per goroutine. `NodeUpgrade` is the upgrade
  of one node: a protocol over phases, and the imperative code proved to walk it under every script of replies.
  `Rollout` puts the two together; its invariant spans both layers and yields the disruption budget, and `FullUse`
  shows that the budget is reached.
- **YAML trees** (`YamlTree`, `YamlUtils`, `Extraction`). The collector walks with one path buffer that siblings
  overwrite, modelled as Go slices over arrays; it is proved against the resolver, and lifted to pairs of documents.
- **The decrypt cache** (`DecryptCache`). Concurrent callers, a map and singleflight as a transition system.
- **Supporting parts** (`Stabilize`, `NodeOrder`, `Apply`, `ApplyRun`, `InstallerImage`). Waiting for a stable node,
  the configuration's order, the pre-flight checks on the node slice, the apply command from configuration to
  bootstrap, and the installer image printed and parsed back.

In the transition systems a run is a sequence of states, each a step of some goroutine after the one before. `IsRun`
and `IsExecution` fix what a run is; theorems speak of every state of every run.

## Where the code differs from its description

- `internal/decryption/decryption.go:46-47` says that concurrent calls for a path fork only once. The function given
  to `sf.Do` does not look into the map again, so a caller that missed early can start a second load after the first
  flight ended: `TwoLoads` is that run, and `LoadedAgainIff` says exactly when another load is possible.
- `internal/nodepool/nodepool.go:53-55` says that the result of `Resolve` never exceeds the total. With a total of 0
  it is at least 1; `LimitBounds` gives the exact condition. Callers pass at least one node.
- `internal/cmd/upgrade/upgrade.go:248-253` says that a failed drain leaves the node cordoned. A drain that fails
  before its cordon call takes effect leaves it schedulable; `FailedDrainLeaves` gives every case, `RefusedDrainClient` one of them.
- `internal/cmd/upgrade/upgrade.go:254-256` counts a gRPC Canceled reply to the reboot as success. The code (lines
  314-317) looks for status Unavailable and for an error that wraps `context.Canceled`, not for status Canceled. The
  model keeps the two apart: `CanceledStatusIsNotEnough` says what a reply of that status leads to, and
  `CanceledReboot` is a script on which the node is left rebooting and cordoned.
- `MaskedWriter.Write` returns 0 when the inner writer fails, yet keeps what it was given in its buffer. Conservation
  is therefore stated over the bytes handed over (`RunConserves`), not over the counts returned.

## Model

| member | source | states |
|---|---|---|
| `Redaction.TokensAreTheLeftmostLongest` | internal/maskedwriter/maskedwriter.go:85-121 | The token list computed by greedy scanning is the only one that satisfies the declarative leftmost-longest condition: tokens stand for the input, a masked token is a registered secret no longer one extends, a verbatim byte has no secret starting at it. |
| `Redaction.OccurrencesStartMasked` | internal/maskedwriter/maskedwriter.go:20-22 | Wherever a registered non-empty secret occurs in the input, its first byte lies under a marker. |
| `Redaction.NoSecretInVerbatimRun` | internal/maskedwriter/maskedwriter.go:20-22 | No run of output copied verbatim between markers contains a whole registered secret. |
| `Redaction.OnlySecretsAreMasked` | internal/maskedwriter/maskedwriter.go:111-118 | Text in which no registered secret occurs comes out unchanged. |
| `Redaction.SecretBecomesMarker` | internal/maskedwriter/maskedwriter.go:18-21 | A registered secret by itself comes out as the marker alone. |
| `Redaction.MarkerText` | internal/maskedwriter/maskedwriter.go:18 | The marker is the text of the constant. |
| `Redaction.SourceOfTokens` | internal/maskedwriter/maskedwriter.go:95-121 | Putting each secret back in place of its marker gives the input. |
| `Streaming.MatchIsFinal` | internal/maskedwriter/maskedwriter.go:124-148 | When the pause rule does not fire, the longest match at the front of the buffer is the longest match of the buffer followed by any future input. |
| `Streaming.PausesOnlyForALongerMatch` | internal/maskedwriter/maskedwriter.go:97-100 | The pause fires exactly when some further input would make a match longer than the buffer. |
| `Streaming.DrainCommitsToTheWhole` | internal/maskedwriter/maskedwriter.go:95-121 | A pass emits exactly the tokens that the redaction of buffer and future input begins with, even if a write fails on the way. |
| `Streaming.DrainWrites` | internal/maskedwriter/maskedwriter.go:102-118 | One inner write for each token; the pass fails if and only if one of them does, and then stops there. |
| `Streaming.WritesContinueOnePass` | internal/maskedwriter/maskedwriter.go:62-73 | From any state, writes only continue one left-to-right pass over the held-back bytes and everything written, failures included. |
| `Streaming.EventualOutput` | internal/maskedwriter/maskedwriter.go:58-83 | From any state without inner errors ahead, writes in any chunks and a close give what was already out followed by the one-shot redaction, under the current secrets, of pending and future input. |
| `Streaming.StreamingIsOneShot` | internal/maskedwriter/maskedwriter.go:62-83 | For a fixed secret set, any division of the input into writes followed by a close yields the one-shot redaction of the concatenation. |
| `Streaming.RunSettles` | internal/maskedwriter/maskedwriter.go:58-61 | After any interleaving of the three calls without inner errors, what is pending is empty or, in the prefix order, properly before some registered secret. |
| `Streaming.RunConserves` | internal/maskedwriter/maskedwriter.go:66-72 | In any run, inner errors included, the bytes consumed followed by the bytes pending are all bytes handed over. |
| `Streaming.RegistrationIsASet` | internal/maskedwriter/maskedwriter.go:44-56 | Later behaviour depends only on the set of non-empty secrets, not on order, repetition or how the registration was split into calls. |
| `Streaming.SecretsAfter` | internal/maskedwriter/maskedwriter.go:44-56 | A run registers exactly the non-empty texts it was given, and forgets none. |
| `MaskedWriter.Writer.constructor` | internal/maskedwriter/maskedwriter.go:36-41 | A new writer holds nothing back and has the non-empty secrets registered. |
| `MaskedWriter.Writer.AddSecrets` | internal/maskedwriter/maskedwriter.go:44-56 | The list and the set stay in agreement and the writer moves by one AddSecrets step of the machine. |
| `MaskedWriter.Writer.Write` | internal/maskedwriter/maskedwriter.go:62-73 | The writer moves by one Write step; all bytes are reported on success and none on failure. |
| `MaskedWriter.Writer.Close` | internal/maskedwriter/maskedwriter.go:78-83 | The writer moves by one Close step. |
| `MaskedWriter.Writer.DrainPending` | internal/maskedwriter/maskedwriter.go:95-122 | The loop emits, keeps and returns exactly what one pass of the machine does. |
| `MaskedWriter.Writer.CouldGrowIntoSecret` | internal/maskedwriter/maskedwriter.go:126-134 | True if and only if the buffer is a proper prefix of some registered secret. |
| `MaskedWriter.Writer.LongestMatchAtStart` | internal/maskedwriter/maskedwriter.go:138-148 | The length of the longest registered secret that starts the buffer, 0 if none. |
| `Masking.RegisteredSecretsAreMasked` | internal/maskedwriter/maskedwriter.go:43-83 | Once a secret is registered, mid-stream or not, each of its occurrences in the bytes still held back and in later writes starts under a marker of the output. |
| `Masking.DecryptedLeavesAreMasked` | internal/yamlutils/yamlutils.go:72-109 | The plaintext of any matching leaf of any document pair, once extracted and registered, is masked in all later output. |
| `Pool.NeverTwice` | internal/nodepool/nodepool.go:112-144 | In every reachable state no node has been run twice, only the dequeued prefix has been touched, and each error sent is that of a failing call, at most one per goroutine. |
| `Pool.ResultIsExact` | internal/nodepool/nodepool.go:126-154 | When all goroutines have returned, the joined errors are exactly those of the failing calls; there are none if and only if every node was run and succeeded. |
| `Pool.FewCallsAfterStop` | internal/nodepool/nodepool.go:128-142 | A goroutine whose node failed has set stop before it returned; once stop is set it stays, and between any two later states at most n-1 further calls begin. |
| `Pool.NobodyBlocks` | internal/nodepool/nodepool.go:124-144 | Every goroutine that has not returned can take a step: no deadlock, and sends to the error channel never block. |
| `Pool.RunsAreShort` | internal/nodepool/nodepool.go:99-155 | Every execution ends: a run has at most six steps per node and one per goroutine. |
| `Pool.Completes` | internal/nodepool/nodepool.go:99-155 | Every run can be continued to a complete one, for every vector of results of the calls. |
| `Pool.RunInOrder` | internal/cmd/upgrade/upgrade.go:101-105 | The control-plane loop makes the calls and returns the error that the specification function InOrder says. |
| `Pool.PoolOfOneIsTheLoop` | internal/nodepool/nodepool.go:99-155 | With n = 1 every complete run makes the same calls in the same order and returns the same error as the sequential loop. |
| `MaxParallel.FloatCeilingIsExact` | internal/nodepool/nodepool.go:59-61 | For products below 2^53, the ceiling of any correctly rounded float64 quotient by 100 is the exact integer ceiling. |
| `MaxParallel.ResolveIsTheLimit` | internal/nodepool/nodepool.go:56-72 | The code's result is the exact ceiling of the percentage (or the count), at least 1 and capped by the total. |
| `MaxParallel.LimitBounds` | internal/nodepool/nodepool.go:53-55 | Always at least 1; at most the total if and only if there is a node; for percentages it is the least whole number that reaches them. |
| `MaxParallel.LimitCaseByCase` | internal/nodepool/nodepool.go:56-72 | The limit for every setting and total: a count as far as there are nodes, of a percentage the fewest nodes that reach it, one where the setting asks for less. |
| `MaxParallel.ResolveCaseByCase` | internal/nodepool/nodepool.go:56-72 | The same of what the code computes through float64. |
| `MaxParallel.LimitIsMonotoneIff` | internal/nodepool/nodepool.go:56-72 | For settings of one kind and any totals, more nodes or a larger setting never lower the limit, except if and only if a count is resolved for no node and then for some but fewer than it asks for. |
| `MaxParallel.NotMonotoneFromZero` | internal/nodepool/nodepool.go:67-69 | The exception at a concrete input: a count of five resolves to 5 for no node and to 1 for one. |
| `NodePool.FilteredNodes` | internal/topf/nodes.go:188-235 | The gathered nodes are those whose host matches the filter, in configuration order. |
| `NodePool.PartitionByRole` | internal/nodepool/nodepool.go:76-86 | Each group is the order-preserving selection of its role. |
| `NodePool.PartsAreTheNodes` | internal/nodepool/nodepool.go:74-86 | The two groups together are a rearrangement of the input: nothing lost, nothing doubled. |
| `NodePool.PartsMakeTheList` | internal/nodepool/nodepool.go:74-86 | Concatenated, the groups give back the list if and only if no worker precedes a control plane. |
| `NodePool.OrderedNodesSplitInPlace` | internal/topf/nodes.go:188-204 | Any selection of nodes in configuration order is in that order and is its control planes followed by its workers. |
| `NodeUpgrade.PullInstallerImage` | internal/cmd/upgrade/upgrade.go:576-607 | Succeeds if and only if the first decisive response of the stream is the image name. |
| `NodeUpgrade.RunUpgrade` | internal/cmd/upgrade/upgrade.go:612-651 | Succeeds if and only if the first decisive response is exit code 0. |
| `NodeUpgrade.OutcomeExactly` | internal/cmd/upgrade/upgrade.go:271-354 | For every script of replies: the modern flow reboots the node if and only if it connects, resolves the name when draining, the pull stream first decides for the image, the install stream first decides for exit code 0, the drain (if any) succeeds and the reboot takes effect; it returns nil if and only if besides the reboot is accepted (nil, Unavailable or context.Canceled), the node stabilises and the uncordon succeeds; and when exactly it leaves the node rebooting or cordoned. |
| `NodeUpgrade.AfterFailedReboot` | internal/cmd/upgrade/upgrade.go:311-330 | After a failed reboot reply the upgrade goes on if and only if its status is Unavailable or it wraps context.Canceled; what is then needed for nil, and when the node is left rebooting. |
| `NodeUpgrade.LegacyOutcomeExactly` | internal/cmd/upgrade/upgrade.go:369-397 | For every script the legacy flow: when it returns nil, when it reboots the node and when it leaves it rebooting; it never cordons. |
| `NodeUpgrade.PathIsGuarded` | internal/cmd/upgrade/upgrade.go:293-350 | At every state on the way: the reboot is called only with all of that behind it, and the uncordon only after an accepted reboot and a successful wait for stability. |
| `NodeUpgrade.RebootAndUncordonAreGuarded` | internal/cmd/upgrade/upgrade.go:302-350 | The same as one step of the protocol under any reply, in terms of what the node has confirmed: it is what the disruption budget builds on. |
| `NodeUpgrade.CanceledStatusIsNotEnough` | internal/cmd/upgrade/upgrade.go:311-318 | A reboot reply of status Canceled leads to nil only if the error also wraps context.Canceled; if not, a reboot that took effect leaves the node rebooting and, when draining, cordoned. |
| `NodeUpgrade.CanceledReboot` | internal/cmd/upgrade/upgrade.go:311-318 | A concrete script on which this happens. |
| `NodeUpgrade.NextKeepsNodeInv` | internal/cmd/upgrade/upgrade.go:271-397 | Each remote call keeps the invariant that ties the condition of the node to the place reached, in both flows and after failures. |
| `NodeUpgrade.Machine.UpgradeNode` | internal/cmd/upgrade/upgrade.go:212-220 | The code ends as the protocol does under every script of replies; after nil the node is stable and schedulable, and a modern node was rebooted exactly when everything before the reboot succeeded and the call took effect. |
| `NodeUpgrade.Machine.UpgradeNodeLifecycle` | internal/cmd/upgrade/upgrade.go:271-354 | The modern flow walks the protocol and returns nil if and only if every call it needs succeeds, a lost reboot reply counting as success. |
| `NodeUpgrade.Machine.PullAndInstall` | internal/cmd/upgrade/upgrade.go:274-300 | The part up to the installed artifacts: connects, resolves the name when draining, pulls, installs. |
| `NodeUpgrade.Machine.RebootAndUncordon` | internal/cmd/upgrade/upgrade.go:312-351 | The part from the reboot on: reboots, waits for stability, uncordons when draining. |
| `NodeUpgrade.Machine.DrainNode` | internal/cmd/upgrade/upgrade.go:438-474 | Succeeds if and only if the cordon does and the eviction or, when asked for, the deletion does. |
| `NodeUpgrade.Machine.UpgradeNodeLegacy` | internal/cmd/upgrade/upgrade.go:369-397 | The legacy flow walks the protocol and returns nil if and only if its three calls succeed. |
| `NodeUpgrade.FailedDrainLeaves` | internal/cmd/upgrade/upgrade.go:248-253 | After a drain failure the node is installed and not rebooted, and cordoned exactly when the cordon call took effect. |
| `NodeUpgrade.RefusedDrainClient` | internal/cmd/upgrade/upgrade.go:438-442 | A concrete failed drain that leaves the node schedulable. |
| `NodeUpgrade.UnstableNodeStaysDisrupted` | internal/cmd/upgrade/upgrade.go:328-330 | A node that does not stabilise is left rebooting and, when draining, still cordoned. |
| `NodeUpgrade.CompleteUpgradeLeaves` | internal/cmd/upgrade/upgrade.go:271-354 | The marks a complete upgrade leaves, one by one. |
| `Rollout.DisruptionBudget` | internal/cmd/upgrade/upgrade.go:96-117 | In every reachable state of a run, failures included: at most one control plane is cordoned or rebooting, no worker is while one is, and disrupted workers never exceed the limit nor the number of workers. |
| `Rollout.BudgetOfTheSetting` | internal/cmd/upgrade/upgrade.go:107-117 | The same in terms of the setting: for a count never more disrupted workers than it says, for a percentage never more than the fewest that reach it. |
| `FullUse.BudgetIsReached` | internal/nodepool/nodepool.go:92-98 | In every configuration some run has as many workers disrupted at once as the limit and their number allow: the budget is exact and the pool is used in full. |
| `Rollout.WorkerBudget` | internal/nodepool/nodepool.go:126-144 | Each pool goroutine owns at most one disrupted worker, the one it runs or the one it failed on. |
| `Rollout.StepInv` | internal/cmd/upgrade/upgrade.go:68-120 | Every step of either layer keeps the joint invariant of the pool and of all nodes. |
| `Rollout.WhatReturningMeans` | internal/cmd/upgrade/upgrade.go:101-119 | nil means that every planned node was upgraded and none is disrupted; an error means that some node failed. |
| `Rollout.SomethingCanHappen` | internal/cmd/upgrade/upgrade.go:101-119 | A run that has not returned can always take a step. |
| `Rollout.StepsRunOut` | internal/cmd/upgrade/upgrade.go:101-119 | Every step lowers a measure, so the run ends. |
| `UpgradePlan.PreChecks` | internal/cmd/upgrade/upgrade.go:124-152 | Passes if and only if every node was reached without error and is running. |
| `UpgradePlan.Plan` | internal/cmd/upgrade/upgrade.go:156-199 | Reports the first unreadable image, or else the order-preserving worklist of nodes that differ from their image and were not declined, and whether any differs. |
| `UpgradePlan.WorklistExactly` | internal/cmd/upgrade/upgrade.go:166-195 | A node is planned for if and only if its running schematic or version differs from the image's, it is no dry run and a prompt, if shown, was not declined; changes are reported if and only if some node differs. |
| `UpgradePlan.DryRunForetells` | internal/cmd/upgrade/upgrade.go:178-183 | A dry run has an empty worklist, and reports changes if and only if the same run with every prompt accepted would have work. |
| `UpgradePlan.PlanningConverges` | internal/cmd/upgrade/upgrade.go:166-170 | Once upgraded nodes report the pair of their image, planning again finds exactly the declined ones. |
| `UpgradePlan.Prepare` | internal/cmd/upgrade/upgrade.go:68-109 | An unreadable image or an unsound node is reported; otherwise the run that follows covers exactly the planned nodes, control planes first, and its limit counts all nodes given. |
| `YamlUtils.ResolvePath` | internal/yamlutils/yamlutils.go:19-48 | The loop agrees with the recursive resolver, the panic on a negative index included. |
| `YamlUtils.CollectPaths` | internal/yamlutils/yamlutils.go:53-70 | With one buffer shared and overwritten by siblings: the paths added are exactly those the resolver leads to a matching string, each once, in arrays of their own; earlier results and the caller's part of the buffer are intact. |
| `YamlUtils.CollectEntries` | internal/yamlutils/yamlutils.go:55-58 | The same for a mapping, its keys visited in any order. |
| `YamlUtils.CollectItems` | internal/yamlutils/yamlutils.go:59-62 | The same for a list. |
| `YamlUtils.Visit` | internal/yamlutils/yamlutils.go:57 | Collecting below one child through an appended path, whether or not append reuses the buffer, leaves the path itself intact. |
| `YamlTree.MatchesAreApart` | internal/yamlutils/yamlutils.go:50-70 | No matching path is a proper prefix of another. |
| `YamlTree.MatchingPathsAreSafe` | internal/yamlutils/yamlutils.go:35-41 | A collected path never makes the resolver panic, in any tree. |
| `YamlTree.ContainsRefIffCollectable` | internal/vals/vals.go:83-100 | The reference check is true if and only if there is a path to collect. |
| `Extraction.ExtractSecrets` | internal/yamlutils/yamlutils.go:76-109 | The secrets are, document by document over the common decodable prefix, the non-empty strings found after at an enumeration of the paths that matched before; so a value is returned if and only if a path leads from a matching string to it. |
| `Extraction.DocumentSecrets` | internal/yamlutils/yamlutils.go:96-105 | The same for one pair of documents. |
| `Extraction.ExtractedExactly` | internal/yamlutils/yamlutils.go:72-75 | A value is extracted if and only if, in some document that both inputs decode, a path leads before to a matching string and after to that non-empty value. |
| `Extraction.SequenceIsExact` | internal/yamlutils/yamlutils.go:72-75 | If only matching leaves were replaced, by non-empty texts, the result is exactly these texts, one for each leaf of each document. |
| `Extraction.RunsAgree` | internal/yamlutils/yamlutils.go:56 | The order in which mappings are walked changes the order of the result but not its multiset. |
| `Extraction.HasRefs` | internal/vals/vals.go:60-80 | True if and only if some document that decodes contains a reference, also when a later one is broken. |
| `Extraction.SkippedExactlyWhenNothingToFind` | internal/vals/vals.go:29-32 | Evaluation is skipped if and only if no evaluated content could yield a secret. |
| `DecryptCache.StepInv` | internal/decryption/decryption.go:55-125 | Every step of every caller keeps the invariant of map, flights and callers. |
| `DecryptCache.CallsAgreeWithLoads` | internal/decryption/decryption.go:55-125 | Under every interleaving a successful call returns what an uncached read returns; a failing one shares a load of its path that failed. |
| `DecryptCache.SuccessIsShared` | internal/decryption/decryption.go:107-124 | A load that succeeds gives its content to the map, to the caller that made it and to all that wait for it. |
| `DecryptCache.FailureIsShared` | internal/decryption/decryption.go:115-117 | A load that fails gives its failure to all of them, leaves the map as it was and lets the path be loaded again. |
| `DecryptCache.OnlySuccessesAreCached` | internal/decryption/decryption.go:107-113 | The map holds only results of loads that succeeded, so a look-up after a success answers at once and correctly. |
| `DecryptCache.OneLoadAtATime` | internal/decryption/decryption.go:66 | At most one load of a path is in progress. |
| `DecryptCache.SomebodyCanStep` | internal/decryption/decryption.go:66 | Some step is possible as long as a call has not returned. |
| `DecryptCache.RunsAreShort` | internal/decryption/decryption.go:55-125 | Every execution ends, after at most six steps for each call; with the row before, no caller waits for ever. |
| `DecryptCache.LoadsStillToCome` | internal/decryption/decryption.go:58-66 | From any state on, the further loads of a path are bounded by the calls that may still begin one, each at most one; once the path is stored these are the calls that had missed before. |
| `DecryptCache.LoadedAgainIff` | internal/decryption/decryption.go:58-66 | Stored, failed or never loaded: another load of a path is possible if and only if some call for it stands between its look-up and `sf.Do`, or has not looked yet while the path is not in the map. |
| `DecryptCache.TwoLoads` | internal/decryption/decryption.go:46-47 | A complete run of two callers in which the same path is loaded twice. |
| `Stabilize.WaitForMachineReady` | internal/topf/wait.go:23-92 | An attempt succeeds if and only if its snapshot is running and ready and the deadline arrives after harmless events only. |
| `Stabilize.Stabilize` | internal/topf/wait.go:20-95 | nil if and only if one attempt succeeds by itself after failed ones; nothing of a failed attempt counts later. |
| `Stabilize.StableMeansReadyThroughout` | internal/topf/wait.go:24-36 | Because the watch is opened before the read, the machine was running and ready from the read to the last status received. |
| `Stabilize.ReadingFirstWouldMiss` | internal/topf/wait.go:24-26 | With the read before the watch, a lapse in between could go unseen. |
| `NodeOrder.CompareTextIsLexicographic` | pkg/config/topf_config.go:130 | The host comparison is the lexicographic order. |
| `NodeOrder.CompareIsLawful` | pkg/config/topf_config.go:123-131 | The comparator is a total preorder in which control planes precede workers and ties share role and host. |
| `NodeOrder.ComparePutsFirst` | pkg/config/topf_config.go:122-131 | A node comes first exactly when it alone is a control plane, or the roles are equal and its host is lexicographically smaller. |
| `NodeOrder.StableSortIsOne` | pkg/config/topf_config.go:122-131 | Insertion meets the contract of a stable sort: ordered, and ties as they were. |
| `NodeOrder.StableSortIsUnique` | pkg/config/topf_config.go:122-131 | That contract leaves exactly one result, so any stable sort gives it. |
| `Apply.DeleteUnhealthy` | internal/cmd/apply/apply.go:75-100 | In place: healthy nodes move to the front in order, the tail is cleared, and kept maintenance nodes are counted once. |
| `Apply.RunPreflightChecks` | internal/cmd/apply/apply.go:72-121 | Passes if and only if a healthy node is left and none was lost unless that is allowed; the post-apply checks are switched off exactly when all that are left are in maintenance. |
| `Apply.MemberCount` | internal/cmd/apply/bootstrap.go:106-119 | The first non-zero member count among the messages, 0 if there is none. |
| `Apply.TryBootstrap` | internal/cmd/apply/bootstrap.go:59-91 | A request is sent only while etcd is not running; the attempt decides exactly when the request is accepted or members exist. |
| `Apply.Bootstrap` | internal/cmd/apply/bootstrap.go:20-54 | Only the first node is asked, only if it is a control plane; the log of requests and replies is the one the attempts lead to, success if and only if some attempt decides, and the first such attempt ends it. |
| `Apply.SentIff` | internal/cmd/apply/bootstrap.go:33-47 | A request with a given reply is in the log if and only if an attempt that finds etcd not running sends it, with no decision before it. |
| `Apply.OnlyTheLastIsAccepted` | internal/cmd/apply/bootstrap.go:59-91 | In the log of requests an accepted one is the last, so at most one is ever accepted. |
| `Apply.AcceptedIff` | internal/cmd/apply/bootstrap.go:74-84 | One is accepted if and only if the attempt that decides is a request. |
| `Apply.TakesEffectTwiceIff` | internal/cmd/apply/bootstrap.go:74-81 | Bootstrapping takes effect more than once if and only if, before any attempt decides, a request takes effect although it is reported as failed and a later attempt sends another that takes effect. |
| `Apply.LostReplyTakesEffectTwice` | internal/cmd/apply/bootstrap.go:74-81 | Two attempts on which this happens. |
| `Apply.BootstrapNeedsAControlPlane` | internal/cmd/apply/bootstrap.go:20-25 | After sort, filter and checks the first node is a control plane if and only if a healthy matching one is configured. |
| `Apply.BootstrapTargetIsFirst` | pkg/config/topf_config.go:122-131 | The node asked is the first healthy matching control plane of the sorted configuration, equal hosts included. |
| `ApplyRun.ApplyNode` | internal/cmd/apply/apply.go:183-203 | Which error each answer of the node leads to: an unstable node is one only where stability is waited for. |
| `ApplyRun.ApplyDryRun` | internal/cmd/apply/apply.go:155-177 | Goes on past changes and stops at the first other error; changes are reported if and only if some node would change and none refuses. |
| `ApplyRun.ApplyInTurn` | internal/cmd/apply/apply.go:134-138 | Control planes are applied to one at a time, up to and including the first that fails. |
| `ApplyRun.ApplyInPool` | internal/cmd/apply/apply.go:140-148 | In any interleaving the pool returns nil if and only if every worker succeeds; it applies to each worker at most once, and to each exactly once if it returns nil; its errors are those of the failing workers it applied to, none dropped. |
| `ApplyRun.ApplyForReal` | internal/cmd/apply/apply.go:127-151 | No worker is applied to unless all control planes succeeded; nil if and only if every node has nothing to apply, or is applied to and then stabilises where that is waited for. |
| `ApplyRun.EachAtMostOnce` | internal/cmd/apply/apply.go:127-151 | No node is applied to twice, and nil means that each was applied to. |
| `ApplyRun.SchedulesExist` | internal/nodepool/nodepool.go:99-155 | For every vector of results and every limit there is a complete execution of the pool. |
| `ApplyRun.PoolSucceedsIff` | internal/nodepool/nodepool.go:146-154 | For nodes that succeed or fail by themselves, every complete run of the pool has the same verdict. |
| `ApplyRun.Check` | internal/cmd/apply/apply.go:53-56 | The checks as Execute sees them: the healthy nodes in order, or an error. |
| `ApplyRun.Execute` | internal/cmd/apply/apply.go:41-69 | Failed checks touch nothing; otherwise the error reported is exactly that of applying or of bootstrapping, and a bootstrap is requested only after every remaining node was applied to, only of the first control plane, never in a dry run. |
| `ApplyRun.ApplyAndBootstrap` | internal/cmd/apply/apply.go:58-68 | The part after the checks: what is applied to, which error is returned, which bootstrap requests are sent. |
| `InstallerImage.ImageText` | internal/topf/node.go:68-84 | The image in full: each of factory, platform and version is the first set of node, cluster and default; the schematic is the resolved one if there is one; the version has one v, whether or not its setting does. |
| `InstallerImage.LeadingVIsOptional` | internal/topf/node.go:76 | A version setting with a v in front means the same as without it. |
| `InstallerImage.ExtractIsTheGreedySplit` | internal/cmd/upgrade/upgrade.go:653-668 | The backward search returns a pair if and only if it is the split of the input that the pattern's greedy matching prefers. |
| `InstallerImage.RoundTripIff` | internal/topf/node.go:83 | Parsing returns the printed schematic and version if and only if no part contains a newline, the schematic is alphanumeric, and the version is non-empty and does not itself end like an image. |
| `InstallerImage.InstallerImageRoundTrip` | internal/topf/node.go:71-84 | The same for the image of a node: what comes back is the resolved schematic, or the default one, and the version setting without its v. |
| `InstallerImage.NoSlashNothingHidden` | internal/cmd/upgrade/upgrade.go:655 | A version without a slash meets the last condition. |

## Left out

- Talos, COSI and Kubernetes clients, TLS, kubeconfig and certificates, SOPS, vals and provider binaries: foreign code; their answers are parameters.
- Prompts, flags, logging, tables and YAML output: a prompt is a boolean, logging has no effect on the model.
- YAML decoding, strategic merge, templates and the generation of Talos configurations: the model starts from decoded trees and generated images. Maps with keys that are not strings are the Scalar case, since the code ignores them.
- The regular expressions of the node filter and of vals references: any predicate on text.
- `supportsLifecycleUpgrade`: its version comparison is a predicate choosing the flow; `toLegacyRebootMode` and `ParseMaxParallel` are value conversions only.
- Whether a gRPC error of status Canceled also wraps `context.Canceled` is the library's affair: a reply carries both facts.
- Time: deadlines, retry limits and the stabilisation window are events in a trace or the end of a list of attempts.
- A partly successful inner write: a failing write is taken to have written nothing.
- Node.Apply and its strategic merge: an answer per node. The disruption budget is stated for upgrades only; an apply run has the same two layers with a shorter node protocol.
- Goroutines that panic, and cancelled contexts other than as failing calls.
- The internals of `singleflight.Group`, channels, `atomic.Bool` and the mutexes: one atomic step each, as their documentation promises. The writer's methods are modelled as whole calls under its lock.
- The library's sort algorithm: its contract for a stable sort, which has one result.
- The two loops of `slices.DeleteFunc` are one loop with the same result.
- Gathering node information runs one goroutine per node, each writing its own node: modelled as a function of the node.
- `Append`: the capacity of a grown slice is unspecified, as in Go; any larger one may be chosen.
- `Pool.RunInOrder`: abstracts each upgrade to its success; which calls an upgrade makes is the matter of `NodeUpgrade`.
- `NodeUpgrade.Machine.UpgradeNodeLegacy`: the cordon and drain that old Talos versions perform on the server are not counted as this run's cordon.
- `UpgradePlan.Plan`: holds for any parser of images; `InstallerImage.Extract` is the one the code uses, `semver` is not part of this model.
- reset, talosconfig, schematic-ids, secrets bundles, patch folders and the schematic resolver's HTTP calls.
