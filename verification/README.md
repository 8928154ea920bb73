# Tarmak in Dafny

A model of the parts of tarmak whose correctness depends on unbounded inputs or on whole runs, with proofs.
Tarmak builds and operates Kubernetes clusters on AWS; `wing` is its agent on each instance.

| file | what it models |
|---|---|
| `Text.dfy` | Go strings: byte order, sorting, decimals, `strings.Split` on dashes |
| `HostKeyTags.dfy`, `HostKeyRoundTrip.dfy` | SSH host keys cut into EC2 tags by one program and put together by another |
| `TagControl.dfy` | the function that writes those tags once, and the whole path from request to host keys |
| `WingProtocol.dfy` | publishing a manifest, asking for a converge, reporting: a state machine over the steps of any number of uploaders, runs and controller decisions |
| `WingInvariant.dfy` | the protocol's invariant, kept by every step |
| `WingGuarantees.dfy` | what holds in every run of that protocol, and two runs that show what does not |
| `WingOthers.dfy` | what the steps of other parties leave alone |
| `WingReports.dfy` | what a stored report says, and when it is stored |
| `WingOnce.dfy` | when one request causes at most one converge |
| `WingWait.dfy` | waiting for convergence, and what its success says |
| `WingCode.dfy` | the code of each party, call by call, with any steps of the others in between: it takes the protocol's steps |
| `ConvergeRun.dfy` | the reports of one converge |
| `KnownHosts.dfy` | reconciling `known_hosts` with the keys of the hosts |
| `TerraformApply.dfy` | plan, inspect, approve, apply |
| `PlanPaths.dfy` | the paths of an apply, resolved by their text |
| `EnvironmentDestroy.dfy` | the order in which an environment is destroyed |
| `RemoteState.dfy` | removing a cluster's state from a shared lock table and versioned bucket |
| `ConfigStore.dfy` | the configuration file's lists, changed in place |
| `ConfigHistory.dfy` | what those lists hold after any sequence of operations |
| `ProxyPorts.dfy` | default ports of logging sinks |
| `HostAliases.dfy` | host aliases numbered by role |
| `Networks.dfy` | overlap of address blocks |
| `FeatureGates.dfy` | feature gates merged and rendered for five components |

`dafny verify dfyconfig.toml` checks everything.

Calls to AWS, terraform, puppet and the API server act on modelled stores. Whether a call succeeds, what a
person answers, what puppet returns and which order Go visits a map in are parameters or arbitrary choices, and
the theorems hold for all of them.

## Where the code does not keep what it promises

Most of these come with the exact condition under which the code does keep its promise.

- A host key comes back only if its length modulo 255 is 1 to 250, it needs no more chunks than come before the
  next key's first tag in string order, at most ten (or is one byte over), and no chunk but the last ends in the
  marker (`ReadChunksExact`, `RoundTrip`). Names that do not extend each other by a dash always have all ten
  (`SeparatedSpan`). The reader panics exactly when the length of one of these keys is a multiple of 255, the chunk
  of its marker is among those followed, and no earlier chunk ends in the marker (`PanicsExactly`,
  `ReaderPanicsExactly`).
- A later tag request with other keys is not always a mismatch: it is accepted, and nothing is written, if each key
  that is stored is repeated, or is continued where key and marker fill whole chunks (`LaterRequestExactly`).
- Timestamps tell seconds apart, so one request can cause two converges (`TwoConvergesForOneRequest`); it cannot
  once the clock advanced before a stored report that the cache has seen (`AtMostOneConverge`,
  `OneConvergePerRequest`). A report of a run
  that fetched an older manifest can hide a request (`OlderRunHidesRequest`).
- Waiting for convergence succeeds on a status older than the request exactly when no report was stored since and
  the status before it was Converged (`SuccessMeans`), which is always possible (`StaleSuccess`).
- Converged does not mean that puppet succeeded (`ConvergedDespiteFailure`).
- `WriteConfig` ends exactly when no host, at its turn, is stuck: mismatched again by lines that the rewrite left
  because they do not spell its address out, such as a wildcard or a hashed name (`Ends`, `RetriesForEver`). A retry drops exactly the blank lines and the lines whose text
  contains the address, also those of other hosts (`PassLosesExactly`, `WriteConfig`).
- An apply whose plan file location is not the file that was inspected can destroy volumes nobody approved
  (`OtherFileSlipsThrough`, `SafeExactly`). The location is inspected as it was given but applied expanded, so this
  is the case for a location that still starts with `~/` (`SameFileForApply`, `TildeSafeExactly`).
- Deleting the state bucket never ends, unless a call fails, if S3 refuses to delete a version, as per-object errors are ignored
  (`DeletionEndsExactly`). After a round a key is live exactly when its newest entry that was not listed, or was
  refused, is a version (`RevivedExactly`); so a deleted state with more than a page of entries comes back to
  life until the next round (`RoundCanRevive`), and one with less does not (`OnePageRevivesNothing`).
- Removing an environment while ranging over the list goes wrong on repeated names (`RangeRemovalExact`).
  With an override flag the stored current cluster can be left dangling (`CurrentSurvivesExactly`).
- Two single roles `x` and `x-1` on one host get aliases that depend on the order of a map and may be equal
  (`IntendedInEveryOrder`, `AliasesDistinctExactly`).

## Model

| member | source | states |
|---|---|---|
| HostKeyTags.CreateTags | pkg/tagging_control/tagging_control.go:212-231 | the tags are exactly the chunks of all keys: every chunk is under its name, and every tag is a chunk |
| HostKeyTags.SplitKey | pkg/tagging_control/tagging_control.go:218-227 | adding one key adds its chunks and changes no other key's |
| HostKeyTags.TagNameInjective | pkg/tagging_control/tagging_control.go:224-225 | no two pairs of name and index share a tag |
| HostKeyTags.WrittenUnique | pkg/tagging_control/tagging_control.go:212-231 | the chunks determine the tag map, whatever the order of the keys |
| HostKeyTags.PiecesConserve | pkg/tagging_control/tagging_control.go:216-227 | the chunks are 1 to 255 bytes long and join up to data plus marker |
| HostKeyTags.Host.SSHHostPublicKeys | pkg/tarmak/provider/amazon/hosts.go:67-114 | sorts the tags in place, losing none, and returns the reassembly of the sorted tags or the panic |
| HostKeyTags.RebuildTexts | pkg/tarmak/provider/amazon/hosts.go:75-114 | the loop over sorted tags computes the step-by-step reassembly, with every index and slice in bounds or reported as a panic |
| HostKeyTags.AppendEntry | pkg/tarmak/provider/amazon/hosts.go:93-113 | the treatment of an awaited chunk: marker cut with one byte more, next key computed, unparsable index ends the key |
| HostKeyTags.ReadChunksExact | pkg/tarmak/provider/amazon/hosts.go:67-114 | for any number of chunks followed, a key alone reads back as its data without the last byte if and only if a length and marker condition holds |
| HostKeyTags.ReadBackExact | pkg/tarmak/provider/amazon/hosts.go:67-114 | the same for the ten chunks that string order lets the reader follow |
| HostKeyTags.PanicsExactly | pkg/tarmak/provider/amazon/hosts.go:95-98 | for any number of chunks followed, reading a key alone panics if and only if its length is a multiple of 255, its marker's chunk is followed and no earlier chunk ends in the marker |
| HostKeyTags.TagsDoNotInterleave | pkg/tarmak/provider/amazon/hosts.go:72-73 | if no name extends another by a dash, the tags of two keys do not interleave in string order |
| HostKeyTags.DashFreeIsSeparated | pkg/tarmak/provider/amazon/hosts.go:72-73 | names without dashes satisfy that condition |
| HostKeyTags.ChunkOrder | pkg/tarmak/provider/amazon/hosts.go:72-73 | string order agrees with numeric order up to chunk 9, and puts chunk 10 before chunk 9 |
| HostKeyTags.TagNameParts | pkg/tarmak/provider/amazon/hosts.go:100-110 | parsing a tag name and adding one gives the name of the next chunk |
| HostKeyTags.StartTags | pkg/tarmak/provider/amazon/hosts.go:83-87 | only chunk 0 of a name ending in `key` starts a key |
| HostKeyRoundTrip.ReadsEachKeyAlone | pkg/tarmak/provider/amazon/hosts.go:67-114 | with any keys and unrelated tags mixed in, each key is read, in tag order, as if it were alone and only the chunks before the next key's start were followed; a panic means some key alone panics |
| HostKeyRoundTrip.SortedIsSetup | pkg/tarmak/provider/amazon/hosts.go:72-73 | sorting any listing of the tags sets this up |
| HostKeyRoundTrip.RoundTrip | pkg/tarmak/provider/amazon/hosts.go:67-114 | whatever the names and the order of the listing, all keys whose names end in `key` come back in tag order without their last byte if and only if each is restorable from the chunks before the next one starts; other names are never looked at |
| HostKeyRoundTrip.ReaderPanicsExactly | pkg/tarmak/provider/amazon/hosts.go:67-114 | whatever the names, the listing and the unrelated tags, the reader panics if and only if one of the keys does alone with the chunks before the next one |
| HostKeyRoundTrip.SeparatedRoundTrip | pkg/tarmak/provider/amazon/hosts.go:67-114 | for names that do not extend each other by a dash the condition is on each key alone, with ten chunks |
| HostKeyRoundTrip.SeparatedSpan | pkg/tarmak/provider/amazon/hosts.go:72-73 | such names have all ten chunks before the next key |
| HostKeyRoundTrip.TagOrderExists | pkg/tarmak/provider/amazon/hosts.go:72-73 | any set of keys can be listed in tag order, so the round trip covers every set |
| HostKeyRoundTrip.OtherNamesAreUnrelated | pkg/tarmak/provider/amazon/hosts.go:79-91 | chunks of other names that do not end in `key` do not matter |
| TagControl.Instance.CheckTagsAgainstInstance | pkg/tagging_control/tagging_control.go:164-209 | fails exactly on a conflict with existing tags, and otherwise tells whether there are tarmak tags |
| TagControl.Instance.HandleRequests | pkg/tagging_control/tagging_control.go:61-110 | the new tags and the outcome of a request, for which `AnsweredExactly` says when it is which |
| TagControl.AnsweredExactly | pkg/tagging_control/tagging_control.go:61-110 | a verified request is a mismatch if and only if some prefixed tag of the instance is absent from its tags or differs there, and accepted if and only if none is and tags exist or can be created; only an accepted one writes |
| TagControl.WrittenOnce | pkg/tagging_control/tagging_control.go:79-110 | once tarmak tags exist no sequence of requests changes any tag |
| TagControl.AcceptedRequestRepeats | pkg/tagging_control/tagging_control.go:79-110 | an accepted request succeeds again later, whatever came between, and writes nothing |
| TagControl.OtherTagsKept | pkg/tagging_control/tagging_control.go:79-110 | tags without the prefix survive every sequence of requests |
| TagControl.FirstWriter | pkg/tagging_control/tagging_control.go:79-110 | finds the first request that is verified and has keys |
| TagControl.FirstWriterWins | pkg/tagging_control/tagging_control.go:79-110 | the final tags are those of that request, whatever follows |
| TagControl.IncludesExactly | pkg/tagging_control/tagging_control.go:189-204 | the tags of some keys include those of the first ones if and only if each of these is there, or is continued where key and marker fill whole chunks |
| TagControl.LaterRequestExactly | pkg/tagging_control/tagging_control.go:79-83 | after the first writer and any other requests, a verified request is accepted if and only if it repeats the first writer's keys or continues them so, and is a mismatch otherwise; nothing is written |
| TagControl.HostKeysOfFirstWriter | pkg/tarmak/provider/amazon/hosts.go:67-114 | end to end: after any requests the reader returns the first writer's keys with names ending in `key` if and only if they are restorable from the chunks before the next key, and panics if and only if one of them does alone |
| WingInvariant.StepKeeps | pkg/wing/puppet.go:294-326 | every step of every party keeps the protocol's invariant and only adds to the stores |
| WingInvariant.Reachable | pkg/wing/registry/wing/instance/strategy.go:68-74 | the invariant holds after any sequence of steps |
| WingInvariant.RequestOrigin | pkg/tarmak/cluster/configuration.go:57-67 | the request in a version is that of the latest asking version, with nothing but reports since |
| WingInvariant.StampsMonotone | pkg/wing/admission/plugin/instanceinittime/admission.go:41-56 | versions that follow one another by updates are stamped in order |
| WingGuarantees.PointerNamesStoredManifest | pkg/tarmak/provider/amazon/upload_config.go:43-80 | with any uploaders, each able to stop between writes, every pointer ever written names a stored object of that hash, and a reader that has the pointer gets it |
| WingGuarantees.RequestedConvergeIsFresh | pkg/wing/controller.go:91-108 | a run started because of a request stored after some moment fetches a manifest no older than any published by that moment |
| WingGuarantees.RequesterIsServed | pkg/tarmak/cmd.go:73-87 | so the run a process's request causes fetches that process's manifest or a later one |
| WingGuarantees.NothingErased | pkg/wing/puppet.go:294-326 | in every run a stored report leaves the spec as it was, a stored request leaves the status and the dry-run request as they were, and no stored stamp is zero |
| WingReports.StoredAsGiven | pkg/wing/puppet.go:294-326 | whatever others do before it reaches the store, a report is stored if and only if the instance is still as it was found, and what is stored is the state given, the time of its admission and no dry run |
| WingReports.ShownWasSent | pkg/wing/puppet.go:317-318 | in every run each state the instance ever shows was sent by some report |
| WingGuarantees.UpdateStampsNeverDecrease | pkg/wing/puppet.go:317-318 | stored update stamps never decrease while the object is not deleted |
| WingGuarantees.SkipsExactlyAfterReport | pkg/wing/controller.go:91-108 | a request is skipped if and only if a report stored after it has a strictly later stamp |
| WingGuarantees.StartSawNoLaterReport | pkg/wing/controller.go:91-108 | a decision that started a run had seen no report stored after the request with a later stamp |
| WingOnce.StartsExactly | pkg/wing/controller.go:91-108 | a decision starts a run for a request if and only if it is the latest one seen and no report seen since is stamped later |
| WingOnce.NeverAgain | pkg/wing/controller.go:91-108 | once a later-stamped report was seen, no decision ever starts a run for that request |
| WingOnce.ReportIsLater | pkg/wing/admission/plugin/instanceinittime/admission.go:41-56 | a report the started run admits after the clock advanced is stored with a later stamp than the request |
| WingOnce.AtMostOneConverge | pkg/wing/controller.go:57-111 | in every run: a request starts a run, the clock advances, the run's report is stored and the cache catches up; then no second run is ever started for it |
| WingOnce.OneConvergePerRequest | pkg/wing/controller.go:34-111 | over the whole life of a controller that decides on one item at a time and finishes each run it starts before the next decision, no request starts two runs |
| WingWait.AllInstancesConverged | pkg/tarmak/cluster/wing.go:91-108 | the two loops over instances by state succeed exactly when no listed state is other than Converged, also when nothing is listed |
| WingWait.WaitForConvergance | pkg/tarmak/cluster/configuration.go:76-130 | succeeds exactly at a listing that did not fail and looks converged, the first such of at most 100, whatever others do between them; otherwise the listing failed, the wait was cancelled by then, or all 100 were looked at |
| WingWait.SuccessMeans | pkg/tarmak/cluster/configuration.go:76-130 | in every run, after a request: success if and only if the latest report since says Converged, or, without one, the status before the request did |
| WingWait.StaleSuccess | pkg/tarmak/cluster/configuration.go:76-130 | on any instance that last converged a process can ask and wait successfully before any run has reported |
| WingGuarantees.TwoConvergesForOneRequest | pkg/wing/controller.go:91-108 | within one second a request is served twice, with all reports stored and seen |
| WingGuarantees.OlderRunHidesRequest | pkg/wing/controller.go:94-97 | a run that fetched an older manifest reports after the request, and the request is skipped |
| WingCode.InstanceObject.AdmitAt | pkg/wing/admission/plugin/instanceinittime/admission.go:41-56 | the plugin's in-place changes are those of the protocol: zero stamps and no others become the time |
| WingCode.Stores.UploadConfiguration | pkg/tarmak/provider/amazon/upload_config.go:43-80 | whatever others do between the writes and whichever call fails, the code takes a prefix of the publishing steps in order, and succeeds, with all of them, exactly if no call fails |
| WingCode.Stores.PutManifest | pkg/tarmak/provider/amazon/upload_config.go:55-71 | the second write is the protocol's step only because the rewound reader yields the whole content |
| WingCode.Stores.ReapplyConfiguration | pkg/tarmak/cluster/configuration.go:42-73 | list, change, update takes a prefix of the asking steps, and a request is stored exactly when no call fails, there was an instance and its version is still the stored one at the update |
| WingCode.Stores.GetManifest | pkg/wing/provider/provider.go:20-41 | the provider loop takes the hash provider's calls, then the legacy call only if they brought nothing, returns exactly what a provider delivered, and fails only if the legacy object cannot be had either |
| WingCode.Stores.GetByHash | pkg/wing/provider/hash/hash.go:24-64 | pointer, then the object it named, even if the pointer moved in between; no call after one that failed; if both calls get through and something was published, the manifest is delivered |
| WingCode.Stores.ReportStatus | pkg/wing/puppet.go:294-326 | a get that fails sends nothing; otherwise get and update, or create, takes the reporting steps in order; the report is stored exactly when both calls get through and the instance is as it was found, and then the instance says the state given |
| WingCode.Stores.Converge | pkg/wing/puppet.go:155-173 | a whole converge takes a report's steps, fetching steps, then the steps of exactly the reports that `ConvergeRun.Reports` lists, with any steps of others in between and any of the calls failing; a last report that is stored says Error if set-up failed and Converged if not, so that waiting succeeds on it exactly if it worked |
| WingCode.Stores.Sync | pkg/wing/controller.go:57-111 | the controller's nested tests make the protocol's decision on the cached copy |
| WingOthers.OthersKeepCli | pkg/tarmak/cluster/configuration.go:42-73 | no steps of others change how far a process has come |
| WingOthers.OthersKeepRun | pkg/wing/puppet.go:155-173 | nor how far a run has come |
| WingOthers.StillARun | pkg/wing/puppet.go:155-173 | steps taken by the code from a reachable state end in a reachable state, so the invariant holds there |
| ConvergeRun.Wing.RetryPuppet | pkg/wing/puppet.go:86-150 | the retried closure reports once per attempt, with all messages and codes so far |
| ConvergeRun.Wing.RunPuppet | pkg/wing/puppet.go:30-153 | the reports, the final status and the error of a run, for a failing and a working setup |
| ConvergeRun.Wing.Converge | pkg/wing/puppet.go:155-173 | the reports of one converge, in order |
| ConvergeRun.MadeIsPrefix | pkg/wing/puppet.go:91-150 | the attempts made are those up to the first success |
| ConvergeRun.MadeExactly | pkg/wing/puppet.go:92-97 | an attempt is made if and only if none before it ended without an error and with return code 0 |
| ConvergeRun.ReportShows | pkg/wing/puppet.go:95-122 | every report on puppet names the manifest and shows each attempt so far: its return code, and its output alone if it succeeded, else after an error |
| ConvergeRun.History | pkg/wing/puppet.go:30-173 | after k attempts a report has k messages and k codes and extends the one before; the last is Error with one message exactly when no attempt was made, else Converged |
| ConvergeRun.ConvergedDespiteFailure | pkg/wing/puppet.go:147-152 | the end is Converged whether or not any attempt succeeded |
| KnownHosts.SSH.RewriteWithout | pkg/tarmak/ssh/ssh.go:130-149 | the rewritten file is the old one without lines that contain the address |
| KnownHosts.SSH.CheckHostKeys | pkg/tarmak/ssh/ssh.go:102-175 | one pass over a host's keys against the file as it was before the pass |
| KnownHosts.ValidateExactly | pkg/tarmak/ssh/ssh.go:102-124 | a key is unknown if no line matches, valid if the first matching line of its type has it, and else a mismatch |
| KnownHosts.SSH.WriteConfig | pkg/tarmak/ssh/ssh.go:95-191 | on every file: it ends if and only if no host is stuck at its turn, then within two rounds per host; of the lines it does not write itself exactly those are left that are not blank and mention no retried host, or all without a retry; a finished run has an alias for every host and, if addresses are independent, every key of every host validates; if lines spell their addresses out there is at most one retry per host |
| KnownHosts.PlainEnds | pkg/tarmak/ssh/ssh.go:95-191 | if all lines spell their addresses out, no host is ever stuck |
| KnownHosts.TableExactly | pkg/tarmak/ssh/ssh.go:186-190 | the host table has an alias exactly if it is some host's first, and then the last such host |
| KnownHosts.PassReconciles | pkg/tarmak/ssh/ssh.go:102-175 | a pass either serves the host or forgets it so that the next pass cannot fail |
| KnownHosts.PassServes | pkg/tarmak/ssh/ssh.go:102-175 | a pass serves its host and unserves no other |
| KnownHosts.RetriesForEver | pkg/tarmak/ssh/ssh.go:124-154 | a stuck host is retried for ever, one that is not at most once |
| KnownHosts.PassLosesExactly | pkg/tarmak/ssh/ssh.go:124-154 | a pass loses a line exactly when a key of the host is a mismatch and the line is blank or the address occurs in it somewhere |
| KnownHosts.PassGainsExactly | pkg/tarmak/ssh/ssh.go:156-175 | a pass adds a line exactly when no line matches the host, and then one for each of its keys |
| KnownHosts.ForeignLineLost | pkg/tarmak/ssh/ssh.go:140-149 | an example: an address that is part of another loses the other's line |
| TerraformApply.IsDestroyingEBSVolume | pkg/terraform/plan/plan.go:30-52 | reports a plan if and only if some module has a key that is `aws_ebs_volume`, alone or followed by a dot, with change destroy or destroy-and-create, and names exactly those volumes |
| TerraformApply.DestroysExactly | pkg/terraform/plan/plan.go:36-38 | the test on the first part of the key finds exactly those keys and changes |
| TerraformApply.VolumeNameExactly | pkg/terraform/plan/plan.go:39-44 | a volume is named by its key, after the modules below the root if it is in one |
| TerraformApply.Terraform.PlanWrapper | pkg/terraform/terraform.go:496-514 | the file, the change flag and the plan read back after the write |
| TerraformApply.Terraform.Plan | pkg/terraform/terraform.go:388-467 | planning, inspection, approval and the taint-and-replan branch |
| TerraformApply.Terraform.Apply | pkg/terraform/terraform.go:469-494 | what is applied, read from the location path |
| TerraformApply.AppliesOnlyWhatWasCleared | pkg/terraform/terraform.go:388-514 | if both paths are one file, only a plan read after its last write that destroys no volume or was approved is applied |
| TerraformApply.AppliesExactly | pkg/terraform/terraform.go:388-494 | with one file an apply applies the plan written last if and only if planning works, losing a volume is approved by both flags or the answer, the last planning run found changes and it is not cancelled; else nothing; and exactly when it fails |
| TerraformApply.PlansExactly | pkg/terraform/terraform.go:388-445 | planning alone asks nothing and succeeds if and only if planning works and the plan written last loses no volume |
| TerraformApply.OtherFileSlipsThrough | pkg/terraform/terraform.go:619-640 | if they are not, some files and answers apply a plan nobody approved |
| TerraformApply.SafeExactly | pkg/terraform/terraform.go:619-640 | apply is always safe if and only if the paths are one file, both automatic flags are set, or a path does not resolve |
| PlanPaths.OpenShow | pkg/tarmak/utils/files.go:10-17 | an expanded path opens the same file from every directory |
| PlanPaths.DownAndUp | pkg/tarmak/utils/files.go:10-17 | a name after a path goes down into it, and two dots after that lead back |
| PlanPaths.SameFileForApply | pkg/terraform/terraform.go:388-412 | with the flags an apply has, the two paths are one file if and only if the location is the default, does not start with `~`, or the literal and the expanded path coincide |
| PlanPaths.TildeSafeExactly | pkg/terraform/terraform.go:469-494 | with a location `~/<x>` apply is safe if and only if both flags are set or the home directory is called `~` in the working directory |
| EnvironmentDestroy.CmdTarmak.TerraformDestroy | pkg/terraform/terraform.go:188-268 | a prefix of: one preparation if none was made, start under it, end; all of it exactly on success |
| EnvironmentDestroy.CmdTarmak.Destroy | pkg/tarmak/cmd.go:106-120 | nothing happens but a prefix of those events, and success means all of them |
| EnvironmentDestroy.CmdTarmak.DestroyAndForget | pkg/tarmak/cmd.go:149-155 | destroys one cluster, then removes its metadata; success means both happened |
| EnvironmentDestroy.CmdTarmak.DestroyEnvironment | pkg/tarmak/cmd.go:122-229 | for every cluster list and failure pattern what happens is a prefix of the whole course, hence in order, and all of it on success; it fails exactly if a step does, and panics exactly without a hub |
| EnvironmentDestroy.CmdTarmak.DestroyClusters | pkg/tarmak/cmd.go:145-168 | a prefix of: every cluster but the hub prepared, destroyed and forgotten in turn, then the hub; so it stops at the first failure |
| EnvironmentDestroy.OrderMeans | pkg/tarmak/cmd.go:143-226 | in order means: the hub starts only after every other cluster's destroy and metadata removal, the environment leaves the configuration only after all, and after it was archived, and each destroy runs after its own preparation |
| RemoteState.Amazon.DeleteRemoteStateBucket | pkg/tarmak/provider/amazon/tf_remote_state.go:393-427 | on every bucket versions are only ever removed and success means no bucket; if S3 refuses nothing it returns within one call more than there are versions, and with a refused version it never succeeds |
| RemoteState.Amazon.Remove | pkg/tarmak/provider/amazon/amazon.go:420-455 | for every bucket and every pattern of failing calls no other cluster's live state or lock item is lost, it fails exactly if a call does or the deletion is not over, and without failures the cluster's are gone and unused stores too; if S3 refuses nothing it returns |
| RemoteState.Amazon.CountItems | pkg/tarmak/provider/amazon/tf_remote_state.go:490-509 | an error counts as one item, so the table stays |
| RemoteState.Amazon.BucketEmpty | pkg/tarmak/provider/amazon/tf_remote_state.go:443-457 | empty exactly when no key is live; an error counts as not empty |
| RemoteState.ObjectsToDelete | pkg/tarmak/provider/amazon/tf_remote_state.go:531-549 | all markers, then all versions, with their own key and id |
| RemoteState.MarkerHides | pkg/tarmak/provider/amazon/tf_remote_state.go:429-441 | a delete marker hides its key and no other |
| RemoteState.DeletedAre | pkg/tarmak/provider/amazon/tf_remote_state.go:414-423 | a round removes the given versions and no others |
| RemoteState.DeletionEndsExactly | pkg/tarmak/provider/amazon/tf_remote_state.go:393-427 | no more rounds than versions if none is refused; a bucket with a refused version never empties |
| RemoteState.FirstPage | pkg/tarmak/provider/amazon/tf_remote_state.go:511-529 | the first page of S3's listing: keys in byte order, versions of a key newest first, markers apart |
| RemoteState.LiveAfterExactly | pkg/tarmak/provider/amazon/tf_remote_state.go:414-423 | a key is live after any deletion if and only if one of its versions stays while all newer entries of the key go |
| RemoteState.RevivedExactly | pkg/tarmak/provider/amazon/tf_remote_state.go:414-426 | the same for the round of a page and the versions S3 refuses |
| RemoteState.OnePageRevivesNothing | pkg/tarmak/provider/amazon/tf_remote_state.go:414-426 | a bucket that fits on a page, with nothing refused, has no live key after the round |
| RemoteState.RoundCanRevive | pkg/tarmak/provider/amazon/tf_remote_state.go:414-426 | in a bucket with one key and more than a page of entries, the key is live after the first round if and only if the newest entry not listed is a version, whatever hid it before |
| ConfigStore.RangeRemove | pkg/tarmak/config/config.go:284-288 | the loop on the backing array of the slice yields what the scan describes, or panics when it does |
| ConfigStore.RangeRemovalExact | pkg/tarmak/config/config.go:284-288 | it equals an order-preserving filter if and only if the name is unique, or its occurrences are apart and not last |
| ConfigStore.RemoveClusters | pkg/tarmak/config/config.go:290-295 | the index loop equals an order-preserving filter on any list |
| ConfigStore.Config.RemoveEnvironment | pkg/tarmak/config/config.go:283-308 | the configuration after the removal; on success it is written; after a failure the file is as it was, except that it may be written when the current cluster was replaced and only the second write fails |
| ConfigStore.Config.AppendProvider | pkg/tarmak/config/config.go:253-266 | appends exactly when the name is new, and succeeds exactly if it is and the write does not fail |
| ConfigStore.Config.AppendEnvironment | pkg/tarmak/config/config.go:268-281 | appends exactly when the name is new, and succeeds exactly if it is and the write does not fail |
| ConfigStore.Config.AppendCluster | pkg/tarmak/config/config.go:319-332 | appends exactly when the pair of names is new, and succeeds exactly if it is and the write does not fail |
| ConfigStore.ClustersLeft | pkg/tarmak/config/config.go:290-295 | the clusters left are those of other environments |
| ConfigStore.NamesStayUnique | pkg/tarmak/config/config.go:253-341 | over every sequence of appends and removals names stay unique, so removals are filters and never panic |
| ConfigHistory.NothingLost | pkg/tarmak/config/config.go:253-341 | over every sequence of appends and removals all providers, and the environments and clusters that no operation removes, stay in order and before everything added |
| ConfigHistory.HoldsExactly | pkg/tarmak/config/config.go:253-341 | over every such sequence a provider, environment or cluster is there at the end if and only if it was there or was appended under a name new by then, and nothing later removes its environment |
| ConfigStore.CurrentSurvivesExactly | pkg/tarmak/config/config.go:123-172 | while clusters remain, the current cluster still exists after a removal if and only if it was of another environment, or the cluster in effect (the flag's, if given) is of the removed one and so gets replaced |
| ConfigStore.CurrentSurvivesWithoutFlag | pkg/tarmak/config/config.go:297-305 | without the flag it always does |
| ConfigStore.CurrentAfterRemoval | pkg/tarmak/config/config.go:297-305 | a removal changes the current cluster if and only if the one in effect is of that environment and a cluster of another is left, and then to the first of these |
| ConfigStore.CurrentKept | pkg/tarmak/config/config.go:253-332 | no sequence of appends changes it |
| ConfigStore.CurrentSurvivesAll | pkg/tarmak/config/config.go:253-341 | over every sequence of appends and removals without the flag, the current cluster exists all the time if and only if some cluster does |
| ProxyPorts.AllocatePort | pkg/apis/cluster/v1alpha1/defaults.go:179-199 | returns the smallest port from 9200 that no sink uses |
| ProxyPorts.Cluster.SetDefaults | pkg/apis/cluster/v1alpha1/defaults.go:126-158 | defaults the sinks in place, one after the other |
| ProxyPorts.DefaultsExactly | pkg/apis/cluster/v1alpha1/defaults.go:126-158 | every field that is given stays; a missing host is the local one, TLS is on unless turned off, and a missing port is 443 with it and 80 without |
| ProxyPorts.DefaultedPorts | pkg/apis/cluster/v1alpha1/defaults.go:126-199 | explicit ports stay; a defaulted port is below 9200 plus the number of sinks, differs from every other sink's, and is the smallest free at its turn |
| ProxyPorts.FirstFreeBound | pkg/apis/cluster/v1alpha1/defaults.go:179-199 | pigeonhole: n sinks, one of them without a port, leave a port free among the first n |
| ProxyPorts.DefaultedTwice | pkg/apis/cluster/v1alpha1/defaults.go:126-158 | defaulting twice equals once |
| HostAliases.Hosts.Number | pkg/tarmak/provider/amazon/hosts.go:239-249 | each role is numbered in the order of its occurrences, and the hosts are grouped by role |
| HostAliases.Hosts.Rename | pkg/tarmak/provider/amazon/hosts.go:256-260 | the number is dropped from all aliases of one host that read `<role>-1`, and from no others |
| HostAliases.Hosts.AssignAliases | pkg/tarmak/provider/amazon/hosts.go:239-261 | the aliases are those of some order of the roles; without overlapping single roles they are the intended ones |
| HostAliases.IntendedInEveryOrder | pkg/tarmak/provider/amazon/hosts.go:251-261 | they are the intended ones in every order if and only if no host has two single roles `x` and `x-1` |
| HostAliases.NoGaps | pkg/tarmak/provider/amazon/hosts.go:239-249 | a role's numbers are 1 to its count without a gap |
| HostAliases.FinalTexts | pkg/tarmak/provider/amazon/hosts.go:239-261 | the intended aliases of a role read as the role alone if it is single, and else as the role, a dash and each decimal from 1 to the count |
| HostAliases.IndexInjective | pkg/tarmak/provider/amazon/hosts.go:239-249 | no two occurrences of a role get the same number |
| HostAliases.FinalDistinctExactly | pkg/tarmak/provider/amazon/hosts.go:239-261 | the intended aliases differ if and only if no single role is spelt like a numbered alias |
| HostAliases.AliasesDistinctExactly | pkg/tarmak/provider/amazon/hosts.go:239-261 | the aliases the code assigns differ in every order if and only if, besides, no host has two single roles `x` and `x-1` |
| HostAliases.EveryHostListed | pkg/tarmak/ssh/ssh.go:186-190 | then the table keyed by first alias has every host |
| Networks.TwoWayTest | pkg/tarmak/utils/networks.go:23-38 | one block contains the other's base address if and only if an address lies in both ranges |
| Networks.ContainsExactly | pkg/tarmak/utils/networks.go:28 | masking tells exactly the addresses from the lowest one of the block on, as many as its size |
| Networks.NetworkOverlap | pkg/tarmak/utils/networks.go:23-38 | reports exactly the pairs whose ranges share an address, so none exactly when all blocks are disjoint |
| FeatureGates.DuplicateMapBool | pkg/tarmak/utils/maps.go:22-28 | a fresh map with the same entries |
| FeatureGates.MergeMapsBool | pkg/tarmak/utils/maps.go:13-20 | later maps win, only the base changes, and merging it into itself does nothing |
| FeatureGates.AddedExactly | pkg/tarmak/utils/maps.go:13-20 | what a merge adds for a gate is what the last of the maps says that has it |
| FeatureGates.FeatureGatesString | pkg/puppet/puppet.go:268-291 | the text of global gates, overridden by `PodPriority` if it applies, overridden by the component's; no existing map changes |
| FeatureGates.HieraData.AppendFeatureGates | pkg/puppet/puppet.go:206-249 | appends the variables of the five components in order; no call affects a later one |
| FeatureGates.VariablesExactly | pkg/puppet/puppet.go:206-249 | a component has a variable if and only if it has gates, with their text; pod priority is for three components, and only if overprovisioning is enabled |
| FeatureGates.ShowsExactly | pkg/puppet/puppet.go:284-290 | a line of the text says a gate is true, or false, if and only if it is |
| FeatureGates.ComponentShows | pkg/puppet/puppet.go:268-291 | so the text shows what the component says, or else pod priority if it applies, or else what holds for all |
| FeatureGates.RenderedOnce | pkg/puppet/puppet.go:284-290 | the text does not depend on the order in which the map is visited |
| FeatureGates.RenderingIsOne | pkg/puppet/puppet.go:280-290 | the text shows each gate once, in sorted order |
| FeatureGates.RenderingInjective | pkg/puppet/puppet.go:280-290 | different gates have different texts, if names have no newline |

## Left out

- Signature and certificate checks of a tag request: a request carries whether it was verified.
- Parsing the rebuilt host-key texts (`ssh.ParseAuthorizedKey`) and the rest of `SSHHostPublicKeys` after the loop.
- Concurrent tag requests for one instance: they are handled one at a time with atomic tag creation.
- More than one instance in the converge protocol: each instance's object has its own versions, and the uploads are shared.
- Terraform's own upload of the manifest, the file provider, and the requeue counter of the controller.
- S3 and DynamoDB consistency, and paging of the DynamoDB scan: reads see the last write.
- WingCode.Stores.UploadConfiguration: the process is new and the hash is that of the content, as its one caller has it; the KMS and client calls before the first write are not modelled.
- WingCode.Stores.Sync: assumes the protocol's invariant, which holds in every reachable state (`WingInvariant.Reachable`).
- WingWait.WaitForConvergance: the pauses between listings are steps of others.
- KnownHosts.SSH.WriteConfig: I/O errors, `@revoked` and `@cert-authority` lines and a last line without a newline are not modelled; the loop is watched for a given number of rounds because it need not end.
- RemoteState.Amazon.DeleteRemoteStateBucket: the recursion is watched for a given number of calls because it need not end.
- RemoteState.Amazon.Remove: no other writers while it runs, and the bucket has versioning on, as tarmak creates it.
- TerraformApply.Terraform.Plan: whether a plan updates puppet is a free input, as it depends on the order of a map in the source.
- PlanPaths.SameFileForApply: symbolic links are not modelled; a path is the file its text names.
- EnvironmentDestroy.CmdTarmak.DestroyEnvironment: the checks and prompts inside `Prepare` and `Destroy` are one outcome each.
- ConfigStore.Config.RemoveEnvironment: sharing of the slice's backing array with other slices, and a file truncated by a failing write, are not modelled.
- ConfigStore.CurrentSurvivesExactly: names without dashes, which is what the current-cluster parser supports.
- ProxyPorts.Cluster.SetDefaults: the sinks are distinct objects, so they are modelled as values.
- HostAliases.Hosts.AssignAliases: the hosts are distinct objects; their role and alias lists are rows of one object.
- Networks.NetworkOverlap: blocks are prefixes; IPv4-mapped IPv6 addresses and masks that are not prefixes are not modelled.
- FeatureGates.HieraData.AppendFeatureGates: a variable is a pair of component and text instead of one string.
- Command-line flags and prompts, log messages, terraform and puppet template rendering, tar and zip archives, packer image builds, the tables of instance sizes and firewall rules, and generated deep-copy and client code: single branches or fixed data, whose models would only repeat them.
