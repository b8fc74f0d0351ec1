# CPU-Pooler: a verified model

CPU-Pooler splits one decision, which physical CPUs a container runs on, over four
programs: a device plugin that advertises CPUs as devices, an admission webhook that
rewrites pods, a setter that writes cgroup CPU sets, and a process starter inside the
container. They talk to each other only through device IDs, environment variables, JSON
patches and cgroup files. This project models those programs in Dafny and proves what
each operation computes, what every run keeps, and that the programs agree.

`dafny verify dfyconfig.toml` checks the whole project.

## How it is built

Objects and loops of the programs are classes and methods with loops; each is proved
against a specification function or predicate, and the lemmas are about those.

- `GoText`, `CpuSets`, `Wrappers`: strings and number texts of Go, CPU sets, optional values.
- `Pools`, `DeviceIds`, `DevicePlugin`, `PreferredAllocation`: pools, the numbering of
  devices, announcement, allocation and the preferred allocation.
- `Isolation`: runs of a kubelet that hands each advertised device to one container at a
  time, and when such runs keep containers apart and off the shared and default pools.
  `Announcements` ties the runs and the preferred allocation to what the plugins announce.
- `Checkpoint`, `CorrectCpuset`, `CpusetOrder`: what the setter reads, what it may decide
  over all orders of the requests and the pools, and when that is only one set;
  `CpusetCases` says it on the names of resources and pools and on the kubelet's record.
- `CgroupTree`, `CgroupNode`, `SetHandler`, `CgroupRuns`: the cgroup directories, the
  setter's worker with retries and its reconciliation, and all interleavings of both with
  restarting containers. Every attempt, inspection and write decides anew.
- `Annotation`, `AnnotationCheck`, `ProcessStarter`: the pod annotation, its validation
  and the pinning of processes.
- `PoolRequests`, `CfsLimit`, `Webhook`: how the webhook reads limits, computes CFS quotas
  and builds its patch. `PodPatch`, `JsonPointer`, `ArgsText` interpret that patch under
  RFC 6902 (sections 4.1 and 4.3), RFC 6901 (sections 3 and 4) and RFC 8259 (sections 2, 5
  and 7); `WebhookEffect` and `WebhookRuns` prove what it does to a pod, `WebhookHistory` what
  repeated invocations do, each with a reading of its own. `WebhookVerdict` and
  `AdmittedPod` state on the fields of the pod which pods are admitted and what they become.
- `PodStatus`: the status fold that decides when the setter is triggered.
- `Handshake`: exactly when the setter is bound to write the set the starter waits for.
  `SampleConfig` holds the shipped configuration, on which `HandshakeExample` shows
  containers on which the programs agree and one on which they do not. `EndToEnd` goes on
  to the start of the processes; `EndToEndExample` shows that its premises can be met.

Go's map iteration is an arbitrary choice in loops or an arbitrary order passed in, so the
contracts hold for every order. I/O that can fail is a parameter or an arbitrary choice.

## Where the code and its documentation differ

The model follows the code. These results say exactly when the documented behaviour holds.

- A node may have one shared pool (README.md:130), but with an empty and a non-empty one
  the check depends on the map order (`Pools.VerdictSettledExactly`).
- `SelectPool` is documented to be exact and matches by prefix (`Pools.SelectExactly`). So
  the CPU set of a container may depend on Go's map order: `CpusetOrder.OneSetExactly` says
  exactly when it does not, `CgroupRuns.System.StaysExactly` what that means for the cgroup,
  and `HandshakeExample.PlainDisagrees` shows that it does in the shipped configuration.
- The preferred allocation can miss a free run under overcommitment
  (`PreferredAllocation.Search.ExactResult`, `PreferredAllocation.Search.FoundExactly`,
  `PreferredAllocation.MissedRun`), and a free device can make the answer shorter
  (`PreferredAllocation.PreferredKeepsHighest`, `PreferredAllocation.RunLostToOne`).
- The annotation may ask for twice the exclusive CPUs whatever the pool's policy, which is
  too much for a singleThreaded pool (`AnnotationCheck.NeverRunsOut`,
  `AnnotationCheck.SingleThreadedExactly`, `AnnotationCheck.SingleThreadedRunsOut`); the
  starter runs out of CPUs exactly when the demand exceeds the list
  (`ProcessStarter.StartProcesses`).
- The shared pool of a mixed container is recognised by its amount
  (`CfsLimit.TakenExactly`, `CfsLimit.AmbiguousAmount`). When that is ambiguous the limit
  depends on Go's map order, and reinvoking the webhook may change it
  (`CfsLimit.LimitSettledExactly`, `CfsLimit.AmbiguousLimit`,
  `WebhookHistory.AnyNumberIsOneExactly`).
- The arguments are put into JSON text without escaping (`ArgsText.ReadsBackExactly`).
- Containers are documented never to reach CPUs not meant for them (README.md:55). That is
  proved, with its exact condition, for the CPU lists the plugins grant
  (`Isolation.ConfigIsolatedExactly`). For a cloudphone container the setter opens the
  cores of the whole NUMA node instead, so two of them on one node get the same set
  whatever they were granted (`Handshake.CloudphonesPerNode`).
- A container ID that is nothing but `docker://` or `containerd://` makes the worker
  dereference a nil error (`SetHandler.CrashExactly`, `SetHandler.CrashHappens`). A missing
  ID does not: then the pod is not handled at all (`SetHandler.GatherAllContainers`).
- With a repeated container name in the annotation the webhook checks the last entry and
  the starter launches the first (`AnnotationCheck.LaunchesWhatWasChecked`).

## Model

| member | source | states |
|---|---|---|
| `Pools.SelectPool` | pkg/types/pool.go:127-134 | the first pool visited whose name has the prefix, or the zero pool: any matching pool can be the answer, and only those |
| `Pools.SelectExactly` | pkg/types/pool.go:125-134 | selecting by a full pool name finds that pool under every map order exactly when every pool whose name extends it is defined alike |
| `Pools.ValidatePools` | cmd/cpu-device-plugin/cpu-device-plugin.go:407-422 | answers with the shared CPUs and whether the configuration is accepted, for any visiting order |
| `Pools.AcceptedSharedCPUs` | cmd/cpu-device-plugin/cpu-device-plugin.go:407-422 | an accepted configuration answers with exactly the CPUs of its shared pools |
| `Pools.RefusedExactly` | cmd/cpu-device-plugin/cpu-device-plugin.go:410-420 | refusal happens exactly when a shared pool is visited after a non-empty shared pool |
| `Pools.SharedPoolRestriction` | README.md:130 | one shared pool is always accepted; acceptance leaves at most one non-empty shared pool |
| `Pools.VerdictSettledExactly` | cmd/cpu-device-plugin/cpu-device-plugin.go:407-422 | the verdict is the same under every order exactly unless one shared pool has CPUs and another one has none |
| `GoText.ItoaDigits` | cmd/cpu-device-plugin/cpu-device-plugin.go:145-145 | a printed device number is a text of digits whose value is the number |
| `GoText.PrintedRead` | pkg/sethandler/controller.go:424-428 | what strconv reads from a printed number, with either sign and at the limits of 32 and 64 bits |
| `DeviceIds.DecodingExact` | cmd/cpu-device-plugin/cpu-device-plugin.go:139-151 | taking the remainder undoes the numbering of all layers exactly when every pool CPU is below numCPU |
| `DeviceIds.NumberingInjective` | cmd/cpu-device-plugin/cpu-device-plugin.go:145-145 | two (CPU, layer) pairs have the same device number only if they are equal |
| `DeviceIds.PluginDecode` | cmd/cpu-device-plugin/cpu-device-plugin.go:173-181 | the decoding loop of Allocate: remainders of the readable IDs, unreadable ones skipped |
| `DeviceIds.CalculateFinalExclusiveSet` | pkg/sethandler/controller.go:421-431 | the setter's decoding: remainders of all IDs, and an error if one is unreadable |
| `DeviceIds.DecodersAgree` | pkg/sethandler/controller.go:421-431 | for every list of printed 32-bit device numbers the plugin and the setter decode the same CPUs, the remainders of the numbers |
| `DevicePlugin.CpuDeviceManager.constructor` | cmd/cpu-device-plugin/cpu-device-plugin.go:382-405 | the manager of a pool starts with the pool, its type and an empty cache |
| `DevicePlugin.CpuDeviceManager.ListAndWatch` | cmd/cpu-device-plugin/cpu-device-plugin.go:125-167 | 1000 devices per CPU of a shared pool; otherwise one device per CPU and layer in order, the cache filled with them and a missing overcommitment raised to one |
| `DevicePlugin.AnnouncedInOrder` | cmd/cpu-device-plugin/cpu-device-plugin.go:139-151 | the devices come CPU by CPU in rising order, and for each CPU layer by layer |
| `DevicePlugin.AnnouncedNumbers` | cmd/cpu-device-plugin/cpu-device-plugin.go:139-151 | the announced IDs are exactly the printed numbers of the pool's (CPU, layer) pairs |
| `DevicePlugin.AnnouncedOnce` | cmd/cpu-device-plugin/cpu-device-plugin.go:139-151 | with all pool CPUs below numCPU no ID is announced twice |
| `DevicePlugin.CacheExact` | cmd/cpu-device-plugin/cpu-device-plugin.go:150-155 | the cache maps every announced ID to the very device announced under it |
| `DevicePlugin.CachedHint` | cmd/cpu-device-plugin/cpu-device-plugin.go:147-155 | the cached hint of an announced device is the node of its CPU, and absent exactly when that is unknown |
| `Announcements.AdvertisedExactly` | cmd/cpu-device-plugin/cpu-device-plugin.go:125-155 | the devices that a run of the kubelet may hand out are exactly those whose IDs the plugin of the pool announces, shared pools included |
| `Announcements.GrantedIsOpened` | cmd/cpu-device-plugin/cpu-device-plugin.go:172-184 | a CPU is in the list that the plugin gives for some devices exactly when one of the devices opens it in the sense of the runs |
| `DevicePlugin.CpuDeviceManager.Allocate` | cmd/cpu-device-plugin/cpu-device-plugin.go:169-207 | every container gets the variables for its decoded CPUs, siblings added under the pool's policy, chosen by pool type |
| `DevicePlugin.CpuDeviceManager.CpusOnNode` | cmd/cpu-device-plugin/cpu-device-plugin.go:189-195 | the CPUs of the core map on one NUMA node, whatever the map order |
| `PreferredAllocation.GroupByNode` | cmd/cpu-device-plugin/cpu-device-plugin.go:311-325 | groups the available IDs by NUMA node, each group in the given order |
| `PreferredAllocation.SortDescendingSorts` | cmd/cpu-device-plugin/cpu-device-plugin.go:302-306 | the sort is descending and keeps the multiset of IDs |
| `PreferredAllocation.Search.Select` | cmd/cpu-device-plugin/cpu-device-plugin.go:344-376 | the greedy loop with its skips, resets and early exit computes the scan |
| `PreferredAllocation.GetPreferredAllocation` | cmd/cpu-device-plugin/cpu-device-plugin.go:289-380 | one answer per request up to the first request without free devices, each the scan of the picked node's sorted devices |
| `PreferredAllocation.PreferredIsSound` | cmd/cpu-device-plugin/cpu-device-plugin.go:344-376 | for every overcommitment and pick: free devices of the picked node, falling by one, on one node of the topology, at most as many as asked for and not none if the node has any, decoding to as many CPUs as devices |
| `PreferredAllocation.Search.ExactResult` | cmd/cpu-device-plugin/cpu-device-plugin.go:344-376 | for every overcommitment: the hoped-for run is the answer exactly when it fits into the cores and its highest ID lies on no core covered when the search gets there |
| `PreferredAllocation.Search.FoundIfCoreFree` | cmd/cpu-device-plugin/cpu-device-plugin.go:344-376 | for every overcommitment: the hoped-for run is found if it fits into the cores and no free ID above it shares the core of its highest ID |
| `PreferredAllocation.Search.FoundExactly` | cmd/cpu-device-plugin/cpu-device-plugin.go:344-376 | below a block of consecutive free IDs whose top shares its core with no ID above: the hoped-for run is found exactly when it fits into the cores and no ID of the block lies on the core of its highest ID |
| `PreferredAllocation.Search.CoveredChangesNothing` | cmd/cpu-device-plugin/cpu-device-plugin.go:349-351 | for all IDs, nodes and sizes: an ID on a core of what was found above it can be taken away without changing what any search finds |
| `PreferredAllocation.Search.PassedOverIgnored` | cmd/cpu-device-plugin/cpu-device-plugin.go:349-351 | in terms of positions: an ID on a core of the block held above it neither ends the run nor joins it |
| `PreferredAllocation.Search.KeepsBlockExactly` | cmd/cpu-device-plugin/cpu-device-plugin.go:344-376 | a block followed by a gap, too short for the request, is the answer exactly when every ID below it lies on one of its cores |
| `PreferredAllocation.PreferredKeepsHighest` | cmd/cpu-device-plugin/cpu-device-plugin.go:344-376 | for every overcommitment: the highest free devices of the node, when fewer than asked for, are the answer exactly when all others lie on their cores |
| `PreferredAllocation.RunLostToOne` | cmd/cpu-device-plugin/cpu-device-plugin.go:349-376 | on eight CPUs with 15, 14, 7, 6 and 5 free, three in a row are there but device 5 alone is preferred; without it 15 and 14 are |
| `Announcements.HintsAgree` | cmd/cpu-device-plugin/cpu-device-plugin.go:311-324 | the nodes read from the cached hints of announced devices are those of their CPUs, so that the premise about nodes of the preferred allocation is met |
| `PreferredAllocation.Search.TargetExists` | cmd/cpu-device-plugin/cpu-device-plugin.go:344-376 | there always is a hoped-for answer: the highest free run of the size, or the lowest block |
| `PreferredAllocation.PreferredInWindow` | cmd/cpu-device-plugin/cpu-device-plugin.go:344-376 | when the free IDs span less than numCPU: the highest free run of the requested size if any is free, otherwise the whole lowest block |
| `PreferredAllocation.MissedRun` | cmd/cpu-device-plugin/cpu-device-plugin.go:349-351 | under overcommitment a free run can be missed: of the free devices 3, 1 and 0 on two CPUs of one node, two preferred ones are answered with device 0 alone |
| `Isolation.Node.InvariantHolds` | cmd/cpu-device-plugin/cpu-device-plugin.go:131-151 | in every reachable kubelet state each grant is of an advertised device, per CPU and layer or, for a shared pool, one of 1000 per CPU, and no device has two holders |
| `Isolation.Node.Oversubscription` | cmd/cpu-device-plugin/cpu-device-plugin.go:139-151 | with disjoint exclusive and cloudphone pools, in every reachable state a CPU is held through at most as many of their devices as its pool has layers |
| `Isolation.Node.IsolatedExactly` | cmd/cpu-device-plugin/cpu-device-plugin.go:172-184 | no CPU is in the granted lists of two containers, siblings included, in any reachable state exactly when no exclusive or cloudphone pool with CPUs is overcommitted and no two of their entries open a common CPU |
| `Isolation.Node.OffSharedExactly` | cmd/cpu-device-plugin/cpu-device-plugin.go:185-186 | granted CPUs stay off the CPUs open to users of shared pools in every reachable state exactly when no shared pool lists a CPU, or under multiThreaded a sibling of one, that an exclusive or cloudphone pool lists |
| `Isolation.Node.OffDefaultExactly` | pkg/sethandler/controller.go:384-385 | granted CPUs stay off the CPUs of containers on the default pool in every reachable state exactly when the default pool lists none of the CPUs, siblings included, that exclusive and cloudphone devices open |
| `Isolation.ConfigIsolatedExactly` | cmd/cpu-device-plugin/cpu-device-plugin.go:125-207 | for a whole pool configuration, sorted by pool type: containers are kept apart from one another, from the users of shared pools and from those of the default pool in every run exactly when the three conditions on the configuration hold |
| `Isolation.Node.DocumentedIsolates` | README.md:31-35 | disjoint exclusive and cloudphone pools without overcommitment that list one thread per core keep granted lists apart in every run; shared and default pools may list all threads, as README.md:120 asks |
| `Isolation.ExpandedByMember` | cmd/cpu-device-plugin/cpu-device-plugin.go:182-184 | sibling expansion of a set is the union of the expansions of its members |
| `Checkpoint.TranslateNewCheckpointToOld` | pkg/checkpoint/checkpoint.go:40-52 | fills one old entry per new one, with its identity and its IDs concatenated node after node |
| `Checkpoint.TranslationKeepsIds` | pkg/checkpoint/checkpoint.go:47-49 | the multiset of an entry's IDs is kept under every map order |
| `Checkpoint.AllocatedExclusiveCpus` | pkg/sethandler/controller.go:406-418 | the CPUs decoded from all matching entries; none decode to the empty set |
| `Checkpoint.AllocatedExactly` | pkg/sethandler/controller.go:406-412 | an ID is collected exactly when some entry of this pod, this container and this resource lists it |
| `Checkpoint.DecodedExactly` | pkg/sethandler/controller.go:406-431 | on the entries: decoding fails exactly when a listed ID is no number, and gives exactly the remainders of the listed numbers otherwise |
| `Checkpoint.OthersIgnored` | pkg/sethandler/controller.go:408-411 | an entry of another pod, container or resource changes nothing, wherever it stands |
| `CorrectCpuset.NeighboursIgnored` | pkg/sethandler/controller.go:389-418 | so the CPUs that the setter reads for a container do not depend on what the kubelet records for any other |
| `Checkpoint.DecodedCpusIndependent` | pkg/sethandler/controller.go:406-431 | the decoded CPUs depend neither on the map order nor on how IDs are split over NUMA nodes |
| `CorrectCpuset.Container.DetermineCorrectCpuset` | pkg/sethandler/controller.go:336-386 | visits the requests in any order, with pools selected in any order each time: computes one of the decisions this leaves open |
| `CorrectCpuset.Container.DecideCloudphone` | pkg/sethandler/controller.go:358-377 | the cloudphone branch: the cores of one selected pool on the node that another selected pool gives the first CPU, or an error |
| `CorrectCpuset.Setter.GatherCores` | pkg/sethandler/controller.go:370-376 | the cores of the core map on one node, whatever the map order |
| `CpusetOrder.MayExactly` | pkg/sethandler/controller.go:341-385 | over all orders of requests and pools, the possible decisions are exactly those of the resources ending the loop if there are any, else the shared CPUs with those of some exclusive resource, else a default pool |
| `CpusetOrder.OneDecisionExactly` | pkg/sethandler/controller.go:341-385 | there is only one decision exactly when the resources that end the loop lead to one or, without any, all sums of shared and exclusive CPUs agree under every selection |
| `CpusetOrder.OneSetExactly` | pkg/sethandler/controller.go:341-385 | there is at most one CPU set exactly under the same condition on sets, errors aside |
| `CpusetOrder.OneExpansionExactly` | pkg/sethandler/controller.go:348-357 | the siblings of an exclusive resource come out the same under every selection exactly when there are none or all pools whose names begin with the pool's name have one policy |
| `CpusetOrder.OrdinaryDecision` | pkg/sethandler/controller.go:341-385 | without cloudphone and with readable devices the setter decides on exactly the possible sums |
| `CpusetOrder.CloudphoneAlone` | pkg/sethandler/controller.go:358-377 | the only pool resource, if a cloudphone one, decides under every order, whatever else is requested |
| `CpusetCases.KindExactly` | pkg/sethandler/controller.go:344-358 | which words in a resource name make it shared, exclusive, cloudphone or foreign to the setter |
| `CpusetCases.ForeignIgnored` | pkg/sethandler/controller.go:341-386 | requests for anything that is no pool resource do not change what the setter may decide |
| `CpusetCases.DefaultExactly` | pkg/sethandler/controller.go:381-385 | a container without pool resources may get exactly the CPUs of the pools whose names begin with default, and none without such a pool |
| `CpusetCases.UnreadableCheckpoint` | pkg/sethandler/controller.go:389-405 | without a readable checkpoint the setter fails for a container exactly when it asks for exclusive or cloudphone CPUs |
| `CpusetCases.NoDevices` | pkg/sethandler/controller.go:359-369 | a cloudphone container without a recorded device fails under every order |
| `CpusetCases.SecondOfMany` | pkg/sethandler/controller.go:351-352 | the pool is what stands between the first two slashes of the resource name |
| `CpusetCases.UnknownOnNodeZero` | pkg/sethandler/controller.go:371-376 | a cloudphone CPU that no selectable pool knows counts as one of node 0 |
| `CpusetCases.NoPoolNoSiblings` | pkg/sethandler/controller.go:351-357 | without a pool under its name an exclusive resource gets its CPUs without siblings |
| `CpusetCases.CoresAreNotThreads` | pkg/sethandler/controller.go:370-376 | where cores and threads are numbered differently, the setter and the plugin gather different sets for a node |
| `Handshake.NameOfPool` | pkg/sethandler/controller.go:351-352 | the part of a resource name behind the slash is the pool name, and its prefix tells the kind |
| `Handshake.DecodesWhatWasGranted` | pkg/sethandler/controller.go:389-431 | from the checkpoint the setter decodes the CPUs that the plugin decoded |
| `Handshake.AmountsPositive` | cmd/webhook/webhook.go:85-93 | a summed amount is positive exactly when the container asks for a resource of that kind, whatever other limits it has |
| `Handshake.GrantSeenExactly` | pkg/sethandler/controller.go:348-357 | under every selection the setter makes the plugin's grant of an exclusive resource exactly when the pools whose names begin with the pool's name have its policy or the CPUs have no other siblings |
| `Handshake.OrdinaryHandshake` | cmd/process-starter/process_starter.go:100-152 | exclusive, shared or both, beside any other resources, on any node: the set the starter waits for is possible and not empty; the setter is bound to it, under every order of requests and pools, exactly when those policies agree or the siblings are among the container's CPUs anyway |
| `Handshake.CloudphoneHandshake` | cmd/process-starter/process_starter.go:80-99 | cloudphone, beside any resources that are no pool's: the setter is bound to the set the starter waits for exactly when that set is not empty and the core maps of all pools it may select lead to it |
| `Handshake.ReadyAgrees` | pkg/sethandler/controller.go:366-376 | for a documented cloudphone pool both sets are the cores of the pool on the first CPU's node |
| `HandshakeExample.AskingValid` | cmd/process-starter/process_starter.go:71-152 | on every node, any resources of its pools and any other resources can be asked for together as the handshake presupposes |
| `HandshakeExample.MixedFor` | cmd/process-starter/process_starter.go:100-113 | on every node a container that mixes a shared pool with an exclusive one whose name no other extends, and has any other resources, is one on which the programs agree |
| `HandshakeExample.MixedExists` | deployment/cpu-pooler-config.yaml:8-28 | on the shipped configuration there is such a container, with cpu and memory beside shared and multiThreaded exclusive CPUs |
| `HandshakeExample.CloudphoneExists` | deployment/cpu-pooler-config.yaml:14-18 | and one with cpu and memory beside a cloudphone device |
| `HandshakeExample.PlainDisagrees` | deployment/cpu-pooler-config.yaml:19-24 | on the shipped configuration a container granted CPU 4 of the singleThreaded pool may get it alone, as the starter expects, or with its sibling, as a multiThreaded pool extends the name; its CPU set is not settled |
| `EndToEnd.OrdinaryReleased` | cmd/process-starter/process_starter.go:100-168 | webhook, plugins and setter together, where the programs agree: after a successful adjustment of the pod, a starter in the patched container that looks at its leaf in time is released |
| `EndToEnd.OrdinaryStarts` | cmd/process-starter/process_starter.go:71-218 | so the starter does not give up, and starts the annotated processes on the granted CPUs and the shared pool, or becomes the container's own program |
| `EndToEnd.CloudphoneReleased` | cmd/process-starter/process_starter.go:80-168 | cloudphone containers are released likewise |
| `EndToEndExample.MeetsFor` | pkg/sethandler/controller.go:297-334 | for every container on which the programs agree there are a patched container, a cgroup tree and a successful attempt that meet all premises together |
| `EndToEndExample.MetOnSample` | deployment/cpu-pooler-config.yaml:8-28 | so they are met on a node with the shipped configuration |
| `CgroupTree.MentionedByName` | pkg/sethandler/controller.go:559-562 | an ID without a slash occurs in a path exactly when it occurs above or in the last name |
| `CgroupTree.Tree.FindDirectory` | pkg/sethandler/controller.go:554-571 | the walk that skips what it has matched ends with the last directory that is the first of its branch to mention the ID |
| `CgroupTree.Tree.FindLast` | pkg/sethandler/controller.go:574-582 | the second walk ends with the last directory at or below the one found |
| `CgroupTree.Tree.TargetIsTheLeaf` | pkg/sethandler/controller.go:686-687 | for an ID that owns one unbranched directory, the worker writes to the only leaf that mentions it, the one the reconciliation inspects |
| `SetHandler.GatherAllContainers` | pkg/sethandler/controller.go:286-295 | the names of all containers, or none if one has no ID yet |
| `SetHandler.SetHandler.ApplyCpusetToContainer` | pkg/sethandler/controller.go:548-592 | an empty set touches nothing; otherwise the set is written to the target directory or nothing changes, and the found directory is returned |
| `SetHandler.SetHandler.GetInfraContainerPath` | pkg/sethandler/controller.go:594-607 | the last sibling directory whose name holds no ID of the pod |
| `SetHandler.SetHandler.ApplyCpusetToInfraContainer` | pkg/sethandler/controller.go:609-629 | writes the default set there; an empty default pool touches nothing, a missing directory is an error |
| `SetHandler.SetHandler.AdjustContainer` | pkg/sethandler/controller.go:301-323 | one container, decided anew: done with its write made, failed, or crashed on an ID without a text, exactly as the decision predicts when I/O works |
| `CgroupNode.CidExactly` | pkg/sethandler/controller.go:433-449 | the ID of a container is what the first status with its name says without a leading docker:// or containerd://, and empty without such a status |
| `CgroupNode.CidOfRuntime` | pkg/sethandler/controller.go:433-449 | for every text behind either prefix the ID is that text |
| `CgroupNode.IDInStatusExactly` | pkg/sethandler/controller.go:451-459 | a directory name counts as a container's exactly when it contains the ID that some status stands for |
| `CgroupNode.Attempt.NoDirectory` | pkg/sethandler/controller.go:548-592 | an attempt does not succeed when no directory mentions the ID of a container whose set is to be written |
| `CgroupNode.Attempt.SearchExactly` | pkg/sethandler/controller.go:303-325 | the infra container is searched from the directory of the last gathered container, if its set is not empty |
| `CgroupNode.Attempt.InfraFails` | pkg/sethandler/controller.go:325-328 | when that set is empty and the default pool is not, the attempt fails |
| `SetHandler.SetHandler.AdjustContainerSets` | pkg/sethandler/controller.go:297-334 | success means exactly all writes of some allowed attempt were made; every other end leaves each directory as it was or as an allowed write makes it |
| `SetHandler.SetHandler.HandlePods` | pkg/sethandler/controller.go:222-242 | a pod without gathered containers is left alone; any other is retried, with the ends of the retry loop |
| `SetHandler.SetHandler.HandlePod` | pkg/sethandler/controller.go:228-238 | success means a clean attempt after what earlier ones left, each deciding anew; if some attempt's I/O works, or it does not fail, the outcome is one that needs no failing I/O |
| `SetHandler.CrashExactly` | pkg/sethandler/controller.go:308-313 | an attempt whose I/O works dereferences a nil error exactly when the loop reaches a decided container whose status ID is nothing but a runtime prefix |
| `SetHandler.CrashHappens` | pkg/sethandler/controller.go:308-313 | on every node there is a pod that crashes every such attempt |
| `CgroupNode.Attempt.CleanExactly` | pkg/sethandler/controller.go:230-236 | a successful attempt ends in the state of one clean attempt, whatever earlier ones left, exactly when its writes cover all that an attempt may write |
| `CgroupNode.Attempt.SuccessAfterFailures` | pkg/sethandler/controller.go:230-236 | it does when no set is empty in one attempt and not in another |
| `CgroupRuns.System.SuccessMeaning` | pkg/sethandler/controller.go:301-323 | after success every gathered container has in its leaf what the attempt decided on for it, unless that is the empty set |
| `CgroupRuns.System.InfraSuccess` | pkg/sethandler/controller.go:609-629 | after success with a non-empty default pool the infra directory found beside one of the pod's containers, named after none of its IDs and nobody's leaf, holds the default set |
| `CgroupRuns.System.InfraApart` | pkg/sethandler/controller.go:594-607 | the infra directory found beside any container is no container's leaf |
| `SetHandler.SetHandler.ReconcileContainer` | pkg/sethandler/controller.go:680-708 | replaces a full set in the first matching leaf by what it decides on, if it does and can write it; an error changes nothing |
| `SetHandler.SetHandler.ReconcileCpusets` | pkg/sethandler/controller.go:649-667 | visits all containers of all pods, going on after errors; a failed query changes nothing |
| `CgroupRuns.System.InspectedIsLeaf` | pkg/sethandler/controller.go:686-687 | under every order of the leaves the reconciliation inspects the leaf the worker writes |
| `CgroupRuns.System.PassFixes` | pkg/sethandler/controller.go:686-704 | one pass gives every full leaf what it decides on for its container, if it does and can write it, and leaves every other leaf alone, whatever happens to other containers |
| `CgroupRuns.System.PassMisses` | pkg/sethandler/controller.go:658-666 | a pass changes nothing but the leaves of its containers |
| `CgroupRuns.System.SecondPassIdleExactly` | pkg/sethandler/controller.go:649-667 | a pass right after one without failing writes, with everything decided anew, never changes anything exactly when for every container all possible decisions leave a full set as it is or none does |
| `CgroupRuns.System.LeafValues` | pkg/sethandler/controller.go:548-708 | over every interleaving of worker writes, infra writes, the two halves of a reconciliation and restarts, each with any decision, a leaf holds its first value, the full set or a set that the setter may decide on |
| `CgroupRuns.System.WriteIsStep` | pkg/sethandler/controller.go:315-318 | what an attempt of the worker writes for a container is a step that the runs allow |
| `CgroupRuns.System.InfraIsStep` | pkg/sethandler/controller.go:325-328 | and so is what it writes into the infra container beside the last gathered one |
| `CgroupRuns.System.AllowedStays` | pkg/sethandler/controller.go:688-704 | a leaf with a set that the setter may decide on has such a set until its container restarts, late reconciliation writes included |
| `CgroupRuns.System.StaysExactly` | pkg/sethandler/controller.go:336-386 | it keeps that very set in every run without such a restart exactly when the resources that end the loop lead to one set or, without any, all sums agree |
| `CgroupRuns.System.ReconciledInTwoSteps` | pkg/sethandler/controller.go:688-704 | an uninterrupted reconciliation of a container is its inspecting step followed by its writing step |
| `Annotation.CPUAnnotation.constructor` | pkg/types/cpu-annotation.go:43-47 | a new annotation has no entries |
| `Annotation.CPUAnnotation.Decode` | pkg/types/cpu-annotation.go:131-163 | adds the entries, later ones replacing earlier ones of a name, and reports an error exactly when the text or some entry is faulty |
| `Annotation.CPUAnnotation.Containers` | pkg/types/cpu-annotation.go:49-57 | lists every entry's name once |
| `Annotation.CPUAnnotation.ContainerSharedCPUTime` | pkg/types/cpu-annotation.go:65-80 | the CPUs of the container's processes from pools with the shared prefix |
| `Annotation.CPUAnnotation.ContainerExclusiveCPU` | pkg/types/cpu-annotation.go:82-97 | the CPUs of the container's processes from pools with the exclusive prefix |
| `Annotation.CPUAnnotation.ContainerPools` | pkg/types/cpu-annotation.go:99-113 | every pool of the container's processes once, in the order of first mention |
| `Annotation.PoolsInOrder` | pkg/types/cpu-annotation.go:102-112 | of two pools in the list, the earlier one is first mentioned before the later one |
| `Annotation.CPUAnnotation.ContainerTotalCPURequest` | pkg/types/cpu-annotation.go:115-128 | the CPUs of the container's processes from one pool |
| `Annotation.TotalsCoverProcesses` | pkg/types/cpu-annotation.go:66-128 | summing the totals over the distinct pools with a prefix gives the sum over all processes with it, and over all processes for the empty prefix |
| `AnnotationCheck.ValidateAnnotation` | cmd/webhook/webhook.go:108-134 | accepts exactly the annotations whose every mentioned pool is requested, whose shared time is exact and whose totals are at most twice the requests |
| `AnnotationCheck.AcceptedShared` | cmd/webhook/webhook.go:116-120 | an accepted container asks exactly for the shared CPU time of its resources |
| `AnnotationCheck.AcceptedExclusive` | cmd/webhook/webhook.go:121-130 | an accepted container asks for at most twice its exclusive CPUs, when no limit is negative |
| `AnnotationCheck.SiblingsDouble` | cmd/cpu-device-plugin/cpu-device-plugin.go:182-184 | adding siblings under two-way hyperthreading doubles a set with one thread per core |
| `AnnotationCheck.OneCpuPerDevice` | cmd/cpu-device-plugin/cpu-device-plugin.go:173-181 | without overcommitment distinct devices decode to distinct CPUs |
| `AnnotationCheck.NeverRunsOut` | cmd/process-starter/process_starter.go:187-199 | an accepted container on a two-way multiThreaded pool never demands more CPUs than the plugin lists |
| `AnnotationCheck.SingleThreadedExactly` | cmd/process-starter/process_starter.go:187-199 | from a singleThreaded pool without overcommitment, processes find enough CPUs in the list the plugin wrote exactly when they demand at most the exclusive amount |
| `AnnotationCheck.SingleThreadedRunsOut` | cmd/webhook/webhook.go:125-130 | so an accepted annotation can demand more than the list has: a plugin, a device, limits and processes that meet all premises of NeverRunsOut but the policy |
| `AnnotationCheck.LaunchesWhatWasChecked` | cmd/process-starter/process_starter.go:180-187 | the starter launches the processes the webhook checked exactly when the first entry of the name with processes equals the last entry of the name |
| `ProcessStarter.PollCPUSetCompletion` | cmd/process-starter/process_starter.go:71-168 | returns with the lists exactly when within 90 looks the cgroup holds the awaited set, and gives up otherwise |
| `ProcessStarter.ReleasedExactly` | cmd/process-starter/process_starter.go:79-159 | for each value of CPU_POOLS: the variables without which the starter never goes on and the set it has to see; for any other value, the empty set |
| `ProcessStarter.SetAffinity` | cmd/process-starter/process_starter.go:57-69 | the mask holds the first CPUs of the list and the rest is returned, exactly when there are enough |
| `ProcessStarter.StartProcesses` | cmd/process-starter/process_starter.go:187-214 | exclusive processes get consecutive slices, others all shared CPUs; it fails exactly when the demand exceeds the list, at the process that exceeds it |
| `ProcessStarter.SlicesDisjoint` | cmd/process-starter/process_starter.go:191-196 | the masks of exclusive processes have the demanded sizes and do not overlap |
| `ProcessStarter.SlicesPartition` | cmd/process-starter/process_starter.go:191-196 | a CPU is pinned to an exclusive process exactly when it is in the demanded front of the list; with the rest this makes up the list, nothing twice |
| `ProcessStarter.LaunchedAsAnnotated` | cmd/process-starter/process_starter.go:187-214 | released with both kinds of CPUs, each process runs its own program and arguments: exclusive ones on as many of EXCLUSIVE_CPUS as they ask for, others on SHARED_CPUS |
| `ProcessStarter.Start` | cmd/process-starter/process_starter.go:170-218 | the first annotated container of the own name with processes is started; without one the program becomes its own arguments |
| `ProcessStarter.Run` | cmd/process-starter/process_starter.go:170-218 | the whole program gives up exactly when it is not released in time, and goes on with the CPU lists of its variables otherwise |
| `PoolRequests.ReadLimits` | cmd/webhook/webhook.go:77-98 | for any map order: the sums by kind, the amounts by pool name, and whether there is an entry at all |
| `Webhook.GetCPUPoolRequests` | cmd/webhook/webhook.go:70-101 | every container with a pool resource, and no other, has an entry that reads its limits |
| `CfsLimit.GetMaxSharedPoolLimit` | cmd/webhook/webhook.go:163-184 | 1000 times the largest size of the pool taken for the shared one, or the shared amount when configurations cannot be read |
| `CfsLimit.TakenExactly` | cmd/webhook/webhook.go:170-174 | a pool is taken for the shared one under every order exactly when its amount, and no other pool's, is the shared amount |
| `CfsLimit.MaxPoolSizeIsMax` | cmd/webhook/webhook.go:175-182 | the size is the maximum over the configurations that have the pool |
| `CfsLimit.ComputeCfsLimit` | cmd/webhook/webhook.go:136-156 | the limit by kind of request and quota setting |
| `CfsLimit.MixedLimit` | cmd/webhook/webhook.go:138-146 | a mixed container with quotas for all and a recognisable shared pool: 1000 per exclusive CPU plus the pool's largest size, enough for every shared amount a node can serve |
| `CfsLimit.LimitBySums` | cmd/webhook/webhook.go:136-169 | the limits without pool sizes, by the sums over the limits: 1000 a CPU and 100 for exclusive or cloudphone CPUs under quotas for all, the shared amount else |
| `CfsLimit.AmbiguousAmount` | cmd/webhook/webhook.go:170-174 | when another pool has the same amount the limit can fall below what the node can serve |
| `Webhook.SetRequestLimit` | cmd/webhook/webhook.go:136-161 | appends the two limit patches exactly when the limit is positive |
| `Webhook.PatchContainerEnv` | cmd/webhook/webhook.go:204-238 | appends CPU_POOLS behind the variables, as a list of its own, or not at all when it is there |
| `Webhook.PatchContainerForPinning` | cmd/webhook/webhook.go:240-303 | appends mounts, name variable, command and wrapped arguments, or nothing when a podinfo mount is there |
| `Webhook.PatchVolumesForPinning` | cmd/webhook/webhook.go:305-328 | appends the two volumes and one per container |
| `Webhook.PatchContainers` | cmd/webhook/webhook.go:381-429 | the patches of all containers in order, and whether one is pinned |
| `Webhook.CheckAnnotation` | cmd/webhook/webhook.go:366-378 | the annotation passes exactly when it decodes without a fault and fits the pool requests |
| `Webhook.AnswerPod` | cmd/webhook/webhook.go:366-459 | denies exactly when the annotation does not fit or pins nothing; otherwise answers with the patches of all containers and, for the first pinning, the volumes |
| `Webhook.MutatePods` | cmd/webhook/webhook.go:330-459 | the answer to a pod for a reading of its limits in some order |
| `WebhookVerdict.AllowedFits` | cmd/webhook/webhook.go:108-134 | an admitted pod has a well-formed annotation, and the last entry of each name is complete, belongs to a container, asks exactly for its shared limits and from each pool for at most twice a limit that names it |
| `WebhookVerdict.AllowedExactly` | cmd/webhook/webhook.go:366-459 | the converse, too, when no two resources name one pool: admitted exactly when all that holds and some container has to be pinned; without annotation always |
| `WebhookVerdict.TooMuchDenied` | cmd/webhook/webhook.go:125-130 | an entry that asks a pool for more than twice every limit under its name is denied, whatever else the pod says |
| `WebhookVerdict.TenDenied` | cmd/webhook/webhook.go:125-130 | one exclusive CPU and ten annotated ones are denied |
| `WebhookVerdict.AdmittedNeverRunsOut` | cmd/process-starter/process_starter.go:187-199 | in an admitted pod a container on a two-way multiThreaded pool, with the devices its limits say, never runs out of CPUs for its annotated processes |
| `WebhookVerdict.PinnedExactly` | cmd/webhook/webhook.go:392-408 | a container is pinned exactly when the annotation names it or it has a command and exclusive or cloudphone limits |
| `AdmittedPod.AdmittedContainer` | cmd/webhook/webhook.go:186-303 | member by member, what a container of an admitted pod has: a limit its resources lead to, name and limits as before, the starter as command at the path where its file is mounted, the CPU directory, the arguments, and the two variables |
| `AdmittedPod.AdmittedVolumes` | cmd/webhook/webhook.go:305-328 | the volumes: annotations, the starter's file and, for each container, the CPU directory of its namespace, pod and name, exactly when a container is pinned and neither name is taken |
| `JsonPointer.PathDenotes` | cmd/webhook/webhook.go:191-299 | every path text the webhook builds denotes the intended place under RFC 6901 |
| `JsonPointer.PathTexts` | cmd/webhook/webhook.go:191-278 | the paths are the texts that the webhook concatenates |
| `JsonPointer.PathsDiffer` | cmd/webhook/webhook.go:191-299 | two patches with the same path text change the same place |
| `PodPatch.ApplyConcat` | cmd/webhook/webhook.go:447-457 | applying one patch list after another is applying their concatenation |
| `PodPatch.ApplyLocal` | cmd/webhook/webhook.go:381-429 | the patches of one container change that container as they would alone |
| `WebhookEffect.Setting.LimitEffect` | cmd/webhook/webhook.go:186-202 | with a positive limit the two limit patches apply exactly when the container has both a CPU limit and a CPU request, and then replace the two and nothing else |
| `WebhookEffect.Setting.ContainerEffect` | cmd/webhook/webhook.go:186-303 | a container's patches apply exactly under a condition on the container, and make the stated container of it |
| `WebhookEffect.Setting.KeepsOriginals` | cmd/webhook/webhook.go:226-283 | every original variable and mount stays, in order and in front; an unpinned container keeps command and arguments |
| `WebhookRuns.PodEffect` | cmd/webhook/webhook.go:380-445 | the whole patch applies exactly when every container's does and volumes exist where they are added, and makes the stated pod |
| `WebhookRuns.AmountsDetermined` | cmd/webhook/webhook.go:77-98 | the amounts do not depend on the order in which limits are summed up |
| `WebhookRuns.Reinvoked` | cmd/webhook/webhook.go:208-247 | invoked on its own result, whatever it reads this time, the webhook answers with a patch that applies and changes nothing but CPU limits and requests |
| `WebhookRuns.Idempotent` | cmd/webhook/webhook.go:208-247 | and nothing at all when it computes the same CFS limits |
| `CfsLimit.LimitSettledExactly` | cmd/webhook/webhook.go:136-184 | all readings of the limits, in any order, compute one CFS limit exactly when the container does not mix or all pools that may be taken for the shared one have one largest size |
| `CfsLimit.RecognisedSettles` | cmd/webhook/webhook.go:170-174 | it is settled when a single resource has the amount of all shared requests |
| `CfsLimit.AmbiguousLimit` | cmd/webhook/webhook.go:170-174 | two exclusive CPUs and the same amount of a one-CPU shared pool: the order decides between the limits 2000 and 3000 |
| `WebhookHistory.AnyNumberIsOne` | cmd/webhook/webhook.go:208-247 | any number of invocations, whatever each reads, equals one but for CPU limits and requests, and altogether when the limits are settled |
| `WebhookHistory.AnyNumberIsOneExactly` | cmd/webhook/webhook.go:136-247 | for a pod to which the patch applies, any number of invocations equals one under all readings exactly when the CFS limits of all containers are settled |
| `WebhookHistory.TwoReadings` | cmd/webhook/webhook.go:136-202 | where they are not, two invocations that read in different orders leave the container with another CPU limit than the first |
| `WebhookHistory.PoolsDetermined` | cmd/webhook/webhook.go:94-97 | the amounts by pool name do not depend on the order either when no two resources name one pool |
| `WebhookHistory.SameVerdict` | cmd/webhook/webhook.go:366-445 | a reinvocation that reads the patched pod anew reads the same, judges the annotation the same and pins the same |
| `WebhookRuns.AddedNamesDistinct` | cmd/webhook/webhook.go:305-328 | the added volumes have pairwise distinct names |
| `WebhookRuns.MountsHaveVolumes` | cmd/webhook/webhook.go:250-328 | every mount the webhook adds names exactly one volume of the patched pod |
| `ArgsText.ReadsBackExactly` | cmd/webhook/webhook.go:291-299 | the hand-built argument text reads back, under RFC 8259, as command and arguments exactly when no string holds a quote, a backslash or a control character |
| `ArgsText.ReadBack` | cmd/webhook/webhook.go:294-297 | one string between quotes reads back as itself exactly when it is clean |
| `WebhookHistory.WrappingUndone` | cmd/process-starter/process_starter.go:216-217 | after any number of invocations, each with its own reading, a released starter can do nothing but become the original command with its arguments |
| `PodStatus.Status` | pkg/k8sclient/pod.go:117-250 | restarts, last restart date and reason as specified on the pod, for every pod |
| `PodStatus.VisitInits` | pkg/k8sclient/pod.go:147-195 | the loop over init containers stops at the first one that holds up the pod, with sums and dates up to it |
| `PodStatus.VisitRegular` | pkg/k8sclient/pod.go:197-225 | restarts and the latest date over counted containers, and the reason of the lowest-indexed container that sets one, although visited last |
| `PodStatus.EarlyReasonOf` | pkg/k8sclient/pod.go:127-137 | the reason from phase, status reason, scheduling gate and blocking init container |
| `PodStatus.PodChanged` | pkg/sethandler/controller.go:143-164 | enqueues exactly when the pod starts running, is reported running again, or is reported running with more restarts |
| `PodStatus.DeletedReason` | pkg/k8sclient/pod.go:237-241 | a deleted pod is reported Unknown on a lost node and Terminating otherwise |
| `PodStatus.HeldUpReason` | pkg/k8sclient/pod.go:166-194 | what is reported for a pod held up by its first init container that has not passed: its end, its wait or how far it got |
| `PodStatus.SaidReason` | pkg/k8sclient/pod.go:201-234 | an initialised pod is reported with what its first container that is not silent says; but Completed beside a running, ready container becomes Running exactly with a true Ready condition, and NotReady without |
| `PodStatus.QuietReason` | pkg/k8sclient/pod.go:127-137 | with silent containers the scheduling gate, the status reason or the phase is reported |
| `PodStatus.RunningExactly` | pkg/k8sclient/pod.go:117-250 | a pod is reported Running exactly when its fields say so: not deleted, initialised, and one of three ways |
| `PodStatus.RegularCounts` | pkg/k8sclient/pod.go:197-204 | in an initialised pod a change of a regular container's count changes the total by as much |
| `PodStatus.InitCounts` | pkg/k8sclient/pod.go:151-168 | a change of an init container's count does so exactly when the container was looked at and, once initialised, may restart |
| `PodStatus.NoRestarts` | pkg/k8sclient/pod.go:119-120 | without restarts the total is zero; with the two rows above this determines the total |
| `PodStatus.LatestExactly` | pkg/k8sclient/pod.go:151-210 | the reported date is the latest end of a counted restart, by the fields, or the zero time |
| `PodStatus.TriggersExactly` | pkg/sethandler/controller.go:143-164 | an update is enqueued exactly when the pod enters the phase Running, when by its fields it is running again, or when a container of a running pod restarted |
| `PodStatus.RestartBesideCompleted` | pkg/sethandler/controller.go:157-163 | a restart in a ready pod whose first container has completed is enqueued |
| `PodStatus.RiseSeen` | pkg/k8sclient/pod.go:197-204 | between initialised snapshots whose counts never fell, the total rises exactly when a count does |
| `PodStatus.RestartTriggers` | pkg/sethandler/controller.go:157-163 | two snapshots reported running: a counted restart always enqueues the pod, and with an unchanged phase nothing else does |

## Left out

Parts of the repository:

- gRPC server and registration, file watching, signals, the Kubernetes client, kubelet queries, HTTP serving, flags, certificates, deployment files and the fake `lscpu`: plumbing around the decisions.
- The device nodes in `Allocate`'s answer and the copying of CPU description files into containers: lists and files that depend on hardware data not in the repository; copying appears only as an operation that may fail.
- The libraries for CPU sets, topology, weighted choice and work queues are not part of this model. CPU sets are finite sets, printing and parsing a CPU list are taken to be inverse, siblings are given by a map from hardware thread to core, and the weighted choice may pick any node with a free device.
- Parsing of YAML, JSON objects and quantities, except for the hand-built argument text and the patch paths: the model starts from parsed values.
- `shouldPodBeHandled` and `isPodReadyForProcessing`: they only decide by queries to the API server whether to start.
- Delays, logging and the `restartsStr` text of `PodStatus`.

Statements that are weaker than the code, or that rest on a premise:

- DeviceIds.CalculateFinalExclusiveSet: a device ID with a minus sign is an error here; the code would build a set with a negative CPU. The plugin never announces such an ID.
- DevicePlugin.CpuDeviceManager.Allocate: needs one readable device ID per container; the code indexes an empty list otherwise.
- Isolation.Node.InvariantHolds: the CPUs of exclusive and cloudphone pools are below the number of CPUs, without which the numbering is not injective (`DeviceIds.DecodingExact`); the kubelet gives no device to two containers.
- PreferredAllocation.GetPreferredAllocation: IDs are the numbers they print and each has a NUMA node; the code dereferences a hint that is missing. The in-place sort is a sorting function proved to be one.
- PreferredAllocation.Search.FoundExactly: only for a hoped-for run below a block whose top lies on a core of its own; otherwise what is held there depends on all IDs above, as `PreferredAllocation.Search.ExactResult` says.
- PreferredAllocation.Search.KeepsBlockExactly: only for a block whose top lies on a core of its own, for the same reason.
- CorrectCpuset.Container.DetermineCorrectCpuset: exclusive and cloudphone resource names have a slash; the code indexes out of range otherwise.
- Handshake.OrdinaryHandshake: needs at most one exclusive resource, shared pools that are alike and known to the plugins if a shared one is asked for, pool resource names that classify alike by prefix and by content, pool resources with the same positive request and limit, as Kubernetes demands of extended resources, and a checkpoint that lists the devices the plugin was asked for.
- Handshake.CloudphoneHandshake: no second pool resource in the container.
- EndToEnd.OrdinaryStarts: the container had no `CPU_POOLS` variable of its own, and the premises of the handshake and of `CgroupRuns` hold.
- CgroupTree.Tree.FindDirectory: the walk sees directories only; control files have fixed names that hold no container ID. Errors of the walk itself are not modelled.
- SetHandler.SetHandler.GetInfraContainerPath: siblings of the cpuset root itself lie outside the tree.
- SetHandler.SetHandler.HandlePod: the tree, the pool configuration and the checkpoint stay the same during the attempts.
- CgroupRuns.System.LeafValues: a restarted container keeps its directory, and every started container owns one unbranched directory that no other container or pod shares.
- ProcessStarter.StartProcesses: negative CPU counts are excluded, as the code slices out of range for them; the system calls themselves always succeed.
- AnnotationCheck.NeverRunsOut: the container has one exclusive pool, not overcommitted, whose CPUs have exactly one sibling each outside the granted set.
- WebhookVerdict.AllowedExactly: no two resources of a container name one pool; otherwise the later one in the map order counts, and `WebhookVerdict.AllowedFits` and `WebhookVerdict.TooMuchDenied` say what holds for all of them.
- AdmittedPod.AdmittedContainer: the arguments only for text that needs no escaping; `ArgsText.ReadsBackExactly` says when other text reads back.
- PodStatus.TriggersExactly: for snapshots of the same containers whose counts never fell; `PodStatus.PodChanged` has no such premise.
- Webhook.GetCPUPoolRequests: needs unique container names, which Kubernetes demands, and amounts that could be converted.
- Webhook.MutatePods: the review is decoded and about a pod. Argument text that is no JSON array of strings makes the patch fail when it is applied; the code already fails to serialise text that is no JSON at all.
- WebhookRuns.MountsHaveVolumes: no volume of the pod uses a name the webhook gives to its own, and no podinfo or hostbin volume exists.
- WebhookHistory.AnyNumberIsOneExactly: container names are unique, and the patch applies to the pod; otherwise there is nothing to repeat.
- WebhookHistory.SameVerdict: no two resources of a container name one pool; otherwise the later one in the map order counts.
