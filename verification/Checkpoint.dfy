/** The kubelet's record of which devices it gave to which container. */
module Checkpoint {
  import opened Wrappers
  import opened CpuSets
  import opened DeviceIds
  import opened GoText
  import opened Pools

  /** The number of a NUMA node; the kubelet uses -1 for devices without one. */
  datatype NumaID = NumaID(number: int)

  /** An entry of the format used since Kubernetes 1.21: device IDs per NUMA node. */
  datatype NumaEntry = NumaEntry(podUID: string, containerName: string, resourceName: string,
                                 deviceIDs: map<NumaID, seq<string>>)

  /** An entry of the older format, which the setter works on. */
  datatype Entry = Entry(podUID: string, containerName: string, resourceName: string, deviceIDs: seq<string>)

  function Concat(perNUMA: map<NumaID, seq<string>>, order: seq<NumaID>): seq<string>
    requires forall k | k in order :: k in perNUMA
  {
    if order == [] then [] else
      assert order[|order| - 1] in order;
      Concat(perNUMA, order[..|order| - 1]) + perNUMA[order[|order| - 1]]
  }

  ghost predicate IsConcat(ids: seq<string>, perNUMA: map<NumaID, seq<string>>) {
    exists order :: IsOrder(order, perNUMA.Keys) && ids == Concat(perNUMA, order)
  }

  /** The flat entry keeps the identity and lists the per-node IDs node after node. */
  ghost predicate Flattens(flat: Entry, entry: NumaEntry) {
    && flat.podUID == entry.podUID
    && flat.containerName == entry.containerName
    && flat.resourceName == entry.resourceName
    && IsConcat(flat.deviceIDs, entry.deviceIDs)
  }

  /** TranslateNewCheckpointToOld: fills preallocated entries one after the other. */
  method TranslateNewCheckpointToOld(newFile: seq<NumaEntry>) returns (oldFile: seq<Entry>)
    ensures |oldFile| == |newFile|
    ensures forall i | 0 <= i < |newFile| :: Flattens(oldFile[i], newFile[i])
  {
    var entries := new Entry[|newFile|](_ => Entry("", "", "", []));
    for entryID := 0 to |newFile|
      invariant forall i | 0 <= i < entryID :: Flattens(entries[i], newFile[i])
    {
      var entry := newFile[entryID];
      entries[entryID] := Entry(entry.podUID, entry.containerName, entry.resourceName, []);
      var ids := Append(entry.deviceIDs);
      entries[entryID] := entries[entryID].(deviceIDs := ids);
    }
    oldFile := entries[..];
  }

  /** The inner loop, visiting the NUMA nodes in any order. */
  method Append(perNUMA: map<NumaID, seq<string>>) returns (ids: seq<string>)
    ensures IsConcat(ids, perNUMA)
  {
    ids := [];
    ghost var order := [];
    var remaining := perNUMA.Keys;
    while remaining != {}
      invariant remaining <= perNUMA.Keys
      invariant IsOrder(order, perNUMA.Keys - remaining)
      invariant ids == Concat(perNUMA, order)
      decreases remaining
    {
      ghost var some := Member(remaining);
      var node :| node in remaining;
      ids := ids + perNUMA[node];
      assert (order + [node])[..|order|] == order;
      order := order + [node];
      remaining := remaining - {node};
    }
  }

  /** The device IDs of some NUMA nodes, counted with multiplicity. */
  ghost function Total(perNUMA: map<NumaID, seq<string>>, nodes: set<NumaID>): multiset<string>
    requires nodes <= perNUMA.Keys
  {
    if nodes == {} then multiset{} else
      var node :| node in nodes;
      multiset(perNUMA[node]) + Total(perNUMA, nodes - {node})
  }

  lemma {:induction false} TotalWithout(perNUMA: map<NumaID, seq<string>>, nodes: set<NumaID>, node: NumaID)
    requires nodes <= perNUMA.Keys && node in nodes
    ensures Total(perNUMA, nodes) == multiset(perNUMA[node]) + Total(perNUMA, nodes - {node})
  {
    var first :| first in nodes && Total(perNUMA, nodes) == multiset(perNUMA[first]) + Total(perNUMA, nodes - {first});
    if first != node {
      TotalWithout(perNUMA, nodes - {first}, node);
      TotalWithout(perNUMA, nodes - {node}, first);
      assert nodes - {first} - {node} == nodes - {node} - {first};
    }
  }

  /** However the map is visited, flattening keeps every ID as often as it occurs. */
  lemma {:induction false} ConcatKeepsIds(perNUMA: map<NumaID, seq<string>>, order: seq<NumaID>, nodes: set<NumaID>)
    requires nodes <= perNUMA.Keys && IsOrder(order, nodes)
    ensures multiset(Concat(perNUMA, order)) == Total(perNUMA, nodes)
  {
    if order == [] {
      assert forall k :: k in nodes ==> k in order;
    } else {
      var n := |order| - 1;
      var front, last := order[..n], order[n];
      assert order == front + [last];
      assert forall k :: k in order <==> k in front || k == last;
      ConcatKeepsIds(perNUMA, front, nodes - {last});
      TotalWithout(perNUMA, nodes, last);
    }
  }

  /** The IDs themselves are those of all NUMA nodes together. */
  lemma {:induction false} ConcatMembers(perNUMA: map<NumaID, seq<string>>, order: seq<NumaID>, id: string)
    requires forall k | k in order :: k in perNUMA
    ensures id in Concat(perNUMA, order) <==> exists k :: k in order && id in perNUMA[k]
  {
    if order != [] {
      var n := |order| - 1;
      ConcatMembers(perNUMA, order[..n], id);
      assert order == order[..n] + [order[n]];
      assert forall k :: k in order <==> k in order[..n] || k == order[n];
      assert id in Concat(perNUMA, order) <==> id in Concat(perNUMA, order[..n]) || id in perNUMA[order[n]];
    }
  }

  ghost predicate Holds(perNUMA: map<NumaID, seq<string>>, id: string) {
    exists k :: k in perNUMA && id in perNUMA[k]
  }

  lemma FlattenedMembers(flat: Entry, entry: NumaEntry, id: string)
    requires Flattens(flat, entry)
    ensures id in flat.deviceIDs <==> Holds(entry.deviceIDs, id)
  {
    var order :| IsOrder(order, entry.deviceIDs.Keys) && flat.deviceIDs == Concat(entry.deviceIDs, order);
    ConcatMembers(entry.deviceIDs, order, id);
  }

  // ---- The setter's view ----

  /** The IDs of a container's devices of one resource, over all entries. */
  function AllocatedIds(entries: seq<Entry>, podUID: string, containerName: string, resource: string): seq<string> {
    if entries == [] then [] else
      var before := AllocatedIds(entries[..|entries| - 1], podUID, containerName, resource);
      var last := entries[|entries| - 1];
      if last.podUID == podUID && last.containerName == containerName && last.resourceName == resource
      then before + last.deviceIDs else before
  }

  /** getListOfAllocatedExclusiveCpus on a checkpoint that could be read. A container
      without devices gets the empty set, which is what no IDs decode to. */
  method AllocatedExclusiveCpus(entries: seq<Entry>, podUID: string, containerName: string, resource: string, numCPU: nat)
    returns (cpus: Option<CPUSet>)
    requires numCPU > 0
    ensures cpus == SetterSet(AllocatedIds(entries, podUID, containerName, resource), numCPU)
  {
    var deviceIDs: seq<string> := [];
    for i := 0 to |entries|
      invariant deviceIDs == AllocatedIds(entries[..i], podUID, containerName, resource)
    {
      var entry := entries[i];
      assert entries[..i + 1][..i] == entries[..i];
      if entry.podUID == podUID && entry.containerName == containerName && entry.resourceName == resource {
        deviceIDs := deviceIDs + entry.deviceIDs;
      }
    }
    assert entries[..|entries|] == entries;
    if |deviceIDs| == 0 {
      NoIdsNoCpus(numCPU);
      return Some({});
    }
    cpus := CalculateFinalExclusiveSet(deviceIDs, numCPU);
  }

  ghost predicate EntryLists(e: Entry, podUID: string, containerName: string, resource: string, id: string) {
    e.podUID == podUID && e.containerName == containerName && e.resourceName == resource && id in e.deviceIDs
  }

  /** Some entry of this pod, this container and this resource lists the device ID. */
  ghost predicate Lists(entries: seq<Entry>, podUID: string, containerName: string, resource: string, id: string) {
    exists i :: 0 <= i < |entries| && EntryLists(entries[i], podUID, containerName, resource, id)
  }

  /** The setter collects exactly the listed IDs. */
  lemma {:induction false} AllocatedExactly(entries: seq<Entry>, podUID: string, containerName: string, resource: string, id: string)
    ensures id in AllocatedIds(entries, podUID, containerName, resource) <==> Lists(entries, podUID, containerName, resource, id)
  {
    if entries != [] {
      var n := |entries| - 1;
      AllocatedExactly(entries[..n], podUID, containerName, resource, id);
      if i :| 0 <= i <= n && EntryLists(entries[i], podUID, containerName, resource, id) {
        assert i < n ==> entries[..n][i] == entries[i];
      }
    }
  }

  /** The device IDs recorded for a container are these. */
  ghost predicate Records(entries: seq<Entry>, podUID: string, containerName: string, resource: string, ids: seq<string>) {
    forall id :: Lists(entries, podUID, containerName, resource, id) <==> id in ids
  }

  lemma RecordsAllocated(entries: seq<Entry>, podUID: string, containerName: string, resource: string, ids: seq<string>)
    requires Records(entries, podUID, containerName, resource, ids)
    ensures SameMembers(AllocatedIds(entries, podUID, containerName, resource), ids)
  {
    forall id ensures id in AllocatedIds(entries, podUID, containerName, resource) <==> id in ids {
      AllocatedExactly(entries, podUID, containerName, resource, id);
    }
  }

  /** The decoded set, on the entries: it fails for a listed ID that is no number, and else
      holds the remainders of the listed numbers. */
  lemma DecodedExactly(entries: seq<Entry>, podUID: string, containerName: string, resource: string, numCPU: nat)
    requires numCPU > 0
    ensures var cpus := SetterSet(AllocatedIds(entries, podUID, containerName, resource), numCPU);
      && (cpus.None? <==> exists id :: Lists(entries, podUID, containerName, resource, id) && !SetterReads(id))
      && (cpus.Some? ==> forall c :: c in cpus.value <==>
            exists id :: Lists(entries, podUID, containerName, resource, id) && SetterReads(id) && Atoi(id).value % numCPU == c)
  {
    forall id ensures id in AllocatedIds(entries, podUID, containerName, resource) <==> Lists(entries, podUID, containerName, resource, id) {
      AllocatedExactly(entries, podUID, containerName, resource, id);
    }
  }

  /** Entries of another pod, of another container of the pod or of another resource change
      nothing, wherever they stand. */
  lemma {:induction false} OthersIgnored(front: seq<Entry>, other: Entry, back: seq<Entry>,
                                         podUID: string, containerName: string, resource: string)
    requires other.podUID != podUID || other.containerName != containerName || other.resourceName != resource
    ensures AllocatedIds(front + [other] + back, podUID, containerName, resource)
         == AllocatedIds(front + back, podUID, containerName, resource)
  {
    var longer, shorter := front + [other] + back, front + back;
    if back == [] {
      assert longer[..|longer| - 1] == front == shorter;
    } else {
      var n := |back| - 1;
      OthersIgnored(front, other, back[..n], podUID, containerName, resource);
      assert longer[..|longer| - 1] == front + [other] + back[..n];
      assert shorter[..|shorter| - 1] == front + back[..n];
    }
  }

  lemma NoIdsNoCpus(numCPU: nat)
    requires numCPU > 0
    ensures SetterSet([], numCPU) == Some({})
  {
    var none: seq<string>, cpus: CPUSet := [], {};
    assert cpus == set id | id in none :: SetterCpu(id, numCPU);
  }

  ghost predicate SameMembers(a: seq<string>, b: seq<string>) {
    forall id :: id in a <==> id in b
  }

  lemma SameMembersSameSet(a: seq<string>, b: seq<string>, numCPU: nat)
    requires numCPU > 0 && SameMembers(a, b)
    ensures SetterSet(a, numCPU) == SetterSet(b, numCPU)
  {
    if forall id | id in a :: SetterReads(id) {
      var x := set id | id in a :: SetterCpu(id, numCPU);
      var y := set id | id in b :: SetterCpu(id, numCPU);
      assert x <= y && y <= x;
      assert x == y;
      assert forall id | id in b :: SetterReads(id);
    } else {
      var id :| id in a && !SetterReads(id);
      assert id in b;
    }
  }

  /** Two records of the same allocations: the same entries, whose IDs may be split
      over NUMA nodes differently. */
  ghost predicate SameAllocations(a: seq<NumaEntry>, b: seq<NumaEntry>) {
    && |a| == |b|
    && forall i | 0 <= i < |a| ::
         && a[i].podUID == b[i].podUID && a[i].containerName == b[i].containerName
         && a[i].resourceName == b[i].resourceName
         && forall id :: Holds(a[i].deviceIDs, id) <==> Holds(b[i].deviceIDs, id)
  }

  ghost predicate Similar(a: seq<Entry>, b: seq<Entry>) {
    && |a| == |b|
    && forall i | 0 <= i < |a| ::
         && a[i].podUID == b[i].podUID && a[i].containerName == b[i].containerName
         && a[i].resourceName == b[i].resourceName && SameMembers(a[i].deviceIDs, b[i].deviceIDs)
  }

  lemma {:induction false} SimilarIds(a: seq<Entry>, b: seq<Entry>, podUID: string, containerName: string, resource: string)
    requires Similar(a, b)
    ensures SameMembers(AllocatedIds(a, podUID, containerName, resource), AllocatedIds(b, podUID, containerName, resource))
  {
    if a != [] {
      SimilarIds(a[..|a| - 1], b[..|b| - 1], podUID, containerName, resource);
    }
  }

  /** The CPUs decoded from a checkpoint depend neither on the order in which the map of
      NUMA nodes is visited nor on how the IDs are split over the nodes. */
  lemma DecodedCpusIndependent(a: seq<NumaEntry>, b: seq<NumaEntry>, flatA: seq<Entry>, flatB: seq<Entry>,
                               podUID: string, containerName: string, resource: string, numCPU: nat)
    requires numCPU > 0 && SameAllocations(a, b)
    requires |flatA| == |a| && forall i | 0 <= i < |a| :: Flattens(flatA[i], a[i])
    requires |flatB| == |b| && forall i | 0 <= i < |b| :: Flattens(flatB[i], b[i])
    ensures SetterSet(AllocatedIds(flatA, podUID, containerName, resource), numCPU)
         == SetterSet(AllocatedIds(flatB, podUID, containerName, resource), numCPU)
  {
    forall i | 0 <= i < |a| ensures SameMembers(flatA[i].deviceIDs, flatB[i].deviceIDs) {
      forall id ensures id in flatA[i].deviceIDs <==> id in flatB[i].deviceIDs {
        FlattenedMembers(flatA[i], a[i], id);
        FlattenedMembers(flatB[i], b[i], id);
      }
    }
    SimilarIds(flatA, flatB, podUID, containerName, resource);
    SameMembersSameSet(AllocatedIds(flatA, podUID, containerName, resource),
                       AllocatedIds(flatB, podUID, containerName, resource), numCPU);
  }

  /** The translation keeps an entry's device IDs, counted with multiplicity, in
      whichever order the NUMA nodes are visited. */
  lemma TranslationKeepsIds(flat: Entry, entry: NumaEntry)
    requires Flattens(flat, entry)
    ensures multiset(flat.deviceIDs) == Total(entry.deviceIDs, entry.deviceIDs.Keys)
  {
    var order :| IsOrder(order, entry.deviceIDs.Keys) && flat.deviceIDs == Concat(entry.deviceIDs, order);
    ConcatKeepsIds(entry.deviceIDs, order, entry.deviceIDs.Keys);
  }
}
