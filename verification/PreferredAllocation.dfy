/** GetPreferredAllocation: which of the free devices the plugin would like to hand out.
    Device IDs appear as the numbers they print. */
module PreferredAllocation {
  import opened DeviceIds

  ghost predicate Descending(s: seq<nat>) {
    forall i, j | 0 <= i < j < |s| :: s[i] >= s[j]
  }

  ghost predicate StrictlyDescending(s: seq<nat>) {
    forall i, j | 0 <= i < j < |s| :: s[i] > s[j]
  }

  function Insert(id: nat, s: seq<nat>): seq<nat> {
    if s == [] then [id]
    else if id >= s[0] then [id] + s
    else [s[0]] + Insert(id, s[1..])
  }

  /** slices.SortFunc with the descending comparison */
  function SortDescending(s: seq<nat>): seq<nat> {
    if s == [] then [] else Insert(s[0], SortDescending(s[1..]))
  }

  lemma {:induction false} InsertKeeps(id: nat, s: seq<nat>)
    ensures multiset(Insert(id, s)) == multiset(s) + multiset{id}
  {
    if s != [] {
      assert s == [s[0]] + s[1..];
      InsertKeeps(id, s[1..]);
    }
  }

  lemma {:induction false} InsertSorted(id: nat, s: seq<nat>)
    requires Descending(s)
    ensures Descending(Insert(id, s))
  {
    if s != [] && id < s[0] {
      var rest := Insert(id, s[1..]);
      InsertSorted(id, s[1..]);
      InsertKeeps(id, s[1..]);
      forall j | 0 <= j < |rest| ensures rest[j] <= s[0] {
        assert rest[j] in multiset(s[1..]) + multiset{id};
        if rest[j] != id {
          assert rest[j] in s[1..];
        }
      }
      DescendingCons(s[0], rest);
    }
  }

  lemma DescendingCons(head: nat, rest: seq<nat>)
    requires Descending(rest) && forall j | 0 <= j < |rest| :: rest[j] <= head
    ensures Descending([head] + rest)
  {
  }

  lemma {:induction false} SortDescendingSorts(s: seq<nat>)
    ensures multiset(SortDescending(s)) == multiset(s)
    ensures Descending(SortDescending(s))
  {
    if s != [] {
      assert s == [s[0]] + s[1..];
      SortDescendingSorts(s[1..]);
      InsertKeeps(s[0], SortDescending(s[1..]));
      InsertSorted(s[0], SortDescending(s[1..]));
    }
  }

  /** The free devices of one NUMA node, in their given order. */
  function OnNode(ids: seq<nat>, nodes: map<nat, int>, node: int): seq<nat>
    requires forall id | id in ids :: id in nodes
  {
    if ids == [] then [] else
      var front := OnNode(ids[..|ids| - 1], nodes, node);
      var last := ids[|ids| - 1];
      if nodes[last] == node then front + [last] else front
  }

  ghost predicate IsGrouping(groups: map<int, seq<nat>>, ids: seq<nat>, nodes: map<nat, int>)
    requires forall id | id in ids :: id in nodes
  {
    && (forall node :: node in groups <==> exists id :: id in ids && nodes[id] == node)
    && (forall node | node in groups :: groups[node] == OnNode(ids, nodes, node))
  }

  /** The loop that fills numaMap. */
  method GroupByNode(ids: seq<nat>, nodes: map<nat, int>) returns (groups: map<int, seq<nat>>)
    requires forall id | id in ids :: id in nodes
    ensures IsGrouping(groups, ids, nodes)
  {
    groups := map[];
    for i := 0 to |ids|
      invariant IsGrouping(groups, ids[..i], nodes)
    {
      var node := nodes[ids[i]];
      ghost var front := ids[..i];
      assert ids[..i + 1][..i] == front;
      NotYetSeen(front, nodes, node);
      if node in groups {
        groups := groups[node := groups[node] + [ids[i]]];
      } else {
        groups := groups[node := [ids[i]]];
      }
      assert forall id :: id in ids[..i + 1] <==> id in front || id == ids[i];
    }
    assert ids[..|ids|] == ids;
  }

  lemma {:induction false} NotYetSeen(ids: seq<nat>, nodes: map<nat, int>, node: int)
    requires forall id | id in ids :: id in nodes
    ensures (forall id | id in ids :: nodes[id] != node) ==> OnNode(ids, nodes, node) == []
  {
    if ids != [] {
      NotYetSeen(ids[..|ids| - 1], nodes, node);
    }
  }

  /** The cores of some device numbers. */
  function Remainders(ids: seq<nat>, numCPU: nat): set<nat>
    requires numCPU > 0
  {
    set id | id in ids :: id % numCPU
  }

  lemma RemaindersAppend(ids: seq<nat>, id: nat, numCPU: nat)
    requires numCPU > 0
    ensures Remainders(ids + [id], numCPU) == Remainders(ids, numCPU) + {id % numCPU}
  {
    var extended := ids + [id];
    assert forall x :: x in extended <==> x in ids || x == id;
    assert Remainders(ids, numCPU) <= Remainders(extended, numCPU);
    assert id in extended;
    assert id % numCPU in Remainders(extended, numCPU);
    assert Remainders(extended, numCPU) <= Remainders(ids, numCPU) + {id % numCPU};
  }

  /** The search through the chosen node's free devices, from the highest ID down. */
  datatype Search = Search(numCPU: nat, size: int, nodeTopology: map<nat, int>) {

    predicate Valid() {
      numCPU > 0
    }

    /** The cores already covered: the set the program calls idSet. */
    function Cores(preferred: seq<nat>): set<nat>
      requires Valid()
    {
      Remainders(preferred, numCPU)
    }

    function Node(id: nat): int
      requires Valid()
    {
      NodeIn(nodeTopology, id % numCPU)
    }

    /** Whether an ID extends the run found so far. */
    predicate Extends(preferred: seq<nat>, id: nat)
      requires Valid() && preferred != []
    {
      var previous := preferred[|preferred| - 1];
      Node(id) == Node(previous) && (previous == id + 1 || id == previous + 1)
    }

    /** One iteration: an ID on a covered core is passed over; one that does not extend
        the run starts a new one. */
    function Step(preferred: seq<nat>, id: nat): seq<nat>
      requires Valid()
    {
      if id % numCPU in Cores(preferred) then preferred
      else if preferred != [] && Extends(preferred, id) then preferred + [id]
      else [id]
    }

    predicate Done(preferred: seq<nat>) {
      preferred != [] && |preferred| == size
    }

    /** The run held after looking at the first m IDs. */
    function ScanTo(ids: seq<nat>, m: nat): seq<nat>
      requires Valid() && m <= |ids|
    {
      if m == 0 then [] else
        var before := ScanTo(ids, m - 1);
        if Done(before) then before else Step(before, ids[m - 1])
    }

    function Scan(ids: seq<nat>): seq<nat>
      requires Valid()
    {
      ScanTo(ids, |ids|)
    }

    /** The selection loop of GetPreferredAllocation. */
    method Select(ids: seq<nat>) returns (preferredIDs: seq<nat>)
      requires Valid()
      ensures preferredIDs == Scan(ids)
    {
      preferredIDs := [];
      var idSet: set<nat> := {};
      var i := 0;
      while i < |ids|
        invariant 0 <= i <= |ids|
        invariant idSet == Cores(preferredIDs)
        invariant preferredIDs == ScanTo(ids, i) && !Done(preferredIDs)
      {
        var id := ids[i];
        i := i + 1;
        if id % numCPU in idSet {
          continue;
        }
        if |preferredIDs| > 0 {
          var previous := preferredIDs[|preferredIDs| - 1];
          if Node(id) != Node(previous) {
            preferredIDs, idSet := [], {};
          }
          if previous - id != 1 && id - previous != 1 {
            preferredIDs, idSet := [], {};
          }
        }
        RemaindersAppend(preferredIDs, id, numCPU);
        preferredIDs := preferredIDs + [id];
        idSet := idSet + {id % numCPU};
        if |preferredIDs| == size {
          DoneStays(ids, i, |ids|);
          return;
        }
      }
    }

    lemma {:induction false} DoneStays(ids: seq<nat>, i: nat, m: nat)
      requires Valid() && i <= m <= |ids| && Done(ScanTo(ids, i))
      ensures ScanTo(ids, m) == ScanTo(ids, i)
    {
      if i < m {
        DoneStays(ids, i, m - 1);
      }
    }

    ghost predicate Falls(run: seq<nat>) {
      forall j | 0 <= j < |run| :: run[j] + j == run[0]
    }

    ghost predicate SameNode(run: seq<nat>)
      requires Valid()
    {
      forall j | 0 <= j < |run| :: Node(run[j]) == Node(run[0])
    }

    ghost predicate DistinctCores(run: seq<nat>)
      requires Valid()
    {
      forall j, k | 0 <= j < k < |run| :: run[j] % numCPU != run[k] % numCPU
    }

    /** A run: IDs that fall by one, on one node, on cores of their own. */
    ghost predicate IsRun(run: seq<nat>)
      requires Valid()
    {
      Falls(run) && SameNode(run) && DistinctCores(run)
    }

    lemma StepIsRun(run: seq<nat>, id: nat)
      requires Valid() && IsRun(run)
      requires forall x | x in run :: x >= id
      ensures IsRun(Step(run, id))
    {
      if run != [] && id % numCPU !in Cores(run) && Extends(run, id) {
        var n := |run| - 1;
        assert run[n] in run;
        var longer := run + [id];
        assert longer[0] == run[0];
        forall j | 0 <= j < |run| ensures longer[j] % numCPU != id % numCPU {
          assert run[j] in run;
        }
      }
    }

    /** Whatever the overcommitment and the node: the search holds a run of IDs it has
        seen, no longer than what was asked for. */
    lemma {:induction false} ScanIsRun(ids: seq<nat>, m: nat)
      requires Valid() && Descending(ids) && m <= |ids|
      ensures IsRun(ScanTo(ids, m))
      ensures forall id | id in ScanTo(ids, m) :: id in ids[..m]
      ensures size >= 1 ==> |ScanTo(ids, m)| <= size
    {
      if m > 0 {
        ScanIsRun(ids, m - 1);
        var before, id := ScanTo(ids, m - 1), ids[m - 1];
        assert ids[..m] == ids[..m - 1] + [id];
        forall x | x in before ensures x >= id {
          assert x in ids[..m - 1];
        }
        StepIsRun(before, id);
      }
    }

    // ---- The exact result on distinct IDs of one node ----

    ghost predicate OneNode(s: seq<nat>)
      requires Valid()
    {
      forall a, b | a in s && b in s :: Node(a) == Node(b)
    }

    /** The answer a caller hopes for: the highest k = size consecutive free IDs or, when
        there are none, the whole lowest block of consecutive IDs. */
    ghost predicate Target(s: seq<nat>, i: nat, k: nat) {
      && k >= 1 && RunAt(s, i, k)
      && (forall j | 0 <= j < i :: !RunAt(s, j, size))
      && (i == 0 || s[i - 1] > s[i] + 1)
      && (k == size || (k < size && i + k == |s|))
    }

    /** No run is completed where there is none. */
    lemma NotDoneBefore(s: seq<nat>, i: nat)
      requires Valid() && StrictlyDescending(s) && i <= |s| && forall j | 0 <= j < i :: !RunAt(s, j, size)
      ensures !Done(ScanTo(s, i))
    {
      ScanIsRun(s, i);
      var run := ScanTo(s, i);
      if run != [] {
        var j := RunSits(s, i, run);
        assert RunAt(s, j, |run|);
      }
    }

    /** After a gap in the numbers no ID extends the run. */
    lemma BreaksRun(s: seq<nat>, i: nat, run: seq<nat>)
      requires Valid() && StrictlyDescending(s) && i < |s| && (i == 0 || s[i - 1] > s[i] + 1)
      requires forall id | id in run :: id in s[..i]
      ensures run != [] ==> !Extends(run, s[i])
    {
      if run != [] {
        var previous := run[|run| - 1];
        assert previous in run;
        assert previous in s[..i];
        var j :| 0 <= j < i && s[j] == previous;
        assert s[j] >= s[i - 1];
      }
    }

    /** The target's highest ID starts a run of its own. */
    lemma StartsNewRun(s: seq<nat>, i: nat, k: nat)
      requires Valid() && StrictlyDescending(s) && size >= 1 && Target(s, i, k)
      requires s[i] % numCPU !in Cores(ScanTo(s, i))
      ensures ScanTo(s, i + 1) == [s[i]]
    {
      NotDoneBefore(s, i);
      ScanIsRun(s, i);
      BreaksRun(s, i, ScanTo(s, i));
    }

    /** Further along the block, cores are new until numCPU of them are covered. */
    lemma StepAlong(s: seq<nat>, i: nat, k: nat, m: nat)
      requires Valid() && OneNode(s) && RunAt(s, i, k)
      requires i < m < i + k && m - i < numCPU
      ensures Step(s[i..m], s[m]) == s[i..m + 1]
    {
      var before, id := s[i..m], s[m];
      forall a | a in before ensures a % numCPU != id % numCPU {
        assert id < a && a <= id + (m - i);
        if a % numCPU == id % numCPU {
          SameRemainder(a, id, numCPU);
        }
      }
      assert before[m - i - 1] == s[m - 1] == id + 1;
      assert s[m - 1] in s && id in s;
      assert s[i..m + 1] == before + [id];
    }

    /** Once started, the scan collects the block as far as it goes. */
    lemma {:induction false} ScanAlong(s: seq<nat>, i: nat, k: nat, m: nat)
      requires Valid() && OneNode(s) && RunAt(s, i, k) && k <= size
      requires i < m <= i + k && m - i <= numCPU
      requires ScanTo(s, i + 1) == [s[i]]
      ensures ScanTo(s, m) == s[i..m]
    {
      if m > i + 1 {
        ScanAlong(s, i, k, m - 1);
        StepAlong(s, i, k, m - 1);
        assert !Done(s[i..m - 1]);
      }
    }

    /** An ID that was passed over never comes back. */
    lemma {:induction false} PassedOver(s: seq<nat>, i: nat, m: nat)
      requires Valid() && StrictlyDescending(s) && i < m <= |s|
      requires s[i] % numCPU in Cores(ScanTo(s, i))
      ensures s[i] !in ScanTo(s, m)
    {
      if m == i + 1 {
        ScanIsRun(s, i);
        assert s[i] !in s[..i];
      } else {
        PassedOver(s, i, m - 1);
        assert s[m - 1] != s[i];
      }
    }

    lemma RunFitsCores(run: seq<nat>)
      requires Valid() && IsRun(run)
      ensures |run| <= numCPU
    {
      if |run| > numCPU {
        assert run[numCPU] + numCPU == run[0];
        DivModUnique(run[0], numCPU, run[numCPU] / numCPU + 1, run[numCPU] % numCPU);
      }
    }

    /** The scan is over at the end of the IDs, or before if it has enough. */
    lemma ScanEnds(s: seq<nat>, m: nat, run: seq<nat>)
      requires Valid() && m <= |s| && ScanTo(s, m) == run && (m == |s| || Done(run))
      ensures Scan(s) == run
    {
      if m < |s| {
        DoneStays(s, m, |s|);
      }
    }

    lemma TargetEnds(s: seq<nat>, i: nat, k: nat)
      requires Target(s, i, k)
      ensures RunAt(s, i, k) && i + k <= |s| && k <= size && (i + k == |s| || k == size)
    {
    }

    lemma CollectsRun(s: seq<nat>, i: nat, k: nat)
      requires Valid() && OneNode(s) && RunAt(s, i, k) && 1 <= k <= numCPU && k <= size && i + k <= |s|
      requires ScanTo(s, i + 1) == [s[i]] && (i + k == |s| || k == size)
      ensures Scan(s) == s[i..i + k]
    {
      var run := s[i..i + k];
      assert |run| == k;
      ScanAlong(s, i, k, i + k);
      ScanEnds(s, i + k, run);
    }

    lemma ReachesTarget(s: seq<nat>, i: nat, k: nat)
      requires Valid() && StrictlyDescending(s) && OneNode(s) && size >= 1 && Target(s, i, k)
      requires k <= numCPU && s[i] % numCPU !in Cores(ScanTo(s, i))
      ensures Scan(s) == s[i..i + k]
    {
      StartsNewRun(s, i, k);
      TargetEnds(s, i, k);
      CollectsRun(s, i, k);
    }

    lemma MissesTarget(s: seq<nat>, i: nat, k: nat)
      requires Valid() && StrictlyDescending(s) && i < |s| && i + k <= |s| && k >= 1
      requires k > numCPU || s[i] % numCPU in Cores(ScanTo(s, i))
      ensures Scan(s) != s[i..i + k]
    {
      if k > numCPU {
        ScanIsRun(s, |s|);
        RunFitsCores(Scan(s));
      } else {
        PassedOver(s, i, |s|);
        assert s[i] == s[i..i + k][0];
      }
    }

    /** For every overcommitment: the search answers with the target exactly when the
        target fits into the cores and its highest ID is not passed over, that is,
        lies on no core covered by the run held when the search gets to it. */
    lemma ExactResult(s: seq<nat>, i: nat, k: nat)
      requires Valid() && StrictlyDescending(s) && OneNode(s) && size >= 1 && Target(s, i, k)
      ensures Scan(s) == s[i..i + k] <==> k <= numCPU && s[i] % numCPU !in Cores(ScanTo(s, i))
    {
      if k <= numCPU && s[i] % numCPU !in Cores(ScanTo(s, i)) {
        ReachesTarget(s, i, k);
      } else {
        MissesTarget(s, i, k);
      }
    }

    /** For every overcommitment: the search answers with the target if it fits into the
        cores and no free ID above it lies on the core of its highest ID. */
    lemma FoundIfCoreFree(s: seq<nat>, i: nat, k: nat)
      requires Valid() && StrictlyDescending(s) && OneNode(s) && size >= 1 && Target(s, i, k)
      requires k <= numCPU && forall j | 0 <= j < i :: s[j] % numCPU != s[i] % numCPU
      ensures Scan(s) == s[i..i + k]
    {
      ScanIsRun(s, i);
      forall id | id in ScanTo(s, i) ensures id % numCPU != s[i] % numCPU {
        assert id in s[..i];
      }
      ReachesTarget(s, i, k);
    }

    /** The IDs from position a to i are consecutive, on cores of their own and fewer than
        asked for, and the highest shares its core with no ID above it; no run of the
        requested size starts above position i. */
    ghost predicate BlockAbove(s: seq<nat>, a: nat, i: nat)
      requires Valid()
    {
      && a < i <= |s| && RunAt(s, a, i - a) && i - a <= numCPU && (a == 0 || s[a - 1] > s[a] + 1)
      && (forall j | 0 <= j < a :: s[j] % numCPU != s[a] % numCPU)
      && forall j | 0 <= j < i :: !RunAt(s, j, size)
    }

    /** The search holds that block when it has looked at its last ID. */
    lemma HoldsBlock(s: seq<nat>, a: nat, i: nat)
      requires Valid() && StrictlyDescending(s) && OneNode(s) && BlockAbove(s, a, i)
      ensures ScanTo(s, i) == s[a..i]
    {
      NotDoneBefore(s, a);
      ScanIsRun(s, a);
      forall id | id in ScanTo(s, a) ensures id % numCPU != s[a] % numCPU {
        assert id in s[..a];
      }
      BreaksRun(s, a, ScanTo(s, a));
      BlockIsShort(s, a, i);
      ScanAlong(s, a, i - a, i);
    }

    lemma BlockIsShort(s: seq<nat>, a: nat, i: nat)
      requires Valid() && BlockAbove(s, a, i)
      ensures i - a < size
    {
      if i - a >= size {
        assert RunAt(s, a, size);
      }
    }

    /** Below such a block, for every overcommitment: the search answers with the target
        exactly when it fits into the cores and no ID of the block lies on the core of its
        highest ID. */
    lemma FoundExactly(s: seq<nat>, i: nat, k: nat, a: nat)
      requires Valid() && StrictlyDescending(s) && OneNode(s) && size >= 1 && Target(s, i, k) && BlockAbove(s, a, i)
      ensures Scan(s) == s[i..i + k] <==> k <= numCPU && forall j | a <= j < i :: s[j] % numCPU != s[i] % numCPU
    {
      HoldsBlock(s, a, i);
      ExactResult(s, i, k);
      SharesCore(s, a, i, s[i]);
    }

    // ---- What an ID on a covered core does: nothing ----

    ghost predicate OnCoreOf(s: seq<nat>, a: nat, i: nat, id: nat)
      requires Valid() && a <= i <= |s|
    {
      exists j :: a <= j < i && s[j] % numCPU == id % numCPU
    }

    lemma SharesCore(s: seq<nat>, a: nat, i: nat, id: nat)
      requires Valid() && a <= i <= |s|
      ensures id % numCPU in Cores(s[a..i]) <==> OnCoreOf(s, a, i, id)
    {
      var block := s[a..i];
      forall j | a <= j < i ensures s[j] in block && s[j] % numCPU in Cores(block) {
        assert block[j - a] == s[j];
      }
    }

    lemma {:induction false} ScanFront(ids: seq<nat>, more: seq<nat>, m: nat)
      requires Valid() && m <= |ids|
      ensures ScanTo(ids + more, m) == ScanTo(ids, m)
    {
      if m > 0 {
        ScanFront(ids, more, m - 1);
      }
    }

    lemma {:induction false} ScanOn(front: seq<nat>, other: seq<nat>, back: seq<nat>, m: nat)
      requires Valid() && m <= |back| && Scan(front) == Scan(other)
      ensures ScanTo(front + back, |front| + m) == ScanTo(other + back, |other| + m)
    {
      if m == 0 {
        ScanFront(front, back, |front|);
        ScanFront(other, back, |other|);
      } else {
        ScanOn(front, other, back, m - 1);
        assert (front + back)[|front| + m - 1] == back[m - 1] == (other + back)[|other| + m - 1];
      }
    }

    lemma ScanSkips(front: seq<nat>, id: nat)
      requires Valid() && id % numCPU in Cores(Scan(front))
      ensures Scan(front + [id]) == Scan(front)
    {
      ScanFront(front, [id], |front|);
      assert (front + [id])[|front|] == id;
    }

    /** For all IDs, nodes and sizes: an ID on a core of what the search has found in the IDs
        above it changes nothing, wherever the search goes from there. */
    lemma CoveredChangesNothing(front: seq<nat>, id: nat, back: seq<nat>, found: nat)
      requires Valid() && found in Scan(front) && found % numCPU == id % numCPU
      ensures Scan(front + [id] + back) == Scan(front + back)
    {
      ScanSkips(front, id);
      ScanOn(front + [id], front, back, |back|);
    }

    lemma HeldCoreIgnored(s: seq<nat>, a: nat, i: nat, found: nat)
      requires Valid() && a < i < |s| && ScanTo(s, i) == s[a..i]
      requires found in s[a..i] && found % numCPU == s[i] % numCPU
      ensures Scan(s) == Scan(s[..i] + s[i + 1..])
    {
      var front, back := s[..i], s[i + 1..];
      FrontOfWhole(s, i);
      assert s == front + [s[i]] + back;
      CoveredChangesNothing(front, s[i], back, found);
    }

    lemma FrontOfWhole(s: seq<nat>, i: nat)
      requires Valid() && i <= |s|
      ensures Scan(s[..i]) == ScanTo(s, i)
    {
      assert s == s[..i] + s[i..];
      ScanFront(s[..i], s[i..], i);
    }

    /** In terms of positions: so an ID below such a block and on one of its cores neither
        ends the run nor joins it. */
    lemma PassedOverIgnored(s: seq<nat>, a: nat, i: nat)
      requires Valid() && StrictlyDescending(s) && OneNode(s) && BlockAbove(s, a, i) && i < |s|
      requires OnCoreOf(s, a, i, s[i])
      ensures Scan(s) == Scan(s[..i] + s[i + 1..])
    {
      HoldsBlock(s, a, i);
      var j :| a <= j < i && s[j] % numCPU == s[i] % numCPU;
      assert s[a..i][j - a] == s[j];
      HeldCoreIgnored(s, a, i, s[j]);
    }

    lemma {:induction false} StaysCovered(s: seq<nat>, a: nat, i: nat, m: nat)
      requires Valid() && a <= i <= m <= |s| && ScanTo(s, i) == s[a..i]
      requires forall j | i <= j < m :: OnCoreOf(s, a, i, s[j])
      ensures ScanTo(s, m) == s[a..i]
    {
      if i < m {
        StaysCovered(s, a, i, m - 1);
        SharesCore(s, a, i, s[m - 1]);
      }
    }

    /** What the search holds once it has started anew at position j. */
    lemma {:induction false} HoldsLower(s: seq<nat>, j: nat, m: nat)
      requires Valid() && StrictlyDescending(s) && j < m <= |s| && ScanTo(s, j + 1) == [s[j]]
      ensures forall id | id in ScanTo(s, m) :: id <= s[j]
    {
      if j + 1 < m {
        HoldsLower(s, j, m - 1);
      }
    }

    /** The first ID on a core of its own starts a run of its own. */
    lemma StartsBelow(s: seq<nat>, a: nat, i: nat, j: nat)
      requires Valid() && StrictlyDescending(s) && a < i <= j < |s| && i - a < size && ScanTo(s, j) == s[a..i]
      requires s[i - 1] > s[i] + 1 && !OnCoreOf(s, a, i, s[j])
      ensures ScanTo(s, j + 1) == [s[j]]
    {
      SharesCore(s, a, i, s[j]);
      var run := s[a..i];
      assert run[|run| - 1] == s[i - 1] && s[i] >= s[j];
    }

    lemma LeavesBlock(s: seq<nat>, a: nat, i: nat, j: nat)
      requires Valid() && StrictlyDescending(s) && a < i <= j < |s| && i - a < size && ScanTo(s, i) == s[a..i]
      requires s[i - 1] > s[i] + 1 && !OnCoreOf(s, a, i, s[j]) && forall k | i <= k < j :: OnCoreOf(s, a, i, s[k])
      ensures Scan(s) != s[a..i]
    {
      StaysCovered(s, a, i, j);
      StartsBelow(s, a, i, j);
      HoldsLower(s, j, |s|);
      assert s[a..i][0] == s[a] > s[j];
      assert s[a] in s[a..i];
    }

    lemma FirstApart(s: seq<nat>, a: nat, i: nat) returns (j: nat)
      requires Valid() && a <= i <= |s| && exists k :: i <= k < |s| && !OnCoreOf(s, a, i, s[k])
      ensures i <= j < |s| && !OnCoreOf(s, a, i, s[j]) && forall k | i <= k < j :: OnCoreOf(s, a, i, s[k])
    {
      j := i;
      while OnCoreOf(s, a, i, s[j])
        invariant i <= j < |s| && forall k | i <= k < j :: OnCoreOf(s, a, i, s[k])
        invariant exists k :: j <= k < |s| && !OnCoreOf(s, a, i, s[k])
        decreases |s| - j
      {
        j := j + 1;
      }
    }

    /** A block followed by a gap is the answer, however many IDs are free below it, exactly
        when each of them lies on one of its cores. */
    lemma KeepsBlockExactly(s: seq<nat>, a: nat, i: nat)
      requires Valid() && StrictlyDescending(s) && OneNode(s) && BlockAbove(s, a, i)
      requires i < |s| ==> s[i - 1] > s[i] + 1
      ensures Scan(s) == s[a..i] <==> forall j | i <= j < |s| :: OnCoreOf(s, a, i, s[j])
    {
      HoldsBlock(s, a, i);
      BlockIsShort(s, a, i);
      if forall j | i <= j < |s| :: OnCoreOf(s, a, i, s[j]) {
        StaysCovered(s, a, i, |s|);
      } else {
        var j := FirstApart(s, a, i);
        LeavesBlock(s, a, i, j);
      }
    }

    /** The search never comes back with nothing. */
    lemma {:induction false} FindsSomething(ids: seq<nat>, m: nat)
      requires Valid() && 0 < m <= |ids|
      ensures ScanTo(ids, m) != []
    {
      if m > 1 {
        FindsSomething(ids, m - 1);
      }
    }

    /** When the free IDs span less than numCPU, as they always do without
        overcommitment, the search answers with the target. */
    lemma WindowResult(s: seq<nat>, i: nat, k: nat)
      requires Valid() && StrictlyDescending(s) && OneNode(s) && size >= 1 && Target(s, i, k)
      requires forall a, b | a in s && b in s :: a < b + numCPU
      ensures Scan(s) == s[i..i + k]
    {
      assert s[i] in s && s[i + k - 1] in s;
      ScanIsRun(s, i);
      forall a | a in ScanTo(s, i) ensures a % numCPU != s[i] % numCPU {
        assert a in s[..i] && a in s;
        if a % numCPU == s[i] % numCPU {
          SameRemainder(a, s[i], numCPU);
        }
      }
      ReachesTarget(s, i, k);
    }

    /** There always is a target. */
    lemma TargetExists(s: seq<nat>) returns (i: nat, k: nat)
      requires s != [] && StrictlyDescending(s) && size >= 1
      ensures Target(s, i, k)
    {
      if w: nat :| RunAt(s, w, size) {
        i, k := 0, size;
        while !RunAt(s, i, size)
          invariant i <= w
          invariant forall j | 0 <= j < i :: !RunAt(s, j, size)
          decreases w - i
        {
          i := i + 1;
        }
        RunFromAbove(s, i, size);
      } else {
        i, k := |s| - 1, 1;
        while i > 0 && s[i - 1] == s[i] + 1
          invariant i + k == |s| && k >= 1 && RunAt(s, i, k)
          invariant forall j: nat :: !RunAt(s, j, size)
        {
          i, k := i - 1, k + 1;
        }
        if k >= size {
          assert RunAt(s, i, size);
        }
      }
    }
  }

  /** The k IDs from position i on fall by one each. */
  ghost predicate RunAt(s: seq<nat>, i: nat, k: int) {
    && i < |s| && i + k <= |s|
    && forall j | i <= j < i + k :: s[j] + (j - i) == s[i]
  }

  lemma RunFromAbove(s: seq<nat>, i: nat, k: int)
    requires RunAt(s, i, k)
    ensures i > 0 && s[i - 1] == s[i] + 1 ==> RunAt(s, i - 1, k)
  {
  }

  /** In a strictly descending list, consecutive values are neighbours. */
  lemma {:induction false} ConsecutiveAdjacent(s: seq<nat>, j: nat, k: nat)
    requires StrictlyDescending(s) && j < |s| && k >= 1
    requires forall v: nat | v <= s[j] < v + k :: v in s
    requires k <= s[j] + 1
    ensures RunAt(s, j, k)
  {
    if k > 1 {
      ConsecutiveAdjacent(s, j, k - 1);
      var last := j + k - 2;
      var value := s[j] - (k - 1);
      assert s[last] == value + 1;
      assert value in s;
      var q :| 0 <= q < |s| && s[q] == value;
      assert q > last;
      assert s[last] > s[last + 1] >= s[q];
    }
  }

  /** A falling run of listed values occupies neighbouring positions. */
  lemma RunSits(s: seq<nat>, i: nat, run: seq<nat>) returns (j: nat)
    requires StrictlyDescending(s) && i <= |s| && run != []
    requires forall d | 0 <= d < |run| :: run[d] + d == run[0]
    requires forall id | id in run :: id in s[..i]
    ensures j < i && RunAt(s, j, |run|)
  {
    assert run[0] in run;
    assert run[0] in s[..i];
    j :| 0 <= j < i && s[j] == run[0];
    forall v: nat | v <= run[0] < v + |run| ensures v in s {
      assert run[run[0] - v] in run;
      assert v in s[..i];
    }
    assert run[|run| - 1] + (|run| - 1) == run[0];
    ConsecutiveAdjacent(s, j, |run|);
  }

  lemma SameRemainder(a: nat, b: nat, n: nat)
    requires n > 0 && a % n == b % n && b <= a < b + n
    ensures a == b
  {
    var qa, qb := a / n, b / n;
    assert a == qa * n + a % n && b == qb * n + b % n;
    if qa > qb {
      MulMono(qb + 1, qa, n);
    } else {
      MulMono(qa, qb, n);
    }
  }

  // ---- From a request to its answer ----

  datatype Request = Request(available: seq<nat>, size: int)

  /** The free devices of the picked node, highest first. */
  function Candidates(request: Request, nodes: map<nat, int>, pick: int): seq<nat>
    requires forall id | id in request.available :: id in nodes
  {
    SortDescendingSorts(request.available);
    assert forall id | id in SortDescending(request.available) :: id in multiset(SortDescending(request.available));
    OnNode(SortDescending(request.available), nodes, pick)
  }

  function Preferred(request: Request, nodes: map<nat, int>, pick: int, numCPU: nat, topology: map<nat, int>): seq<nat>
    requires numCPU > 0
    requires forall id | id in request.available :: id in nodes
  {
    Search(numCPU, request.size, topology).Scan(Candidates(request, nodes, pick))
  }

  lemma {:induction false} OnNodeMeaning(ids: seq<nat>, nodes: map<nat, int>, node: int)
    requires forall id | id in ids :: id in nodes
    ensures forall id :: id in OnNode(ids, nodes, node) <==> id in ids && nodes[id] == node
    ensures Descending(ids) ==> Descending(OnNode(ids, nodes, node))
    ensures StrictlyDescending(ids) ==> StrictlyDescending(OnNode(ids, nodes, node))
  {
    if ids != [] {
      var front, last := ids[..|ids| - 1], ids[|ids| - 1];
      OnNodeMeaning(front, nodes, node);
      assert forall id :: id in ids <==> id in front || id == last;
      var kept := OnNode(front, nodes, node);
      assert forall i | 0 <= i < |kept| :: kept[i] in kept;
    }
  }

  lemma {:induction false} SortingSorted(s: seq<nat>)
    requires Descending(s)
    ensures SortDescending(s) == s
  {
    if s != [] {
      SortingSorted(s[1..]);
      assert s == [s[0]] + s[1..];
    }
  }

  lemma CandidatesMeaning(request: Request, nodes: map<nat, int>, pick: int)
    requires forall id | id in request.available :: id in nodes
    ensures var c := Candidates(request, nodes, pick);
      && Descending(c)
      && forall id :: id in c <==> id in request.available && nodes[id] == pick
  {
    var sorted := SortDescending(request.available);
    SortDescendingSorts(request.available);
    assert forall id :: id in sorted <==> id in multiset(sorted);
    assert forall id :: id in request.available <==> id in multiset(request.available);
    OnNodeMeaning(sorted, nodes, pick);
  }

  /** GetPreferredAllocation. The node of each request is whatever the weighted choice
      picks among the nodes with a free device; a request without free devices makes
      the program stop and return the answers it has so far. */
  method GetPreferredAllocation(requests: seq<Request>, nodes: map<nat, int>, picks: seq<int>,
                                numCPU: nat, topology: map<nat, int>)
    returns (responses: seq<seq<nat>>)
    requires numCPU > 0 && |picks| == |requests|
    requires forall r, id | r in requests && id in r.available :: id in nodes
    requires forall i | 0 <= i < |requests| && requests[i].available != [] ::
      exists id :: id in requests[i].available && nodes[id] == picks[i]
    ensures |responses| <= |requests|
    ensures |responses| < |requests| ==> requests[|responses|].available == []
    ensures forall i | 0 <= i < |responses| ::
      requests[i].available != [] && responses[i] == Preferred(requests[i], nodes, picks[i], numCPU, topology)
  {
    responses := [];
    for i := 0 to |requests|
      invariant |responses| == i
      invariant forall j | 0 <= j < i ::
        requests[j].available != [] && responses[j] == Preferred(requests[j], nodes, picks[j], numCPU, topology)
    {
      var request := requests[i];
      assert request in requests;
      if request.available == [] {
        return;
      }
      var preferredIDs := PreferOne(request, nodes, picks[i], numCPU, topology);
      responses := responses + [preferredIDs];
    }
  }

  method PreferOne(request: Request, nodes: map<nat, int>, pick: int, numCPU: nat, topology: map<nat, int>)
    returns (preferredIDs: seq<nat>)
    requires numCPU > 0
    requires forall id | id in request.available :: id in nodes
    requires exists id :: id in request.available && nodes[id] == pick
    ensures preferredIDs == Preferred(request, nodes, pick, numCPU, topology)
  {
    var sorted := SortDescending(request.available);
    SortDescendingSorts(request.available);
    assert forall id :: id in sorted <==> id in multiset(sorted);
    assert forall id :: id in request.available <==> id in multiset(request.available);
    var numaMap := GroupByNode(sorted, nodes);
    assert pick in numaMap;
    OnNodeMeaning(sorted, nodes, pick);
    SortingSorted(numaMap[pick]);
    var ids := SortDescending(numaMap[pick]);
    preferredIDs := Search(numCPU, request.size, topology).Select(ids);
  }

  /** Go's answer for a CPU without an entry is node 0. */
  function NodeIn(topology: map<nat, int>, cpu: nat): int {
    if cpu in topology then topology[cpu] else 0
  }

  /** For every overcommitment and every pick: the answer consists of free devices of
      the picked node whose numbers fall by one and whose CPUs lie on one node of the
      topology; there are some if the node has any, but
      no more than asked for, and they decode to as many CPUs. */
  lemma PreferredIsSound(request: Request, nodes: map<nat, int>, pick: int, numCPU: nat, topology: map<nat, int>)
    requires numCPU > 0
    requires forall id | id in request.available :: id in nodes
    ensures var preferred := Preferred(request, nodes, pick, numCPU, topology);
      && (forall id | id in preferred :: id in request.available && nodes[id] == pick)
      && (forall j | 0 < j < |preferred| :: preferred[j - 1] == preferred[j] + 1)
      && (request.size >= 1 ==> |preferred| <= request.size)
      && ((exists id :: id in request.available && nodes[id] == pick) ==> preferred != [])
      && (forall j | 0 < j < |preferred| ::
            NodeIn(topology, preferred[j] % numCPU) == NodeIn(topology, preferred[0] % numCPU))
      && |Remainders(preferred, numCPU)| == |preferred|
  {
    CandidatesMeaning(request, nodes, pick);
    var search := Search(numCPU, request.size, topology);
    search.ScanIsRun(Candidates(request, nodes, pick), |Candidates(request, nodes, pick)|);
    if id :| id in request.available && nodes[id] == pick {
      assert id in Candidates(request, nodes, pick);
      search.FindsSomething(Candidates(request, nodes, pick), |Candidates(request, nodes, pick)|);
    }
    DistinctRemainders(search.Scan(Candidates(request, nodes, pick)), numCPU);
  }

  ghost predicate AreDistinct(run: seq<nat>, n: nat)
    requires n > 0
  {
    forall j, k | 0 <= j < k < |run| :: run[j] % n != run[k] % n
  }

  lemma LastRemainder(run: seq<nat>, n: nat)
    requires n > 0 && run != [] && AreDistinct(run, n)
    ensures var front, last := run[..|run| - 1], run[|run| - 1];
      AreDistinct(front, n) && run == front + [last] && last % n !in Remainders(front, n)
  {
    NewRemainder(run[..|run| - 1], run[|run| - 1], n);
  }

  lemma {:induction false} DistinctRemainders(run: seq<nat>, n: nat)
    requires n > 0 && AreDistinct(run, n)
    ensures |Remainders(run, n)| == |run|
  {
    if run == [] {
      assert Remainders(run, n) == {};
    } else {
      LastRemainder(run, n);
      DistinctRemainders(run[..|run| - 1], n);
      RemaindersAppend(run[..|run| - 1], run[|run| - 1], n);
    }
  }

  lemma NewRemainder(ids: seq<nat>, id: nat, n: nat)
    requires n > 0 && forall j | 0 <= j < |ids| :: ids[j] % n != id % n
    ensures id % n !in Remainders(ids, n)
  {
    forall x | x in ids ensures x % n != id % n {
    }
  }

  // ---- The answer in terms of the set of free devices ----

  /** The device numbers h, h - 1, and so on, k of them. */
  ghost predicate HasRun(free: set<nat>, h: nat, k: int) {
    k <= h + 1 && forall v: nat | v <= h < v + k :: v in free
  }

  ghost predicate IsRunFrom(run: seq<nat>, h: nat, k: int) {
    |run| == k && forall j | 0 <= j < k :: run[j] + j == h
  }

  lemma RunAtHasRun(s: seq<nat>, i: nat, k: nat, free: set<nat>)
    requires StrictlyDescending(s) && i < |s| && k >= 1
    requires forall id :: id in s <==> id in free
    ensures RunAt(s, i, k) <==> HasRun(free, s[i], k)
  {
    if RunAt(s, i, k) {
      assert s[i + k - 1] + (k - 1) == s[i];
      forall v: nat | v <= s[i] < v + k ensures v in free {
        var j := i + (s[i] - v);
        assert s[j] + (j - i) == s[i];
        assert s[j] in s;
      }
    }
    if HasRun(free, s[i], k) {
      ConsecutiveAdjacent(s, i, k);
    }
  }

  /** The target of a descending list, seen on the set of its members. */
  lemma TargetOfSet(search: Search, s: seq<nat>, i: nat, k: nat, free: set<nat>)
    requires StrictlyDescending(s) && search.size >= 1 && search.Target(s, i, k)
    requires forall id :: id in s <==> id in free
    ensures s[i] in free && s[i] + 1 !in free && HasRun(free, s[i], k)
    ensures forall g: nat | HasRun(free, g, search.size) :: g <= s[i] && k == search.size
    ensures k < search.size ==> forall a | a in free :: s[i] < a + k
  {
    assert s[i] in s;
    RunAtHasRun(s, i, k, free);
    forall g: nat | HasRun(free, g, search.size) ensures g <= s[i] && k == search.size {
      assert g in free;
      var j :| 0 <= j < |s| && s[j] == g;
      RunAtHasRun(s, j, search.size, free);
      assert j >= i;
      assert k == search.size || j + search.size <= i + k;
    }
    forall a | a in free ensures k < search.size ==> s[i] < a + k {
      var j :| 0 <= j < |s| && s[j] == a;
      assert s[i + k - 1] + (k - 1) == s[i];
    }
  }

  /** A request for distinct devices, whose nodes are those of their CPUs. */
  ghost predicate NodesAgree(request: Request, nodes: map<nat, int>, pick: int, numCPU: nat, topology: map<nat, int>) {
    && numCPU > 0 && request.size >= 1
    && (forall i, j | 0 <= i < j < |request.available| :: request.available[i] != request.available[j])
    && (forall id | id in request.available :: id in nodes)
    && (exists id :: id in request.available && nodes[id] == pick)
    && (forall id | id in request.available && nodes[id] == pick :: id % numCPU in topology && topology[id % numCPU] == pick)
  }

  ghost predicate WindowedRequest(request: Request, nodes: map<nat, int>, pick: int, numCPU: nat, topology: map<nat, int>) {
    && NodesAgree(request, nodes, pick, numCPU, topology)
    && (forall a, b | a in request.available && nodes[a] == pick && b in request.available && nodes[b] == pick :: a < b + numCPU)
  }

  /** When the free devices of the picked node span less than numCPU: if some run of the
      requested size is free the answer is the highest such run, and otherwise it is the
      whole lowest block of consecutive numbers. */
  lemma PreferredInWindow(request: Request, nodes: map<nat, int>, pick: int, numCPU: nat, topology: map<nat, int>,
                          free: set<nat>) returns (h: nat, k: nat)
    requires WindowedRequest(request, nodes, pick, numCPU, topology)
    requires free == set id | id in request.available && nodes[id] == pick
    ensures IsRunFrom(Preferred(request, nodes, pick, numCPU, topology), h, k)
    ensures h in free && h + 1 !in free && HasRun(free, h, k)
    ensures (exists g: nat :: HasRun(free, g, request.size)) ==>
      k == request.size && forall g: nat | HasRun(free, g, request.size) :: g <= h
    ensures (forall g: nat :: !HasRun(free, g, request.size)) ==>
      k < request.size && forall a | a in free :: h < a + k
  {
    var s := Candidates(request, nodes, pick);
    var search := Search(numCPU, request.size, topology);
    CandidatesInWindow(request, nodes, pick, search, free);
    SpansWindow(s, free, numCPU);
    var i: nat;
    i, k := search.TargetExists(s);
    search.WindowResult(s, i, k);
    h := s[i];
    TargetOfSet(search, s, i, k, free);
    assert k == request.size ==> HasRun(free, h, request.size);
    assert IsRunFrom(s[i..i + k], h, k);
  }

  lemma CandidatesInWindow(request: Request, nodes: map<nat, int>, pick: int, search: Search, free: set<nat>)
    requires NodesAgree(request, nodes, pick, search.numCPU, search.nodeTopology)
    requires free == set id | id in request.available && nodes[id] == pick
    ensures var s := Candidates(request, nodes, pick);
      && s != [] && StrictlyDescending(s) && search.OneNode(s)
      && (forall id :: id in s <==> id in free)
  {
    CandidatesMeaning(request, nodes, pick);
    CandidatesDistinct(request, nodes, pick);
    var some :| some in request.available && nodes[some] == pick;
    assert some in Candidates(request, nodes, pick);
  }

  /** The highest free devices: k consecutive ones from h down, no more. */
  ghost predicate IsHighestBlock(free: set<nat>, h: nat, k: nat) {
    k >= 1 && HasRun(free, h, k) && (forall g | g in free :: g <= h) && forall g | g in free :: g + k != h
  }

  ghost predicate OnCoreOfRun(h: nat, k: nat, n: nat, id: nat)
    requires n > 0
  {
    exists v: nat :: v <= h < v + k && v % n == id % n
  }

  lemma HighestBlockSits(search: Search, s: seq<nat>, free: set<nat>, h: nat, k: nat)
    requires search.Valid() && s != [] && StrictlyDescending(s) && forall id :: id in s <==> id in free
    requires IsHighestBlock(free, h, k) && k < search.size && k <= search.numCPU
    ensures search.BlockAbove(s, 0, k) && s[0] == h && (k < |s| ==> s[k - 1] > s[k] + 1)
  {
    assert s[0] in s && h in free;
    var i :| 0 <= i < |s| && s[i] == h;
    assert i == 0;
    RunAtHasRun(s, 0, k, free);
    if k < |s| {
      assert s[k - 1] + (k - 1) == h && s[k] in s;
    }
    forall j | 0 <= j < k ensures !RunAt(s, j, search.size) {
      NoLonger(s, k, j, search.size);
    }
  }

  lemma NoLonger(s: seq<nat>, k: nat, j: nat, size: int)
    requires RunAt(s, 0, k) && j < k < size && (k < |s| ==> s[k - 1] > s[k] + 1)
    ensures !RunAt(s, j, size)
  {
    if j + size <= |s| {
      assert s[j] + j == s[k - 1] + (k - 1);
      assert s[k] + (k - j) != s[j];
    }
  }

  /** For every overcommitment: the highest free devices of the picked node, when they are
      fewer than asked for, are the answer exactly when every other free device of the node
      lies on one of their cores. */
  lemma PreferredKeepsHighest(request: Request, nodes: map<nat, int>, pick: int, numCPU: nat, topology: map<nat, int>,
                              free: set<nat>, h: nat, k: nat)
    requires NodesAgree(request, nodes, pick, numCPU, topology)
    requires free == set id | id in request.available && nodes[id] == pick
    requires IsHighestBlock(free, h, k) && k < request.size && k <= numCPU
    ensures IsRunFrom(Preferred(request, nodes, pick, numCPU, topology), h, k)
       <==> forall g | g in free :: OnCoreOfRun(h, k, numCPU, g)
  {
    var s, search := Candidates(request, nodes, pick), Search(numCPU, request.size, topology);
    CandidatesInWindow(request, nodes, pick, search, free);
    HighestBlockSits(search, s, free, h, k);
    search.KeepsBlockExactly(s, 0, k);
    RunIsFront(s, search.Scan(s), h, k);
    forall j | 0 <= j < |s| ensures s[j] in free && (OnCoreOfRun(h, k, numCPU, s[j]) <==> search.OnCoreOf(s, 0, k, s[j])) {
      BlockCores(search, s, h, k, s[j]);
    }
    forall j | 0 <= j < k ensures search.OnCoreOf(s, 0, k, s[j]) {
    }
    forall g | g in free ensures exists j :: 0 <= j < |s| && s[j] == g {
      assert g in s;
    }
  }

  lemma RunIsFront(s: seq<nat>, run: seq<nat>, h: nat, k: nat)
    requires 1 <= k <= |s| && s[0] == h && RunAt(s, 0, k)
    ensures run == s[..k] <==> IsRunFrom(run, h, k)
    ensures s[0..k] == s[..k]
  {
  }

  lemma BlockCores(search: Search, s: seq<nat>, h: nat, k: nat, id: nat)
    requires search.Valid() && 1 <= k <= |s| && s[0] == h && RunAt(s, 0, k)
    ensures OnCoreOfRun(h, k, search.numCPU, id) <==> search.OnCoreOf(s, 0, k, id)
  {
    if v: nat :| v <= h < v + k && v % search.numCPU == id % search.numCPU {
      assert s[h - v] == v;
    }
    if j :| 0 <= j < k && s[j] % search.numCPU == id % search.numCPU {
      assert s[j] + j == h;
    }
  }

  lemma SpansWindow(s: seq<nat>, free: set<nat>, numCPU: nat)
    requires (forall id :: id in s <==> id in free) && forall a, b | a in free && b in free :: a < b + numCPU
    ensures forall a, b | a in s && b in s :: a < b + numCPU
  {
  }

  lemma CandidatesDistinct(request: Request, nodes: map<nat, int>, pick: int)
    requires forall i, j | 0 <= i < j < |request.available| :: request.available[i] != request.available[j]
    requires forall id | id in request.available :: id in nodes
    ensures StrictlyDescending(Candidates(request, nodes, pick))
  {
    var sorted := SortDescending(request.available);
    SortDescendingSorts(request.available);
    assert forall id :: id in sorted <==> id in multiset(sorted);
    assert forall id :: id in request.available <==> id in multiset(request.available);
    DistinctSorted(request.available, sorted);
    OnNodeMeaning(sorted, nodes, pick);
  }

  lemma DistinctSorted(s: seq<nat>, sorted: seq<nat>)
    requires forall i, j | 0 <= i < j < |s| :: s[i] != s[j]
    requires multiset(sorted) == multiset(s) && Descending(sorted)
    ensures StrictlyDescending(sorted)
  {
    forall i, j | 0 <= i < j < |sorted| ensures sorted[i] > sorted[j] {
      if sorted[i] == sorted[j] {
        var x := sorted[i];
        assert sorted == sorted[..j] + [x] + sorted[j + 1..];
        assert sorted[..j][i] == x && x in sorted[..j];
        assert multiset(sorted)[x] >= 2;
        CountOnce(s, x);
      }
    }
  }

  lemma {:induction false} CountOnce(s: seq<nat>, x: nat)
    requires forall i, j | 0 <= i < j < |s| :: s[i] != s[j]
    ensures multiset(s)[x] <= 1
  {
    if s != [] {
      var n := |s| - 1;
      assert s == s[..n] + [s[n]];
      CountOnce(s[..n], x);
      if s[n] == x {
        assert x !in s[..n];
      }
    }
  }

  /** Under overcommitment a run can be missed: an ID on a covered core is passed over
      without ending the run that covers it. Here two CPUs of one node are announced in two
      layers, and the devices 1 and 0 are free and consecutive. */
  lemma MissedRun()
    ensures Preferred(Request([3, 1, 0], 2), map[3 := 0, 1 := 0, 0 := 0], 0, 2, map[0 := 0, 1 := 0]) == [0]
    ensures HasRun({0, 1, 3}, 1, 2)
  {
    var s: seq<nat> := [3, 1, 0];
    var nodes := map[3 := 0, 1 := 0, 0 := 0];
    AllCandidates(Request(s, 2), nodes, 0);
    TwoInRow({0, 1, 3}, 1);
    ScanPassesOver(Search(2, 2, map[0 := 0, 1 := 0]), s, 3, 1, 0);
  }

  lemma TwoInRow(free: set<nat>, h: nat)
    requires h > 0 && h in free && h - 1 in free
    ensures HasRun(free, h, 2)
  {
  }

  lemma AllCandidates(request: Request, nodes: map<nat, int>, pick: int)
    requires Descending(request.available) && forall id | id in request.available :: id in nodes && nodes[id] == pick
    ensures Candidates(request, nodes, pick) == request.available
  {
    SortingSorted(request.available);
    WholeNode(request.available, nodes, pick);
  }

  /** Of three IDs the second is passed over and so does not end the run of the third. */
  lemma ScanPassesOver(search: Search, s: seq<nat>, x: nat, y: nat, z: nat)
    requires search.Valid() && search.size > 1 && s == [x, y, z]
    requires x % search.numCPU == y % search.numCPU != z % search.numCPU && !(x == z + 1 || z == x + 1)
    ensures search.Scan(s) == [z]
  {
    assert search.ScanTo(s, 0) == [];
    assert search.ScanTo(s, 1) == [x];
    assert x in [x];
    assert search.ScanTo(s, 2) == [x];
    assert search.Step([x], z) == [z];
  }

  /** Two consecutive devices on cores of their own, and three below them of which two lie
      on these cores: the two pass over those, alone they are kept, and the third device
      ends their run. */
  lemma SkipsTwo(search: Search, s: seq<nat>, x: nat, y: nat, z: nat, w: nat, v: nat)
    requires search.Valid() && search.size > 2 && s == [x, y, z, w, v]
    requires x == y + 1 && search.Node(x) == search.Node(y) && y > v + 1
    requires x % search.numCPU == z % search.numCPU && y % search.numCPU == w % search.numCPU
    requires x % search.numCPU != y % search.numCPU
    requires v % search.numCPU != x % search.numCPU && v % search.numCPU != y % search.numCPU
    ensures search.ScanTo(s, 4) == [x, y] && search.Scan(s) == [v]
  {
    assert search.ScanTo(s, 0) == [];
    assert search.ScanTo(s, 1) == [x];
    search.SharesCore([x], 0, 1, y);
    assert [x][0..1] == [x];
    assert search.ScanTo(s, 2) == [x, y];
    search.SharesCore([x, y], 0, 2, z);
    search.SharesCore([x, y], 0, 2, w);
    search.SharesCore([x, y], 0, 2, v);
    assert [x, y][0..2] == [x, y] && [x, y][0] == x && [x, y][1] == y;
    assert search.ScanTo(s, 3) == [x, y];
    assert search.ScanTo(s, 4) == [x, y];
  }

  lemma SkipsOnEight(search: Search, s: seq<nat>, four: seq<nat>)
    requires search.numCPU == 8 && search.size == 3 && search.Node(15) == search.Node(14)
    requires s == [15, 14, 7, 6, 5] && four == [15, 14, 7, 6]
    ensures search.Scan(s) == [5] && search.Scan(four) == [15, 14]
  {
    SkipsTwo(search, s, 15, 14, 7, 6, 5);
    search.ScanFront(four, [5], 4);
    assert s == four + [5];
  }

  lemma ThreeInRow(free: set<nat>, h: nat)
    requires h > 1 && h in free && h - 1 in free && h - 2 in free
    ensures HasRun(free, h, 3)
  {
  }

  /** So on eight CPUs of one node with the free devices 15, 14, 7, 6 and 5, three of them
      are consecutive, but the answer is device 5; without it the answer is 15 and 14. */
  lemma RunLostToOne(nodes: map<nat, int>, topology: map<nat, int>, five: seq<nat>, four: seq<nat>)
    requires (forall id: nat | id < 16 :: id in nodes && nodes[id] == 0) && forall c: nat | c < 8 :: c in topology && topology[c] == 0
    requires five == [15, 14, 7, 6, 5] && four == [15, 14, 7, 6]
    ensures Preferred(Request(five, 3), nodes, 0, 8, topology) == [5] && HasRun(set id | id in five, 7, 3)
    ensures Preferred(Request(four, 3), nodes, 0, 8, topology) == [15, 14]
  {
    AllCandidates(Request(five, 3), nodes, 0);
    AllCandidates(Request(four, 3), nodes, 0);
    SkipsOnEight(Search(8, 3, topology), five, four);
    assert five[2] == 7 && five[3] == 6 && five[4] == 5;
    ThreeInRow(set id | id in five, 7);
  }

  lemma {:induction false} WholeNode(ids: seq<nat>, nodes: map<nat, int>, node: int)
    requires forall id | id in ids :: id in nodes && nodes[id] == node
    ensures OnNode(ids, nodes, node) == ids
  {
    if ids != [] {
      WholeNode(ids[..|ids| - 1], nodes, node);
      assert ids == ids[..|ids| - 1] + [ids[|ids| - 1]];
    }
  }
}
