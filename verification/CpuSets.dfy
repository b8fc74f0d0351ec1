/** CPU sets, standing for the cpuset.CPUSet values that the components exchange. */
module CpuSets {
  type CPUSet = set<nat>

  lemma {:induction false} Member<T>(s: set<T>) returns (x: T)
    requires s != {}
    ensures x in s
  {
    x :| x in s;
  }

  lemma {:induction false} MinExists(s: CPUSet)
    requires s != {}
    ensures exists m :: m in s && forall x | x in s :: m <= x
  {
    var x := Member(s);
    var rest := s - {x};
    if rest == {} {
      assert s == {x};
    } else {
      MinExists(rest);
      var m :| m in rest && forall y | y in rest :: m <= y;
      var least := if x < m then x else m;
      assert s == rest + {x};
      assert least in s && forall y | y in s :: least <= y;
    }
  }

  function Min(s: CPUSet): (m: nat)
    requires s != {}
    ensures m in s && forall x | x in s :: m <= x
  {
    MinExists(s);
    var m :| m in s && forall x | x in s :: m <= x;
    m
  }

  /** CPUSet.List: the members in increasing order. */
  function List(s: CPUSet): (list: seq<nat>)
    ensures |list| == |s|
    ensures forall x :: x in list <==> x in s
    ensures forall i, j | 0 <= i < j < |list| :: list[i] < list[j]
  {
    if s == {} then [] else
      var m := Min(s);
      [m] + List(s - {m})
  }

  /** Hyperthread siblings: the hardware core of every known thread. The sibling
      map that CPU-Pooler reads from the machine groups threads by this core. */
  type Cores = map<nat, int>

  predicate Siblings(cores: Cores, a: nat, b: nat) {
    a in cores && b in cores && cores[a] == cores[b]
  }

  predicate HasSiblingIn(cores: Cores, s: CPUSet, t: nat) {
    exists c | c in s :: Siblings(cores, c, t)
  }

  /** topology.AddHTSiblingsToCPUSet */
  function AddSiblings(s: CPUSet, cores: Cores): (r: CPUSet)
    ensures s <= r
  {
    s + set t | t in cores && HasSiblingIn(cores, s, t)
  }
}
