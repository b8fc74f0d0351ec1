/** The numbering of devices: how a (CPU, layer) pair becomes a device number, and
    how the plugin and the setter turn device IDs back into CPUs. */
module DeviceIds {
  import opened Wrappers
  import opened CpuSets
  import opened GoText

  /** Every pool CPU is advertised once per layer, and at least once. */
  function Layers(overcommitment: int): nat {
    if overcommitment < 1 then 1 else overcommitment
  }

  function DeviceNumber(cpu: nat, layer: nat, numCPU: nat): nat {
    cpu + layer * numCPU
  }

  /** The device numbers of a pool, with their layers counted upwards. */
  ghost function AdvertisedNumbers(cpus: CPUSet, layers: nat, numCPU: nat): set<nat>
  {
    set c: nat, l: nat | c in cpus && 0 <= l < layers :: DeviceNumber(c, l, numCPU)
  }

  lemma AdvertisesLayer(cpus: CPUSet, layers: nat, numCPU: nat, c: nat, l: nat)
    requires c in cpus && l < layers
    ensures DeviceNumber(c, l, numCPU) in AdvertisedNumbers(cpus, layers, numCPU)
  {
  }

  lemma MulMono(a: int, b: int, n: nat)
    requires a <= b
    ensures a * n <= b * n
  {
  }

  /** Euclidean division has one quotient and one remainder. */
  lemma DivModUnique(x: int, n: nat, q: int, r: nat)
    requires x == q * n + r && r < n
    ensures x / n == q && x % n == r
  {
    var k := x / n;
    assert x == k * n + x % n;
    if k < q {
      MulMono(k + 1, q, n);
    }
    if k > q {
      MulMono(q + 1, k, n);
    }
  }

  lemma DecodeNumber(cpu: nat, layer: nat, numCPU: nat)
    requires cpu < numCPU
    ensures DeviceNumber(cpu, layer, numCPU) % numCPU == cpu
    ensures DeviceNumber(cpu, layer, numCPU) / numCPU == layer
  {
    DivModUnique(DeviceNumber(cpu, layer, numCPU), numCPU, layer, cpu);
  }

  /** Taking the remainder by numCPU undoes the numbering of every layer exactly when
      all CPUs of the pool are below numCPU. */
  lemma DecodingExact(cpus: CPUSet, layers: nat, numCPU: nat)
    requires layers >= 1 && numCPU > 0
    ensures (forall c: nat, l: nat | c in cpus && l < layers :: DeviceNumber(c, l, numCPU) % numCPU == c)
       <==> (forall c | c in cpus :: c < numCPU)
  {
    if forall c | c in cpus :: c < numCPU {
      forall c: nat, l: nat | c in cpus && l < layers ensures DeviceNumber(c, l, numCPU) % numCPU == c {
        DecodeNumber(c, l, numCPU);
      }
    } else {
      var c: nat :| c in cpus && c >= numCPU;
      assert DeviceNumber(c, 0, numCPU) == c;
      assert DeviceNumber(c, 0, numCPU) % numCPU < numCPU;
    }
  }

  /** The numbering is injective: two pairs with the same device number are equal. */
  lemma NumberingInjective(c1: nat, l1: nat, c2: nat, l2: nat, numCPU: nat)
    requires c1 < numCPU && c2 < numCPU
    ensures DeviceNumber(c1, l1, numCPU) == DeviceNumber(c2, l2, numCPU) <==> c1 == c2 && l1 == l2
  {
    DecodeNumber(c1, l1, numCPU);
    DecodeNumber(c2, l2, numCPU);
  }

  /** The CPUs that Allocate decodes from device IDs; unreadable IDs are skipped. */
  function PluginSet(ids: seq<string>, numCPU: nat): CPUSet
    requires numCPU > 0
  {
    set id | id in ids && ParseUint32(id).Some? :: ParseUint32(id).value % numCPU
  }

  /** The decoding loop of Allocate. */
  method PluginDecode(ids: seq<string>, numCPU: nat) returns (cpus: CPUSet)
    requires numCPU > 0
    ensures cpus == PluginSet(ids, numCPU)
  {
    cpus := {};
    for i := 0 to |ids|
      invariant cpus == PluginSet(ids[..i], numCPU)
    {
      assert forall id :: id in ids[..i + 1] <==> id in ids[..i] || id == ids[i];
      match ParseUint32(ids[i])
      case None =>
      case Some(number) =>
        cpus := cpus + {number % numCPU};
    }
    assert ids[..|ids|] == ids;
  }

  /** A device ID that the setter reads as the number of a CPU. */
  predicate SetterReads(id: string) {
    Atoi(id).Some? && Atoi(id).value >= 0
  }

  function SetterCpu(id: string, numCPU: nat): nat
    requires numCPU > 0
  {
    if SetterReads(id) then Atoi(id).value % numCPU else 0
  }

  /** The CPUs that the setter decodes from device IDs: one unreadable ID fails all. */
  function SetterSet(ids: seq<string>, numCPU: nat): Option<CPUSet>
    requires numCPU > 0
  {
    if forall id | id in ids :: SetterReads(id)
    then Some(set id | id in ids :: SetterCpu(id, numCPU))
    else None
  }

  /** calculateFinalExclusiveSet */
  method CalculateFinalExclusiveSet(ids: seq<string>, numCPU: nat) returns (cpus: Option<CPUSet>)
    requires numCPU > 0
    ensures cpus == SetterSet(ids, numCPU)
  {
    var builder: CPUSet := {};
    for i := 0 to |ids|
      invariant forall id | id in ids[..i] :: SetterReads(id)
      invariant builder == set id | id in ids[..i] :: SetterCpu(id, numCPU)
    {
      assert ids[i] in ids;
      assert forall id :: id in ids[..i + 1] <==> id in ids[..i] || id == ids[i];
      match Atoi(ids[i])
      case None =>
        return None;
      case Some(number) =>
        if number < 0 {
          return None;
        }
        builder := builder + {number % numCPU};
        ghost var decoded := set id | id in ids[..i + 1] :: SetterCpu(id, numCPU);
        assert SetterCpu(ids[i], numCPU) in decoded by {
          assert ids[i] in ids[..i + 1];
        }
        assert builder <= decoded;
        assert decoded <= builder;
    }
    assert ids[..|ids|] == ids;
    return Some(builder);
  }

  /** The IDs that stand for the given device numbers. */
  function Printed(numbers: seq<nat>): (ids: seq<string>)
    ensures |ids| == |numbers|
  {
    seq(|numbers|, i requires 0 <= i < |numbers| => Itoa(numbers[i]))
  }

  /** What both readers make of one ID. */
  ghost predicate ReadAlike(id: string) {
    ParseUint32(id).Some? && Atoi(id).Some? && Atoi(id).value == ParseUint32(id).value
  }

  lemma AlikeDecodedAlike(ids: seq<string>, numCPU: nat)
    requires numCPU > 0
    requires forall id | id in ids :: ReadAlike(id)
    ensures SetterSet(ids, numCPU) == Some(PluginSet(ids, numCPU))
  {
    var read := set id | id in ids :: SetterCpu(id, numCPU);
    var decoded := PluginSet(ids, numCPU);
    forall c | c in read ensures c in decoded {
      var id :| id in ids && SetterCpu(id, numCPU) == c;
      assert ReadAlike(id);
    }
    forall c | c in decoded ensures c in read {
      var id :| id in ids && ParseUint32(id).Some? && ParseUint32(id).value % numCPU == c;
      assert ReadAlike(id);
    }
    assert read == decoded;
    forall id | id in ids ensures SetterReads(id) {
      assert ReadAlike(id);
    }
  }

  lemma PrintedRemainders(numbers: seq<nat>, numCPU: nat)
    requires numCPU > 0
    requires forall i | 0 <= i < |numbers| :: ParseUint32(Printed(numbers)[i]) == Some(numbers[i])
    ensures PluginSet(Printed(numbers), numCPU) == set d | d in numbers :: d % numCPU
  {
    var ids := Printed(numbers);
    var decoded := PluginSet(ids, numCPU);
    forall d | d in numbers ensures d % numCPU in decoded {
      var i :| 0 <= i < |numbers| && numbers[i] == d;
      assert ids[i] in ids;
    }
    forall id | id in ids && ParseUint32(id).Some? ensures ParseUint32(id).value in numbers {
      var i :| 0 <= i < |ids| && ids[i] == id;
      assert numbers[i] in numbers;
    }
  }

  /** For printed 32-bit device numbers, the plugin and the setter decode the same
      CPUs: the remainders of the numbers. */
  lemma DecodersAgree(numbers: seq<nat>, numCPU: nat)
    requires numCPU > 0
    requires forall d | d in numbers :: d < UINT32_RANGE
    ensures PluginSet(Printed(numbers), numCPU) == set d | d in numbers :: d % numCPU
    ensures SetterSet(Printed(numbers), numCPU) == Some(PluginSet(Printed(numbers), numCPU))
  {
    var ids := Printed(numbers);
    forall i | 0 <= i < |ids| ensures ParseUint32(ids[i]) == Some(numbers[i]) && ReadAlike(ids[i]) {
      assert numbers[i] in numbers;
      ItoaRoundTrip(numbers[i]);
    }
    PrintedRemainders(numbers, numCPU);
    AlikeDecodedAlike(ids, numCPU);
  }
}
