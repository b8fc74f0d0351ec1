/** The part of a pod that the webhook reads and changes, and JSON patches on it
    (RFC 6902, sections 4.1 and 4.3). */
module PodPatch {
  import opened Wrappers
  import opened Annotation
  import opened ArgsText

  datatype EnvVar = EnvVar(name: string, value: string)

  datatype Mount = Mount(name: string, mountPath: string, readOnly: bool, propagation: string)

  datatype Source = PodAnnotations | HostPath(path: string, kind: string) | OtherSource

  datatype Volume = Volume(name: string, source: Source)

  /** A container; None stands for a member that the document does not have. `limits`
      holds the limits of pool resources, by full resource name. */
  datatype Container = Container(name: string, command: Option<seq<string>>, args: Option<seq<string>>,
                                 env: Option<seq<EnvVar>>, mounts: Option<seq<Mount>>,
                                 cpuLimit: Option<string>, cpuRequest: Option<string>, limits: map<string, int>)

  datatype AnnotationText = AnnotationText(entries: seq<AnnotatedContainer>, wellFormed: bool)

  datatype Pod = Pod(namespace: string, name: string, annotation: Option<AnnotationText>,
                     containers: seq<Container>, volumes: Option<seq<Volume>>)

  /** The places in a container that the webhook's patches point to; the ones that end in
      "-" are behind the last element of an array. */
  datatype Member = CpuLimit | CpuRequest | Env | EnvEnd | MountsEnd | Command | Args

  datatype Op = Add | Replace

  /** The value of a patch. The arguments are JSON text that was put together by hand. */
  datatype Value =
    | Quantity(text: string)
    | OneEnv(envVar: EnvVar)
    | EnvList(list: seq<EnvVar>)
    | OneMount(mount: Mount)
    | Words(words: seq<string>)
    | Text(text: string)

  datatype Patch =
    | InContainer(i: nat, op: Op, member: Member, value: Value)
    | AddVolume(volume: Volume)

  function Items<T>(list: Option<seq<T>>): seq<T> {
    list.GetOr([])
  }

  /** One operation on a container; None when it fails. `add` creates or replaces a member
      and appends at "-" to an array that must exist; `replace` needs an existing member. */
  function Change(c: Container, op: Op, member: Member, value: Value): Option<Container> {
    match (op, member, value)
    case (Replace, CpuLimit, Quantity(text)) => if c.cpuLimit.None? then None else Some(c.(cpuLimit := Some(text)))
    case (Replace, CpuRequest, Quantity(text)) => if c.cpuRequest.None? then None else Some(c.(cpuRequest := Some(text)))
    case (Add, Env, EnvList(list)) => Some(c.(env := Some(list)))
    case (Add, EnvEnd, OneEnv(v)) => if c.env.None? then None else Some(c.(env := Some(c.env.value + [v])))
    case (Add, MountsEnd, OneMount(m)) => if c.mounts.None? then None else Some(c.(mounts := Some(c.mounts.value + [m])))
    case (Add, Command, Words(words)) => Some(c.(command := Some(words)))
    case (Add, Args, Text(text)) => if ReadStrings(text).None? then None else Some(c.(args := ReadStrings(text)))
    case _ => None
  }

  function ApplyOne(pod: Pod, p: Patch): Option<Pod> {
    match p
    case InContainer(i, op, member, value) =>
      if i >= |pod.containers| then None else
        (match Change(pod.containers[i], op, member, value)
         case None => None
         case Some(c) => Some(pod.(containers := pod.containers[i := c])))
    case AddVolume(volume) =>
      if pod.volumes.None? then None else Some(pod.(volumes := Some(pod.volumes.value + [volume])))
  }

  /** A patch document: its operations in order, as long as none fails. */
  function Apply(pod: Pod, patches: seq<Patch>): Option<Pod> {
    if patches == [] then Some(pod) else
      match Apply(pod, patches[..|patches| - 1])
      case None => None
      case Some(before) => ApplyOne(before, patches[|patches| - 1])
  }

  lemma ApplyNext(pod: Pod, patches: seq<Patch>, p: Patch)
    ensures Apply(pod, patches + [p]) == match Apply(pod, patches) case None => None case Some(before) => ApplyOne(before, p)
  {
    assert (patches + [p])[..|patches|] == patches;
  }

  lemma {:induction false} ApplyConcat(pod: Pod, first: seq<Patch>, second: seq<Patch>)
    ensures Apply(pod, first + second)
         == match Apply(pod, first) case None => None case Some(before) => Apply(before, second)
  {
    if second == [] {
      assert first + second == first;
    } else {
      var front, last := second[..|second| - 1], second[|second| - 1];
      ApplyConcat(pod, first, front);
      assert first + second == (first + front) + [last];
      ApplyNext(pod, first + front, last);
    }
  }

  // ---- Patches of one container ----

  ghost predicate AllIn(patches: seq<Patch>, i: nat) {
    forall k | 0 <= k < |patches| :: patches[k].InContainer? && patches[k].i == i
  }

  function ApplyTo(c: Container, patches: seq<Patch>): Option<Container>
    requires forall k | 0 <= k < |patches| :: patches[k].InContainer?
  {
    if patches == [] then Some(c) else
      var p := patches[|patches| - 1];
      match ApplyTo(c, patches[..|patches| - 1])
      case None => None
      case Some(before) => Change(before, p.op, p.member, p.value)
  }

  /** Patches of one container change that container as they would alone. */
  lemma {:induction false} ApplyLocal(pod: Pod, i: nat, patches: seq<Patch>)
    requires i < |pod.containers| && AllIn(patches, i)
    ensures Apply(pod, patches) == match ApplyTo(pod.containers[i], patches)
                                   case None => None
                                   case Some(c) => Some(pod.(containers := pod.containers[i := c]))
  {
    if patches == [] {
      assert pod.containers[i := pod.containers[i]] == pod.containers;
    } else {
      ApplyLocal(pod, i, patches[..|patches| - 1]);
      var last := patches[|patches| - 1];
      match ApplyTo(pod.containers[i], patches[..|patches| - 1]) {
        case None =>
        case Some(before) =>
          match Change(before, last.op, last.member, last.value) {
            case None =>
            case Some(c) =>
              assert pod.containers[i := before][i := c] == pod.containers[i := c];
          }
      }
    }
  }

  lemma {:induction false} ApplyToConcat(c: Container, first: seq<Patch>, second: seq<Patch>)
    requires forall k | 0 <= k < |first| :: first[k].InContainer?
    requires forall k | 0 <= k < |second| :: second[k].InContainer?
    ensures ApplyTo(c, first + second)
         == match ApplyTo(c, first) case None => None case Some(before) => ApplyTo(before, second)
  {
    if second == [] {
      assert first + second == first;
    } else {
      var front, last := second[..|second| - 1], second[|second| - 1];
      ApplyToConcat(c, first, front);
      assert (first + second)[..|first + second| - 1] == first + front;
    }
  }
}
