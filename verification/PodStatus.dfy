/** The status that the setter derives from a pod, and which changes of it put the pod
    into the work queue. */
module PodStatus {
  import opened Wrappers
  import opened GoText

  const RUNNING := "Running"
  const COMPLETED := "Completed"
  const ALWAYS := "Always"
  const POD_INITIALIZING := "PodInitializing"
  const SCHEDULING_GATED := "SchedulingGated"
  const NODE_LOST := "NodeLost"

  /** A terminated container; times count from the zero time. */
  datatype Terminated = Terminated(exitCode: int, signal: int, reason: string, finishedAt: nat)

  datatype ContainerStatus = ContainerStatus(
    name: string, restartCount: int, lastTermination: Option<Terminated>,
    waiting: Option<string>, terminated: Option<Terminated>, running: bool, ready: bool, started: Option<bool>)

  datatype Condition = PodScheduled(reason: string) | PodInitialized(holds: bool) | PodReady(holds: bool) | OtherCondition

  datatype InitContainer = InitContainer(name: string, restartPolicy: Option<string>)

  datatype Pod = Pod(phase: string, statusReason: string, conditions: seq<Condition>, initContainers: seq<InitContainer>,
                     initStatuses: seq<ContainerStatus>, statuses: seq<ContainerStatus>, isDeleted: bool) {

    /** isRestartableInitContainer of the last init container with the name, if any. */
    predicate IsRestartable(name: string, m: nat)
      requires m <= |initContainers|
    {
      m > 0 &&
      if initContainers[m - 1].name == name then initContainers[m - 1].restartPolicy == Some(ALWAYS)
      else IsRestartable(name, m - 1)
    }

    predicate RestartableAt(i: nat)
      requires i < |initStatuses|
    {
      IsRestartable(initStatuses[i].name, |initContainers|)
    }

    /** The init container at this position does not hold up the pod. */
    predicate Passes(i: nat)
      requires i < |initStatuses|
    {
      var s := initStatuses[i];
      (s.terminated.Some? && s.terminated.value.exitCode == 0) || (RestartableAt(i) && s.started == Some(true))
    }

    /** The first init container from position i on that holds up the pod. */
    function BlockedAt(i: nat): (b: nat)
      requires i <= |initStatuses|
      ensures i <= b <= |initStatuses|
      ensures forall k | i <= k < b :: Passes(k)
      ensures b < |initStatuses| ==> !Passes(b)
      decreases |initStatuses| - i
    {
      if i == |initStatuses| || !Passes(i) then i else BlockedAt(i + 1)
    }

    predicate IsInitializing() {
      BlockedAt(0) < |initStatuses|
    }

    /** How many init containers the loop looks at. */
    function Seen(): (n: nat)
      ensures n <= |initStatuses|
    {
      if IsInitializing() then BlockedAt(0) + 1 else |initStatuses|
    }

    /** isPodInitializedConditionTrue: the first such condition decides. */
    predicate InitializedCondition(i: nat)
      requires i <= |conditions|
      decreases |conditions| - i
    {
      i < |conditions| &&
      if conditions[i].PodInitialized? then conditions[i].holds else InitializedCondition(i + 1)
    }

    predicate ReadyCondition() {
      exists i | 0 <= i < |conditions| :: conditions[i] == PodReady(true)
    }

    predicate IsGated() {
      exists i | 0 <= i < |conditions| :: conditions[i] == PodScheduled(SCHEDULING_GATED)
    }

    /** The regular containers decide on the status. */
    predicate IsInitialized() {
      !IsInitializing() || InitializedCondition(0)
    }

    // ---- Restarts ----

    /** The restarts of the first n init containers; of all of them, or of those only that
        may restart. */
    function InitRestarts(n: nat, onlyRestartable: bool): int
      requires n <= |initStatuses|
    {
      if n == 0 then 0 else
        InitRestarts(n - 1, onlyRestartable)
        + if onlyRestartable && !RestartableAt(n - 1) then 0 else initStatuses[n - 1].restartCount
    }

    /** The restarts of the regular containers from position i on. */
    function RegularRestarts(i: nat): int
      requires i <= |statuses|
      decreases |statuses| - i
    {
      if i == |statuses| then 0 else statuses[i].restartCount + RegularRestarts(i + 1)
    }

    function Restarts(): int {
      if IsInitialized() then InitRestarts(Seen(), true) + RegularRestarts(0) else InitRestarts(Seen(), false)
    }

    // ---- The last restart ----

    /** The restart of a container ended at this date. */
    static predicate EndedAt(s: ContainerStatus, date: nat) {
      s.lastTermination.Some? && s.lastTermination.value.finishedAt == date
    }

    predicate InitEnded(n: nat, onlyRestartable: bool, date: nat)
      requires n <= |initStatuses|
    {
      exists i | 0 <= i < n :: EndedAt(initStatuses[i], date) && (onlyRestartable ==> RestartableAt(i))
    }

    predicate RegularEnded(from: nat, date: nat) {
      exists i | from <= i < |statuses| :: EndedAt(statuses[i], date)
    }

    /** A counted container restarted at this date. */
    predicate Ended(date: nat) {
      if IsInitialized() then InitEnded(Seen(), true, date) || RegularEnded(0, date) else InitEnded(Seen(), false, date)
    }

    // ---- The reason ----

    /** What an ended container shows when it gives no reason. */
    static function EndText(t: Terminated): string {
      if t.signal != 0 then "Signal:" + ItoaSigned(t.signal) else "ExitCode:" + ItoaSigned(t.exitCode)
    }

    /** The reason that a regular container sets, if any. */
    static function ReasonOf(s: ContainerStatus): Option<string> {
      if s.waiting.Some? && s.waiting.value != "" then s.waiting
      else if s.terminated.Some? && s.terminated.value.reason != "" then Some(s.terminated.value.reason)
      else if s.terminated.Some? then Some(EndText(s.terminated.value))
      else None
    }

    /** The reason set by the first regular container from position i on that sets one. */
    function FirstReason(i: nat, default: string): string
      requires i <= |statuses|
      decreases |statuses| - i
    {
      if i == |statuses| then default else ReasonOf(statuses[i]).GetOr(FirstReason(i + 1, default))
    }

    predicate RunsAt(i: nat)
      requires i < |statuses|
    {
      ReasonOf(statuses[i]) == None && statuses[i].ready && statuses[i].running
    }

    /** The reason set by the init container that holds up the pod. */
    function BlockedReason(i: nat): string
      requires i < |initStatuses|
    {
      var s := initStatuses[i];
      if s.terminated.Some? then
        "Init:" + if s.terminated.value.reason == "" then EndText(s.terminated.value) else s.terminated.value.reason
      else if s.waiting.Some? && s.waiting.value != "" && s.waiting.value != POD_INITIALIZING then "Init:" + s.waiting.value
      else "Init:" + Itoa(i) + "/" + Itoa(|initContainers|)
    }

    function EarlyReason(): string {
      if IsInitializing() then BlockedReason(BlockedAt(0))
      else if IsGated() then SCHEDULING_GATED
      else if statusReason != "" then statusReason
      else phase
    }

    function ContainersReason(): string {
      if !IsInitialized() then EarlyReason() else
        var reason := FirstReason(0, EarlyReason());
        if reason == COMPLETED && exists i | 0 <= i < |statuses| :: RunsAt(i) then
          if ReadyCondition() then RUNNING else "NotReady"
        else reason
    }

    /** The reason that is reported in the end. */
    function Reason(): string {
      if isDeleted && statusReason == NODE_LOST then "Unknown"
      else if isDeleted then "Terminating"
      else ContainersReason()
    }
  }

  /** date is the zero time or the end of a restart of one of the first n init containers
      (that may restart), and no such restart ended later. */
  ghost predicate LatestInit(pod: Pod, n: nat, onlyRestartable: bool, date: nat)
    requires n <= |pod.initStatuses|
  {
    && (date == 0 || pod.InitEnded(n, onlyRestartable, date))
    && forall d: nat | pod.InitEnded(n, onlyRestartable, d) :: d <= date
  }

  /** date is the latest end of a counted restart, or the zero time. */
  ghost predicate IsLatest(pod: Pod, date: nat) {
    (date == 0 || pod.Ended(date)) && forall d: nat | pod.Ended(d) :: d <= date
  }

  /** The update of a last restart date with the status of one container. */
  method Later(date: nat, s: ContainerStatus) returns (latest: nat)
    ensures latest >= date && (latest == date || Pod.EndedAt(s, latest))
    ensures forall d: nat | Pod.EndedAt(s, d) :: d <= latest
  {
    latest := date;
    if s.lastTermination.Some? {
      var terminatedDate := s.lastTermination.value.finishedAt;
      if date < terminatedDate {
        latest := terminatedDate;
      }
    }
  }

  lemma LaterInit(pod: Pod, n: nat, onlyRestartable: bool, date: nat, latest: nat)
    requires n < |pod.initStatuses| && LatestInit(pod, n, onlyRestartable, date)
    requires onlyRestartable ==> pod.RestartableAt(n)
    requires latest >= date && (latest == date || Pod.EndedAt(pod.initStatuses[n], latest))
    requires forall d: nat | Pod.EndedAt(pod.initStatuses[n], d) :: d <= latest
    ensures LatestInit(pod, n + 1, onlyRestartable, latest)
  {
    var next := n + 1;
    forall d: nat | pod.InitEnded(next, onlyRestartable, d) ensures d <= latest {
      if !pod.InitEnded(n, onlyRestartable, d) {
        assert Pod.EndedAt(pod.initStatuses[n], d);
      }
    }
    if pod.InitEnded(n, onlyRestartable, date) {
      assert pod.InitEnded(next, onlyRestartable, date);
    }
  }

  lemma UncountedInit(pod: Pod, n: nat, date: nat)
    requires n < |pod.initStatuses| && LatestInit(pod, n, true, date) && !pod.RestartableAt(n)
    ensures LatestInit(pod, n + 1, true, date)
  {
    var next := n + 1;
    forall d: nat | pod.InitEnded(next, true, d) ensures pod.InitEnded(n, true, d) {
    }
    if pod.InitEnded(n, true, date) {
      assert pod.InitEnded(next, true, date);
    }
  }

  /** What the loop over the init containers computes. */
  datatype InitResult = InitResult(restarts: int, restartableRestarts: int, date: nat, restartableDate: nat,
                                   blockedAt: Option<nat>) {
    ghost predicate Sums(pod: Pod, n: nat)
      requires n <= |pod.initStatuses|
    {
      && restarts == pod.InitRestarts(n, false) && restartableRestarts == pod.InitRestarts(n, true)
      && LatestInit(pod, n, false, date) && LatestInit(pod, n, true, restartableDate)
    }
  }

  /** One iteration of the loop over the init containers. */
  method VisitInit(pod: Pod, before: InitResult, i: nat) returns (after: InitResult)
    requires i < |pod.initStatuses| && before.Sums(pod, i)
    ensures after.Sums(pod, i + 1)
    ensures after.blockedAt == if pod.Passes(i) then before.blockedAt else Some(i)
  {
    var s := pod.initStatuses[i];
    var date := Later(before.date, s);
    LaterInit(pod, i, false, before.date, date);
    after := before.(restarts := before.restarts + s.restartCount, date := date);
    if pod.RestartableAt(i) {
      var restartableDate := Later(before.restartableDate, s);
      LaterInit(pod, i, true, before.restartableDate, restartableDate);
      after := after.(restartableRestarts := before.restartableRestarts + s.restartCount, restartableDate := restartableDate);
    } else {
      UncountedInit(pod, i, before.restartableDate);
    }
    if s.terminated.Some? && s.terminated.value.exitCode == 0 {
      return;
    }
    if pod.RestartableAt(i) && s.started == Some(true) {
      return;
    }
    after := after.(blockedAt := Some(i));
  }

  /** The loop over the init containers: it stops at the first one that holds up the pod. */
  method VisitInits(pod: Pod) returns (result: InitResult)
    ensures result.Sums(pod, pod.Seen())
    ensures result.blockedAt == if pod.IsInitializing() then Some(pod.BlockedAt(0)) else None
  {
    result := InitResult(0, 0, 0, 0, None);
    for i := 0 to |pod.initStatuses|
      invariant result.Sums(pod, i) && result.blockedAt == None
      invariant pod.BlockedAt(0) == pod.BlockedAt(i)
    {
      result := VisitInit(pod, result, i);
      if result.blockedAt.Some? {
        return;
      }
    }
  }

  /** The latest end of a restart among the counted init containers and the regular ones
      from position i on. */
  ghost predicate LatestFrom(pod: Pod, i: nat, date: nat)
    requires i <= |pod.statuses|
  {
    && (date == 0 || pod.InitEnded(pod.Seen(), true, date) || pod.RegularEnded(i, date))
    && forall d: nat | pod.InitEnded(pod.Seen(), true, d) || pod.RegularEnded(i, d) :: d <= date
  }

  lemma LaterRegular(pod: Pod, i: nat, date: nat, latest: nat)
    requires i < |pod.statuses| && LatestFrom(pod, i + 1, date)
    requires latest >= date && (latest == date || Pod.EndedAt(pod.statuses[i], latest))
    requires forall d: nat | Pod.EndedAt(pod.statuses[i], d) :: d <= latest
    ensures LatestFrom(pod, i, latest)
  {
    forall d: nat | pod.RegularEnded(i, d) ensures d <= latest {
      if !pod.RegularEnded(i + 1, d) {
        assert Pod.EndedAt(pod.statuses[i], d);
      }
    }
    if pod.RegularEnded(i + 1, latest) {
      assert pod.RegularEnded(i, latest);
    }
  }

  /** The loop over the regular containers, from the last one to the first. */
  method VisitRegular(pod: Pod, inits: InitResult, earlyReason: string)
    returns (restarts: int, date: nat, reason: string, hasRunning: bool)
    requires inits.Sums(pod, pod.Seen())
    ensures restarts == inits.restartableRestarts + pod.RegularRestarts(0)
    ensures LatestFrom(pod, 0, date)
    ensures reason == pod.FirstReason(0, earlyReason)
    ensures hasRunning <==> exists k :: 0 <= k < |pod.statuses| && pod.RunsAt(k)
  {
    restarts, date, reason, hasRunning := inits.restartableRestarts, inits.restartableDate, earlyReason, false;
    var i := |pod.statuses|;
    while i > 0
      invariant 0 <= i <= |pod.statuses|
      invariant restarts == inits.restartableRestarts + pod.RegularRestarts(i)
      invariant LatestFrom(pod, i, date)
      invariant reason == pod.FirstReason(i, earlyReason)
      invariant hasRunning <==> exists k :: i <= k < |pod.statuses| && pod.RunsAt(k)
    {
      i := i - 1;
      var s := pod.statuses[i];
      restarts := restarts + s.restartCount;
      ghost var before := date;
      date := Later(date, s);
      LaterRegular(pod, i, before, date);
      if s.waiting.Some? && s.waiting.value != "" {
        reason := s.waiting.value;
      } else if s.terminated.Some? && s.terminated.value.reason != "" {
        reason := s.terminated.value.reason;
      } else if s.terminated.Some? && s.terminated.value.reason == "" {
        if s.terminated.value.signal != 0 {
          reason := "Signal:" + ItoaSigned(s.terminated.value.signal);
        } else {
          reason := "ExitCode:" + ItoaSigned(s.terminated.value.exitCode);
        }
      } else if s.ready && s.running {
        hasRunning := true;
        assert pod.RunsAt(i);
      }
    }
  }

  /** PodStatus: the number of restarts, the date of the last one, and the reason. */
  method Status(pod: Pod) returns (restarts: int, lastRestartDate: nat, reason: string)
    ensures restarts == pod.Restarts()
    ensures IsLatest(pod, lastRestartDate)
    ensures reason == pod.Reason()
  {
    var inits := VisitInits(pod);
    restarts, lastRestartDate := inits.restarts, inits.date;
    reason := EarlyReasonOf(pod, inits);
    if inits.blockedAt == None || pod.InitializedCondition(0) {
      var hasRunning: bool;
      restarts, lastRestartDate, reason, hasRunning := VisitRegular(pod, inits, reason);
      if reason == COMPLETED && hasRunning {
        reason := if pod.ReadyCondition() then RUNNING else "NotReady";
      }
    }
    if pod.isDeleted && pod.statusReason == NODE_LOST {
      reason := "Unknown";
    } else if pod.isDeleted {
      reason := "Terminating";
    }
  }

  /** The reason before the regular containers are looked at. */
  method EarlyReasonOf(pod: Pod, inits: InitResult) returns (reason: string)
    requires inits.blockedAt == if pod.IsInitializing() then Some(pod.BlockedAt(0)) else None
    ensures reason == pod.EarlyReason()
  {
    reason := pod.phase;
    if pod.statusReason != "" {
      reason := pod.statusReason;
    }
    for i := 0 to |pod.conditions|
      invariant reason == if exists k :: 0 <= k < i && pod.conditions[k] == PodScheduled(SCHEDULING_GATED)
                          then SCHEDULING_GATED
                          else if pod.statusReason != "" then pod.statusReason else pod.phase
    {
      if pod.conditions[i] == PodScheduled(SCHEDULING_GATED) {
        reason := SCHEDULING_GATED;
      }
    }
    if inits.blockedAt.Some? {
      reason := BlockedReasonOf(pod, inits.blockedAt.value);
    }
  }

  lemma EndTexts(number: string)
    ensures "Init:Signal:" + number == "Init:" + ("Signal:" + number)
    ensures "Init:ExitCode:" + number == "Init:" + ("ExitCode:" + number)
  {
  }

  /** The reason set by the branches for an init container that holds up the pod. */
  method BlockedReasonOf(pod: Pod, i: nat) returns (reason: string)
    requires i < |pod.initStatuses|
    ensures reason == pod.BlockedReason(i)
  {
    var s := pod.initStatuses[i];
    if s.terminated.Some? {
      if s.terminated.value.reason == "" {
        if s.terminated.value.signal != 0 {
          EndTexts(ItoaSigned(s.terminated.value.signal));
          reason := "Init:Signal:" + ItoaSigned(s.terminated.value.signal);
        } else {
          EndTexts(ItoaSigned(s.terminated.value.exitCode));
          reason := "Init:ExitCode:" + ItoaSigned(s.terminated.value.exitCode);
        }
      } else {
        reason := "Init:" + s.terminated.value.reason;
      }
    } else if s.waiting.Some? && s.waiting.value != "" && s.waiting.value != POD_INITIALIZING {
      reason := "Init:" + s.waiting.value;
    } else {
      reason := "Init:" + Itoa(i) + "/" + Itoa(|pod.initContainers|);
    }
  }

  // ---- The reason, on the fields of the pod ----

  /** An init container with this name that may restart, unless a later one has the name. */
  ghost predicate LastRestarts(pod: Pod, name: string) {
    exists j :: 0 <= j < |pod.initContainers| && pod.initContainers[j] == InitContainer(name, Some("Always"))
                && forall k | j < k < |pod.initContainers| :: pod.initContainers[k].name != name
  }

  lemma {:induction false} RestartableExactly(pod: Pod, name: string, m: nat)
    requires m <= |pod.initContainers|
    ensures pod.IsRestartable(name, m) <==>
      exists j :: 0 <= j < m && pod.initContainers[j] == InitContainer(name, Some("Always"))
                  && forall k | j < k < m :: pod.initContainers[k].name != name
  {
    if m > 0 {
      RestartableExactly(pod, name, m - 1);
    }
  }

  /** The init container at this position ended well, or has started and may restart. */
  ghost predicate HasPassed(pod: Pod, i: nat)
    requires i < |pod.initStatuses|
  {
    var s := pod.initStatuses[i];
    || (s.terminated.Some? && s.terminated.value.exitCode == 0)
    || (s.started == Some(true) && LastRestarts(pod, s.name))
  }

  lemma PassesExactly(pod: Pod, i: nat)
    requires i < |pod.initStatuses|
    ensures pod.Passes(i) <==> HasPassed(pod, i)
  {
    RestartableExactly(pod, pod.initStatuses[i].name, |pod.initContainers|);
  }

  ghost predicate AllPassed(pod: Pod) {
    forall i | 0 <= i < |pod.initStatuses| :: HasPassed(pod, i)
  }

  /** The first init container that has not passed. */
  ghost predicate HoldsUp(pod: Pod, i: nat) {
    i < |pod.initStatuses| && !HasPassed(pod, i) && forall j | 0 <= j < i :: HasPassed(pod, j)
  }

  lemma InitializingExactly(pod: Pod)
    ensures pod.IsInitializing() <==> !AllPassed(pod)
    ensures pod.IsInitializing() ==> HoldsUp(pod, pod.BlockedAt(0))
    ensures pod.Seen() == if AllPassed(pod) then |pod.initStatuses| else pod.BlockedAt(0) + 1
  {
    forall i | 0 <= i < |pod.initStatuses| ensures pod.Passes(i) <==> HasPassed(pod, i) {
      PassesExactly(pod, i);
    }
  }

  /** The first condition about the initialisation says that it is over. */
  ghost predicate SaysInitialized(pod: Pod) {
    exists c :: 0 <= c < |pod.conditions| && pod.conditions[c] == PodInitialized(true)
                && forall d | 0 <= d < c :: !pod.conditions[d].PodInitialized?
  }

  lemma {:induction false} ConditionExactly(pod: Pod, i: nat)
    requires i <= |pod.conditions| && forall d | 0 <= d < i :: !pod.conditions[d].PodInitialized?
    ensures pod.InitializedCondition(i) <==> SaysInitialized(pod)
    decreases |pod.conditions| - i
  {
    if i < |pod.conditions| {
      if pod.conditions[i].PodInitialized? {
        assert pod.InitializedCondition(i) ==> pod.conditions[i] == PodInitialized(true);
      } else {
        ConditionExactly(pod, i + 1);
      }
    }
  }

  ghost predicate HasStarted(pod: Pod) {
    AllPassed(pod) || SaysInitialized(pod)
  }

  lemma StartedExactly(pod: Pod)
    ensures pod.IsInitialized() <==> HasStarted(pod)
  {
    InitializingExactly(pod);
    ConditionExactly(pod, 0);
  }

  /** The container waits for no given reason and has not ended. */
  ghost predicate IsSilent(s: ContainerStatus) {
    (s.waiting == None || s.waiting == Some("")) && s.terminated == None
  }

  /** The container waits for this reason or, if it does not wait for any, ended with it. */
  ghost predicate Says(s: ContainerStatus, reason: string) {
    if s.waiting.Some? && s.waiting.value != "" then reason == s.waiting.value else
      && s.terminated.Some?
      && if s.terminated.value.reason != "" then reason == s.terminated.value.reason
         else if s.terminated.value.signal != 0 then reason == "Signal:" + ItoaSigned(s.terminated.value.signal)
         else reason == "ExitCode:" + ItoaSigned(s.terminated.value.exitCode)
  }

  /** The first container that is not silent says this. */
  ghost predicate FirstSays(pod: Pod, i: nat, reason: string) {
    i < |pod.statuses| && Says(pod.statuses[i], reason) && forall j | 0 <= j < i :: IsSilent(pod.statuses[j])
  }

  ghost predicate AllSilent(pod: Pod) {
    forall i | 0 <= i < |pod.statuses| :: IsSilent(pod.statuses[i])
  }

  lemma {:induction false} FirstReasonExactly(pod: Pod, i: nat, default: string)
    requires i <= |pod.statuses| && forall j | 0 <= j < i :: IsSilent(pod.statuses[j])
    ensures AllSilent(pod) ==> pod.FirstReason(i, default) == default
    ensures !AllSilent(pod) ==> exists k :: FirstSays(pod, k, pod.FirstReason(i, default))
    decreases |pod.statuses| - i
  {
    if i < |pod.statuses| {
      if IsSilent(pod.statuses[i]) {
        FirstReasonExactly(pod, i + 1, default);
        assert pod.FirstReason(i, default) == pod.FirstReason(i + 1, default);
      } else {
        assert Says(pod.statuses[i], pod.FirstReason(i, default));
        assert FirstSays(pod, i, pod.FirstReason(i, default));
      }
    } else {
      assert AllSilent(pod);
    }
  }

  lemma OneFirst(pod: Pod, i: nat, r: string, k: nat, t: string)
    requires FirstSays(pod, i, r) && FirstSays(pod, k, t)
    ensures i == k && r == t
  {
    assert !IsSilent(pod.statuses[i]) && !IsSilent(pod.statuses[k]);
  }

  ghost predicate SomeRuns(pod: Pod) {
    exists k :: 0 <= k < |pod.statuses| && IsSilent(pod.statuses[k]) && pod.statuses[k].ready && pod.statuses[k].running
  }

  ghost predicate IsReady(pod: Pod) {
    exists c :: 0 <= c < |pod.conditions| && pod.conditions[c] == PodReady(true)
  }

  ghost predicate WaitsForGates(pod: Pod) {
    exists c :: 0 <= c < |pod.conditions| && pod.conditions[c] == PodScheduled("SchedulingGated")
  }

  /** A deleted pod, whatever else its status says. */
  lemma DeletedReason(pod: Pod)
    requires pod.isDeleted
    ensures pod.Reason() == if pod.statusReason == "NodeLost" then "Unknown" else "Terminating"
  {
  }

  lemma InitText(pod: Pod, i: nat)
    requires i < |pod.initStatuses|
    ensures |pod.BlockedReason(i)| > 0 && pod.BlockedReason(i)[..1] == "I"
  {
  }

  lemma Letters()
    ensures "Running"[..1] == "R" && "Completed"[..1] == "C" && "R" != "I" && "R" != "S" && "C" != "I" && "C" != "S"
    ensures "Unknown" != "Running" && "Terminating" != "Running" && "NotReady" != "Running" && "Running" != "Completed"
  {
    assert "R"[0] == 'R' && "I"[0] == 'I' && "S"[0] == 'S' && "C"[0] == 'C';
    assert "Unknown"[0] == 'U' && "Terminating"[0] == 'T' && "NotReady"[0] == 'N';
    assert "Running"[0] == 'R' && "Completed"[0] == 'C';
  }

  /** A pod held up by an init container, as long as it does not count as initialised or no
      other container says anything. */
  lemma HeldUpReason(pod: Pod, i: nat)
    requires !pod.isDeleted && HoldsUp(pod, i) && (!SaysInitialized(pod) || AllSilent(pod))
    ensures var s := pod.initStatuses[i];
      && (s.terminated.Some? && s.terminated.value.reason != "" ==> pod.Reason() == "Init:" + s.terminated.value.reason)
      && (s.terminated.Some? && s.terminated.value.reason == "" && s.terminated.value.signal != 0 ==>
            pod.Reason() == "Init:" + ("Signal:" + ItoaSigned(s.terminated.value.signal)))
      && (s.terminated.Some? && s.terminated.value.reason == "" && s.terminated.value.signal == 0 ==>
            pod.Reason() == "Init:" + ("ExitCode:" + ItoaSigned(s.terminated.value.exitCode)))
      && (s.terminated.None? && s.waiting.Some? && s.waiting.value != "" && s.waiting.value != "PodInitializing" ==>
            pod.Reason() == "Init:" + s.waiting.value)
      && (s.terminated.None? && (s.waiting.None? || s.waiting.value == "" || s.waiting.value == "PodInitializing") ==>
            pod.Reason() == "Init:" + Itoa(i) + "/" + Itoa(|pod.initContainers|))
  {
    InitializingExactly(pod);
    ConditionExactly(pod, 0);
    assert pod.BlockedAt(0) == i;
    FirstReasonExactly(pod, 0, pod.EarlyReason());
    InitText(pod, i);
    Letters();
  }

  lemma RunsExactly(pod: Pod)
    ensures (exists i :: 0 <= i < |pod.statuses| && pod.RunsAt(i)) <==> SomeRuns(pod)
    ensures pod.ReadyCondition() <==> IsReady(pod)
  {
    forall i | 0 <= i < |pod.statuses|
      ensures pod.RunsAt(i) <==> IsSilent(pod.statuses[i]) && pod.statuses[i].ready && pod.statuses[i].running
    {
    }
  }

  /** An initialised pod: what its first container that is not silent says, with one
      exception. */
  lemma SaidReason(pod: Pod, i: nat, reason: string)
    requires !pod.isDeleted && HasStarted(pod) && FirstSays(pod, i, reason)
    ensures reason != "Completed" || !SomeRuns(pod) ==> pod.Reason() == reason
    ensures reason == "Completed" && SomeRuns(pod) ==> pod.Reason() == if IsReady(pod) then "Running" else "NotReady"
  {
    StartedExactly(pod);
    FirstReasonExactly(pod, 0, pod.EarlyReason());
    assert !IsSilent(pod.statuses[i]);
    var k :| FirstSays(pod, k, pod.FirstReason(0, pod.EarlyReason()));
    OneFirst(pod, i, reason, k, pod.FirstReason(0, pod.EarlyReason()));
    RunsExactly(pod);
  }

  /** What is said about the pod as a whole while no container says anything. */
  ghost predicate PodSays(pod: Pod, reason: string) {
    AllPassed(pod) && !WaitsForGates(pod) && reason == if pod.statusReason != "" then pod.statusReason else pod.phase
  }

  /** A pod whose containers are all silent, and whose init containers have passed. */
  lemma QuietReason(pod: Pod)
    requires !pod.isDeleted && AllPassed(pod) && AllSilent(pod)
    ensures WaitsForGates(pod) ==> pod.Reason() == "SchedulingGated"
    ensures forall reason | PodSays(pod, reason) && (reason != "Completed" || !SomeRuns(pod)) :: pod.Reason() == reason
  {
    InitializingExactly(pod);
    FirstReasonExactly(pod, 0, pod.EarlyReason());
    RunsExactly(pod);
    assert pod.IsGated() <==> WaitsForGates(pod);
    assert "SchedulingGated"[0] == 'S' && "Completed"[0] == 'C';
  }

  /** The reason before the last rewrite, for an initialised pod. */
  ghost predicate FinallySays(pod: Pod, reason: string) {
    if AllSilent(pod) then PodSays(pod, reason) else exists i {:trigger FirstSays(pod, i, reason)} :: FirstSays(pod, i, reason)
  }

  /** When a pod counts as running. */
  ghost predicate IsReportedRunning(pod: Pod) {
    && !pod.isDeleted && HasStarted(pod)
    && (FinallySays(pod, "Running") || (FinallySays(pod, "Completed") && SomeRuns(pod) && IsReady(pod)))
  }

  lemma EarlyExactly(pod: Pod, reason: string)
    requires |reason| > 0 && reason[..1] != "I" && reason[..1] != "S"
    ensures pod.EarlyReason() == reason <==> PodSays(pod, reason)
  {
    InitializingExactly(pod);
    if pod.IsInitializing() {
      InitText(pod, pod.BlockedAt(0));
    }
    assert SCHEDULING_GATED[..1] == "S";
    assert pod.IsGated() <==> WaitsForGates(pod);
  }

  lemma FinallyExactly(pod: Pod, reason: string)
    requires |reason| > 0 && reason[..1] != "I" && reason[..1] != "S"
    ensures pod.FirstReason(0, pod.EarlyReason()) == reason <==> FinallySays(pod, reason)
  {
    FirstReasonExactly(pod, 0, pod.EarlyReason());
    if AllSilent(pod) {
      EarlyExactly(pod, reason);
    } else {
      var k :| FirstSays(pod, k, pod.FirstReason(0, pod.EarlyReason()));
      if i :| FirstSays(pod, i, reason) {
        OneFirst(pod, i, reason, k, pod.FirstReason(0, pod.EarlyReason()));
      }
    }
  }

  lemma BlockedIsNotRunning(pod: Pod)
    requires !HasStarted(pod)
    ensures pod.EarlyReason() != "Running"
  {
    InitializingExactly(pod);
    InitText(pod, pod.BlockedAt(0));
    Letters();
  }

  /** A pod is reported running exactly when its fields say so. */
  lemma RunningExactly(pod: Pod)
    ensures pod.Reason() == "Running" <==> IsReportedRunning(pod)
  {
    Letters();
    StartedExactly(pod);
    if !HasStarted(pod) {
      BlockedIsNotRunning(pod);
    } else {
      FinallyExactly(pod, "Running");
      FinallyExactly(pod, "Completed");
      RunsExactly(pod);
    }
  }

  // ---- Changes ----

  /** The pod starts to run, is reported as running again, or has restarted meanwhile. */
  predicate Triggers(oldPod: Pod, newPod: Pod) {
    || (newPod.phase == RUNNING && oldPod.phase != RUNNING)
    || (newPod.Reason() == RUNNING && (oldPod.Reason() != RUNNING || newPod.Restarts() > oldPod.Restarts()))
  }

  /** PodChanged: whether the update puts the pod into the work queue. */
  method PodChanged(oldPod: Pod, newPod: Pod) returns (enqueued: bool)
    ensures enqueued <==> Triggers(oldPod, newPod)
  {
    var oldRestarts, oldDate, oldReason := Status(oldPod);
    var newRestarts, newDate, newReason := Status(newPod);
    if oldPod.phase != newPod.phase && newPod.phase == RUNNING {
      return true;
    }
    if (oldReason != newReason && newReason == RUNNING)
       || (oldReason == newReason && newReason == RUNNING && newRestarts > oldRestarts) {
      return true;
    }
    return false;
  }

  /** The counted restarts, container by container: the init containers that were looked
      at (zero for those that may not restart), then the regular ones. */
  ghost function InitCount(pod: Pod, i: nat): int
    requires i < |pod.initStatuses|
  {
    if pod.RestartableAt(i) then pod.initStatuses[i].restartCount else 0
  }

  ghost predicate NoneFell(oldPod: Pod, newPod: Pod) {
    && |oldPod.statuses| == |newPod.statuses| && oldPod.Seen() == newPod.Seen()
    && (forall i | 0 <= i < oldPod.Seen() :: InitCount(oldPod, i) <= InitCount(newPod, i))
    && (forall i | 0 <= i < |oldPod.statuses| :: oldPod.statuses[i].restartCount <= newPod.statuses[i].restartCount)
  }

  ghost predicate OneRose(oldPod: Pod, newPod: Pod)
    requires NoneFell(oldPod, newPod)
  {
    || (exists i :: 0 <= i < oldPod.Seen() && InitCount(oldPod, i) < InitCount(newPod, i))
    || (exists i :: 0 <= i < |oldPod.statuses| && oldPod.statuses[i].restartCount < newPod.statuses[i].restartCount)
  }

  lemma {:induction false} InitsRose(oldPod: Pod, newPod: Pod, n: nat)
    requires NoneFell(oldPod, newPod) && n <= oldPod.Seen()
    ensures oldPod.InitRestarts(n, true) <= newPod.InitRestarts(n, true)
    ensures oldPod.InitRestarts(n, true) < newPod.InitRestarts(n, true)
       <==> exists i :: 0 <= i < n && InitCount(oldPod, i) < InitCount(newPod, i)
  {
    if n > 0 {
      InitsRose(oldPod, newPod, n - 1);
      assert InitCount(oldPod, n - 1) <= InitCount(newPod, n - 1);
    }
  }

  lemma {:induction false} RegularsRose(oldPod: Pod, newPod: Pod, i: nat)
    requires NoneFell(oldPod, newPod) && i <= |oldPod.statuses|
    ensures oldPod.RegularRestarts(i) <= newPod.RegularRestarts(i)
    ensures oldPod.RegularRestarts(i) < newPod.RegularRestarts(i)
       <==> exists k :: i <= k < |oldPod.statuses| && oldPod.statuses[k].restartCount < newPod.statuses[k].restartCount
    decreases |oldPod.statuses| - i
  {
    if i < |oldPod.statuses| {
      RegularsRose(oldPod, newPod, i + 1);
    }
  }

  /** Between two initialised snapshots of the same containers whose counted restarts never
      fell, the total rises exactly when one of the counts does. */
  lemma RiseSeen(oldPod: Pod, newPod: Pod)
    requires oldPod.IsInitialized() && newPod.IsInitialized() && NoneFell(oldPod, newPod)
    ensures newPod.Restarts() > oldPod.Restarts() <==> OneRose(oldPod, newPod)
  {
    InitsRose(oldPod, newPod, oldPod.Seen());
    RegularsRose(oldPod, newPod, 0);
  }

  /** Between snapshots of the same containers whose counted restarts never fell, the update
      triggers the setter exactly when the pod enters the phase Running, when it is reported
      running again, or when a container of a running pod restarted. */
  lemma TriggersExactly(oldPod: Pod, newPod: Pod)
    requires NoneFell(oldPod, newPod)
    ensures Triggers(oldPod, newPod) <==>
      || (newPod.phase == "Running" && oldPod.phase != "Running")
      || (IsReportedRunning(newPod) && !IsReportedRunning(oldPod))
      || (IsReportedRunning(newPod) && IsReportedRunning(oldPod) && OneRose(oldPod, newPod))
  {
    RunningExactly(oldPod);
    RunningExactly(newPod);
    if IsReportedRunning(newPod) && IsReportedRunning(oldPod) {
      StartedExactly(oldPod);
      StartedExactly(newPod);
      RiseSeen(oldPod, newPod);
    }
  }

  /** In particular, when both are reported running, it triggers exactly when a container
      restarted, the phase being the same. */
  lemma RestartTriggers(oldPod: Pod, newPod: Pod)
    requires NoneFell(oldPod, newPod) && oldPod.Reason() == newPod.Reason() == RUNNING
    ensures OneRose(oldPod, newPod) ==> Triggers(oldPod, newPod)
    ensures oldPod.phase == newPod.phase && Triggers(oldPod, newPod) ==> OneRose(oldPod, newPod)
  {
    RunningExactly(oldPod);
    RunningExactly(newPod);
    TriggersExactly(oldPod, newPod);
  }

  ghost predicate ReadyBesideCompleted(pod: Pod, done: nat) {
    !pod.isDeleted && HasStarted(pod) && FirstSays(pod, done, "Completed") && SomeRuns(pod) && IsReady(pod)
  }

  lemma CompletedCounts(pod: Pod, done: nat)
    requires ReadyBesideCompleted(pod, done)
    ensures IsReportedRunning(pod)
  {
    assert !IsSilent(pod.statuses[done]);
    assert FinallySays(pod, "Completed");
  }

  /** So a container restarting in a ready pod whose first container has completed is seen,
      while the pod is not being deleted. */
  lemma RestartBesideCompleted(oldPod: Pod, newPod: Pod, done: nat, restarted: nat)
    requires NoneFell(oldPod, newPod) && restarted < |newPod.statuses|
    requires oldPod.statuses[restarted].restartCount < newPod.statuses[restarted].restartCount
    requires ReadyBesideCompleted(oldPod, done) && ReadyBesideCompleted(newPod, done)
    ensures Triggers(oldPod, newPod)
  {
    TriggersExactly(oldPod, newPod);
    CompletedCounts(oldPod, done);
    CompletedCounts(newPod, done);
  }

  // ---- The number of restarts ----

  lemma {:induction false} RegularsAdd(pod: Pod, other: Pod, i: nat, k: nat)
    requires i <= |pod.statuses| && k < |pod.statuses| == |other.statuses|
    requires forall j | 0 <= j < |pod.statuses| && j != k :: other.statuses[j] == pod.statuses[j]
    ensures other.RegularRestarts(i) - pod.RegularRestarts(i)
         == if i <= k then other.statuses[k].restartCount - pod.statuses[k].restartCount else 0
    decreases |pod.statuses| - i
  {
    if i < |pod.statuses| {
      RegularsAdd(pod, other, i + 1, k);
    }
  }

  lemma {:induction false} InitsAdd(pod: Pod, other: Pod, n: nat, onlyRestartable: bool, k: nat)
    requires n <= |pod.initStatuses| && k < |pod.initStatuses| == |other.initStatuses|
    requires forall j | 0 <= j < |pod.initStatuses| && j != k :: other.initStatuses[j].restartCount == pod.initStatuses[j].restartCount
    requires forall j | 0 <= j < |pod.initStatuses| :: other.RestartableAt(j) == pod.RestartableAt(j)
    ensures other.InitRestarts(n, onlyRestartable) - pod.InitRestarts(n, onlyRestartable)
         == if k < n && (onlyRestartable ==> pod.RestartableAt(k))
            then other.initStatuses[k].restartCount - pod.initStatuses[k].restartCount else 0
  {
    if n > 0 {
      InitsAdd(pod, other, n - 1, onlyRestartable, k);
      assert other.RestartableAt(n - 1) == pod.RestartableAt(n - 1);
    }
  }

  lemma {:induction false} SameRestartable(pod: Pod, other: Pod, name: string, m: nat)
    requires m <= |pod.initContainers| && other.initContainers == pod.initContainers
    ensures other.IsRestartable(name, m) == pod.IsRestartable(name, m)
  {
    if m > 0 {
      SameRestartable(pod, other, name, m - 1);
    }
  }

  /** How far the initialisation is does not depend on the restarts. */
  lemma SameProgress(pod: Pod, other: Pod)
    requires other.initContainers == pod.initContainers && other.conditions == pod.conditions
    requires |other.initStatuses| == |pod.initStatuses|
    requires forall j | 0 <= j < |pod.initStatuses| :: HasPassed(other, j) <==> HasPassed(pod, j)
    ensures other.Seen() == pod.Seen() && other.IsInitialized() == pod.IsInitialized()
  {
    InitializingExactly(pod);
    InitializingExactly(other);
    StartedExactly(pod);
    StartedExactly(other);
    assert SaysInitialized(other) <==> SaysInitialized(pod);
  }

  lemma SameInit(pod: Pod, other: Pod)
    requires other.initContainers == pod.initContainers && other.conditions == pod.conditions && other.initStatuses == pod.initStatuses
    ensures other.Seen() == pod.Seen() && other.IsInitialized() == pod.IsInitialized()
  {
    forall j | 0 <= j < |pod.initStatuses| ensures HasPassed(other, j) <==> HasPassed(pod, j) {
      assert LastRestarts(other, pod.initStatuses[j].name) <==> LastRestarts(pod, pod.initStatuses[j].name);
    }
    SameProgress(pod, other);
  }

  lemma {:induction false} SameInits(pod: Pod, other: Pod, n: nat, onlyRestartable: bool)
    requires n <= |pod.initStatuses| && other.initContainers == pod.initContainers && other.initStatuses == pod.initStatuses
    ensures other.InitRestarts(n, onlyRestartable) == pod.InitRestarts(n, onlyRestartable)
  {
    if n > 0 {
      SameInits(pod, other, n - 1, onlyRestartable);
      SameRestartable(pod, other, pod.initStatuses[n - 1].name, |pod.initContainers|);
    }
  }

  /** In an initialised pod each restart of a regular container counts once. */
  lemma RegularCounts(pod: Pod, k: nat, count: int)
    requires HasStarted(pod) && k < |pod.statuses|
    ensures var other := pod.(statuses := pod.statuses[k := pod.statuses[k].(restartCount := count)]);
      other.Restarts() - pod.Restarts() == count - pod.statuses[k].restartCount
  {
    var other := pod.(statuses := pod.statuses[k := pod.statuses[k].(restartCount := count)]);
    StartedExactly(pod);
    RegularsAdd(pod, other, 0, k);
    SameInit(pod, other);
    SameInits(pod, other, pod.Seen(), true);
  }

  /** The restarts of an init container that the status looks at: in an initialised pod they
      count if it may restart, before that in any case. */
  ghost predicate IsCounted(pod: Pod, k: nat)
    requires k < |pod.initStatuses|
  {
    && (forall j | 0 <= j < k :: HasPassed(pod, j))
    && (HasStarted(pod) ==> LastRestarts(pod, pod.initStatuses[k].name))
  }

  lemma {:induction false} SameRegulars(pod: Pod, other: Pod, i: nat)
    requires i <= |pod.statuses| && other.statuses == pod.statuses
    ensures other.RegularRestarts(i) == pod.RegularRestarts(i)
    decreases |pod.statuses| - i
  {
    if i < |pod.statuses| {
      SameRegulars(pod, other, i + 1);
    }
  }

  lemma InitCounts(pod: Pod, other: Pod, k: nat, count: int)
    requires k < |pod.initStatuses|
    requires other == pod.(initStatuses := pod.initStatuses[k := pod.initStatuses[k].(restartCount := count)])
    ensures other.Restarts() - pod.Restarts() == if IsCounted(pod, k) then count - pod.initStatuses[k].restartCount else 0
  {
    forall j | 0 <= j < |pod.initStatuses|
      ensures (HasPassed(other, j) <==> HasPassed(pod, j)) && other.RestartableAt(j) == pod.RestartableAt(j)
    {
      assert LastRestarts(other, pod.initStatuses[j].name) <==> LastRestarts(pod, pod.initStatuses[j].name);
      SameRestartable(pod, other, pod.initStatuses[j].name, |pod.initContainers|);
    }
    SameProgress(pod, other);
    InitsAdd(pod, other, pod.Seen(), pod.IsInitialized(), k);
    SameRegulars(pod, other, 0);
    StartedExactly(pod);
    InitializingExactly(pod);
    RestartableExactly(pod, pod.initStatuses[k].name, |pod.initContainers|);
  }

  ghost predicate EndsAt(s: ContainerStatus, date: nat) {
    exists t: Terminated :: s.lastTermination == Some(t) && t.finishedAt == date
  }

  /** The end of a restart that counts. */
  ghost predicate IsEnd(pod: Pod, date: nat) {
    || (HasStarted(pod) && exists i :: 0 <= i < |pod.statuses| && EndsAt(pod.statuses[i], date))
    || (exists k :: 0 <= k < |pod.initStatuses| && IsCounted(pod, k) && EndsAt(pod.initStatuses[k], date))
  }

  lemma EndsExactly(s: ContainerStatus, date: nat)
    ensures Pod.EndedAt(s, date) <==> EndsAt(s, date)
  {
  }

  lemma EndedExactly(pod: Pod, date: nat)
    ensures pod.Ended(date) <==> IsEnd(pod, date)
  {
    forall s: ContainerStatus ensures Pod.EndedAt(s, date) <==> EndsAt(s, date) {
      EndsExactly(s, date);
    }
    StartedExactly(pod);
    forall k | 0 <= k < |pod.initStatuses|
      ensures IsCounted(pod, k) <==> k < pod.Seen() && (pod.IsInitialized() ==> pod.RestartableAt(k))
    {
      InitializingExactly(pod);
      RestartableExactly(pod, pod.initStatuses[k].name, |pod.initContainers|);
    }
  }

  /** The reported date is the latest of them, or the zero time. */
  lemma LatestExactly(pod: Pod, date: nat)
    ensures IsLatest(pod, date) <==> (date == 0 || IsEnd(pod, date)) && forall d: nat | IsEnd(pod, d) :: d <= date
  {
    forall d: nat ensures pod.Ended(d) <==> IsEnd(pod, d) {
      EndedExactly(pod, d);
    }
  }

  lemma {:induction false} NoInits(pod: Pod, n: nat, onlyRestartable: bool)
    requires n <= |pod.initStatuses| && forall k | 0 <= k < |pod.initStatuses| :: pod.initStatuses[k].restartCount == 0
    ensures pod.InitRestarts(n, onlyRestartable) == 0
  {
    if n > 0 {
      NoInits(pod, n - 1, onlyRestartable);
    }
  }

  lemma {:induction false} NoRegulars(pod: Pod, i: nat)
    requires i <= |pod.statuses| && forall k | 0 <= k < |pod.statuses| :: pod.statuses[k].restartCount == 0
    ensures pod.RegularRestarts(i) == 0
    decreases |pod.statuses| - i
  {
    if i < |pod.statuses| {
      NoRegulars(pod, i + 1);
    }
  }

  /** And without restarts nothing is counted. */
  lemma NoRestarts(pod: Pod)
    requires forall k | 0 <= k < |pod.statuses| :: pod.statuses[k].restartCount == 0
    requires forall k | 0 <= k < |pod.initStatuses| :: pod.initStatuses[k].restartCount == 0
    ensures pod.Restarts() == 0
  {
    NoInits(pod, pod.Seen(), pod.IsInitialized());
    NoRegulars(pod, 0);
  }
}
