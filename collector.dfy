/**
  The polling supervisor. `CollectorManager` holds the running flag shared with every
  polling task and the join handles of the current generation of tasks. A task is
  represented by its `LoopHandle`; its body, run by the runtime concurrently with
  everything else, is `PollLoop`, which sees the shared flag only through the values it
  reads at its read points (an oracle, since other tasks change the flag meanwhile).
 */
module Collector {
  import opened Wrappers
  import opened Http
  import opened Models
  import opened Metrics

  /** The interval used when a service is configured with a non-positive one. */
  const DefaultIntervalSecs: nat := 30

  /** The interval a polling task sleeps between checks, in one-second slices. */
  function EffectiveInterval(configured: int): (secs: nat)
    ensures secs >= 1
    ensures configured <= 0 ==> secs == DefaultIntervalSecs
    ensures configured > 0 ==> secs == configured
  {
    if configured <= 0 then DefaultIntervalSecs else configured
  }

  /** `perform_check`: whether the target answered with a success-class status, or the request error. */
  function PerformCheck(p: ProbeOutcome): (r: Result<bool, ProbeError>)
    ensures r.Ok? <==> p.Responded?
    ensures r.Ok? ==> (r.value <==> IsSuccess(p.code))
  {
    match p
    case Responded(code) => Ok(IsSuccess(code))
    case TransportError => Err(RequestFailed)
  }

  /** The status label a polling task derives from `perform_check`; an error counts as DOWN. */
  function CheckStatus(r: Result<bool, ProbeError>): (status: string)
    ensures status == UP || status == DOWN
    ensures status == UP <==> r == Ok(true)
  {
    match r
    case Ok(up) => if up then UP else DOWN
    case Err(_) => DOWN
  }

  /** A probe is UP exactly when the target responded with a success-class status. */
  lemma LoopStatusIsSuccess(p: ProbeOutcome)
    ensures CheckStatus(PerformCheck(p)) == UP <==> p.Responded? && IsSuccess(p.code)
    ensures p.TransportError? ==> CheckStatus(PerformCheck(p)) == DOWN
  {
  }

  /** The metric observation of one check of `service` by its polling task. */
  function LoopCheck(service: Service, probe: Probe): (c: CheckResult)
    ensures c.Gauge() == GaugeKey(service.healthcheckUrl, service.serviceName)
    ensures c.up <==> probe.outcome.Responded? && IsSuccess(probe.outcome.code)
    ensures c.Counter().result == CheckStatus(PerformCheck(probe.outcome))
    ensures c.latency == probe.latency
  {
    var status := CheckStatus(PerformCheck(probe.outcome));
    CheckResult(service.healthcheckUrl, service.serviceName, status == UP, probe.latency)
  }

  /**
    The sliced sleep. `running(k)` is the flag as read before slice `k` (and, for `k` equal
    to the number of slices slept, as read right after the sleep). Returns the number of
    one-second slices slept and the flag read after the sleep.
   */
  method SlicedSleep(intervalSecs: nat, running: nat -> bool) returns (slept: nat, stillRunning: bool)
    ensures slept <= intervalSecs
    ensures forall k :: 0 <= k < slept ==> running(k)
    ensures slept < intervalSecs ==> !running(slept)
    ensures stillRunning == running(slept)
    ensures stillRunning <==> StayedUp(running, intervalSecs)
  {
    slept := 0;
    while slept < intervalSecs
      invariant slept <= intervalSecs
      invariant forall k :: 0 <= k < slept ==> running(k)
    {
      if !running(slept) {
        break;
      }
      slept := slept + 1;
    }
    stillRunning := running(slept);
  }

  /** The flag was up at every slice boundary of a sleep of `intervalSecs` slices. */
  predicate StayedUp(running: nat -> bool, intervalSecs: nat) {
    forall k :: 0 <= k <= intervalSecs ==> running(k)
  }

  /** What one iteration of a polling task meets: the probe and the flag during its sleep. */
  datatype Round = Round(probe: Probe, running: nat -> bool)

  /** The observations of the first checks of a task, one per round. */
  function LoopChecks(service: Service, rounds: seq<Round>): (cs: seq<CheckResult>)
    ensures |cs| == |rounds|
    ensures forall i :: 0 <= i < |rounds| ==> cs[i] == LoopCheck(service, rounds[i].probe)
  {
    seq(|rounds|, i requires 0 <= i < |rounds| => LoopCheck(service, rounds[i].probe))
  }

  /**
    Whether the task may begin check `i`: the flag it reads at the top of that iteration is
    the one it read at the start for the first check, and the one read after the previous
    sleep for the others.
   */
  predicate MayCheck(runningAtStart: bool, rounds: seq<Round>, intervalSecs: nat, i: nat)
    requires i <= |rounds|
  {
    if i == 0 then runningAtStart else StayedUp(rounds[i - 1].running, intervalSecs)
  }

  /**
    The body of one polling task, over the iterations `rounds` describes: normalise the
    interval, then repeatedly check, write the three series and sleep, stopping as soon as
    the flag is read down. Returns the number of checks performed.
   */
  method PollLoop(sink: Sink, service: Service, runningAtStart: bool, rounds: seq<Round>)
    returns (checks: nat)
    modifies sink
    ensures checks <= |rounds|
    ensures forall i :: 0 <= i < checks ==>
      MayCheck(runningAtStart, rounds, EffectiveInterval(service.durationSeconds), i)
    ensures checks < |rounds| ==>
      !MayCheck(runningAtStart, rounds, EffectiveInterval(service.durationSeconds), checks)
    ensures sink.Snapshot() == Replay(old(sink.Snapshot()), LoopChecks(service, rounds[..checks]))
  {
    var intervalSecs := EffectiveInterval(service.durationSeconds);
    var running := runningAtStart;
    ghost var done: seq<CheckResult> := [];
    checks := 0;
    while checks < |rounds|
      invariant checks <= |rounds|
      invariant forall i :: 0 <= i < checks ==> MayCheck(runningAtStart, rounds, intervalSecs, i)
      invariant running == MayCheck(runningAtStart, rounds, intervalSecs, checks)
      invariant done == LoopChecks(service, rounds[..checks])
      invariant sink.Snapshot() == Replay(old(sink.Snapshot()), done)
    {
      if !running {
        break;
      }
      MayCheckPrefix(runningAtStart, rounds, intervalSecs, checks);
      var round := rounds[checks];
      var c := LoopCheck(service, round.probe);
      sink.Record(c);
      ReplayStep(old(sink.Snapshot()), done, c);
      LoopChecksStep(service, rounds, checks);
      done := done + [c];
      var slept;
      slept, running := SlicedSleep(intervalSecs, round.running);
      checks := checks + 1;
    }
  }

  /** The checks permitted so far, plus one more that is permitted. */
  lemma MayCheckPrefix(runningAtStart: bool, rounds: seq<Round>, intervalSecs: nat, n: nat)
    requires n < |rounds|
    requires forall i :: 0 <= i < n ==> MayCheck(runningAtStart, rounds, intervalSecs, i)
    requires MayCheck(runningAtStart, rounds, intervalSecs, n)
    ensures forall i :: 0 <= i < n + 1 ==> MayCheck(runningAtStart, rounds, intervalSecs, i)
  {
  }

  /** One more round adds its check at the end. */
  lemma LoopChecksStep(service: Service, rounds: seq<Round>, i: nat)
    requires i < |rounds|
    ensures LoopChecks(service, rounds[..i + 1]) == LoopChecks(service, rounds[..i]) + [LoopCheck(service, rounds[i].probe)]
  {
    var a := LoopChecks(service, rounds[..i + 1]);
    var b := LoopChecks(service, rounds[..i]) + [LoopCheck(service, rounds[i].probe)];
    assert |a| == |b|;
    forall j | 0 <= j < |a| ensures a[j] == b[j] {
      assert rounds[..i + 1][j] == rounds[j];
    }
  }

  /**
    The join handle of one spawned polling task, for the service it polls. `aborts` counts
    the abort requests it has received; an abort requests cancellation and does not wait for
    the task to end.
   */
  class LoopHandle {
    const service: Service
    var aborts: nat

    constructor (service: Service)
      ensures this.service == service && aborts == 0
    {
      this.service := service;
      aborts := 0;
    }

    method Abort()
      modifies this
      ensures aborts == old(aborts) + 1
    {
      aborts := aborts + 1;
    }
  }

  /** The services a start cycle loads: the query result, or none when the query fails. */
  function Loaded(listing: Result<seq<Service>, StoreError>): (services: seq<Service>)
    ensures listing.Err? ==> services == []
    ensures listing.Ok? ==> services == listing.value
  {
    match listing
    case Ok(s) => s
    case Err(_) => []
  }

  /** The supervisor: the shared running flag and the handles of the current generation. */
  class CollectorManager {
    var running: bool
    var handles: seq<LoopHandle>

    /** Every handle is held once and none of them has been aborted yet. */
    ghost predicate Valid()
      reads this, handles
    {
      && (forall i, j :: 0 <= i < j < |handles| ==> handles[i] != handles[j])
      && (forall h :: h in handles ==> h.aborts == 0)
    }

    constructor ()
      ensures Valid() && !running && handles == []
    {
      running := false;
      handles := [];
    }

    /**
      Lower the flag, take the handle list, leaving an empty one, and abort every handle
      taken, once each. A second `stop` finds no handles and changes nothing.
     */
    method Stop()
      requires Valid()
      modifies this, handles
      ensures Valid() && !running && handles == []
      ensures forall h :: h in old(handles) ==> h.aborts == 1
    {
      running := false;
      var taken := handles;
      handles := [];
      for i := 0 to |taken|
        invariant !running && handles == []
        invariant forall j, k :: 0 <= j < k < |taken| ==> taken[j] != taken[k]
        invariant forall j :: 0 <= j < i ==> taken[j].aborts == 1
        invariant forall j :: i <= j < |taken| ==> taken[j].aborts == 0
      {
        taken[i].Abort();
      }
    }

    /**
      Stop the previous generation, raise the flag, load the services (none when the query
      fails) and spawn one polling task per service, in order; the new handles replace the
      old list.
     */
    method Start(listing: Result<seq<Service>, StoreError>)
      requires Valid()
      modifies this, handles
      ensures Valid() && running
      ensures |handles| == |Loaded(listing)|
      ensures forall i :: 0 <= i < |handles| ==> handles[i].service == Loaded(listing)[i] && fresh(handles[i])
      ensures forall h :: h in old(handles) ==> h.aborts == 1
    {
      Stop();
      running := true;
      var services := Loaded(listing);
      var spawned: seq<LoopHandle> := [];
      for i := 0 to |services|
        invariant running
        invariant forall h :: h in old(handles) ==> h.aborts == 1
        invariant |spawned| == i
        invariant forall j :: 0 <= j < i ==> spawned[j].service == services[j] && fresh(spawned[j])
        invariant forall j :: 0 <= j < i ==> spawned[j].aborts == 0
        invariant forall j, k :: 0 <= j < k < i ==> spawned[j] != spawned[k]
      {
        var h := new LoopHandle(services[i]);
        spawned := spawned + [h];
      }
      handles := spawned;
    }

    /** `restart` is `start`, with the same effect. */
    method Restart(listing: Result<seq<Service>, StoreError>)
      requires Valid()
      modifies this, handles
      ensures Valid() && running
      ensures |handles| == |Loaded(listing)|
      ensures forall i :: 0 <= i < |handles| ==> handles[i].service == Loaded(listing)[i] && fresh(handles[i])
      ensures forall h :: h in old(handles) ==> h.aborts == 1
    {
      Start(listing);
    }
  }
}
