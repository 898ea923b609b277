/**
  The metrics sink: three label-keyed families in the process-wide registry.
    - service_status{service_health_checkurl, service_name}: gauge, 1 for UP and 0 for DOWN;
    - service_latency_seconds{service_health_checkurl, service_name}: gauge, latency of the last check;
    - service_checks_total{service_health_checkurl, service_name, result}: counter of checks.
  `Registry` is the value of the three families and `Sink` the mutable registry the
  collector loops and the check handlers write into. A cell is keyed by its label values
  in the order above; the family and label names play no part in what is proved.
 */
module Metrics {
  import opened Wrappers
  import opened Http

  const UP := "UP"
  const DOWN := "DOWN"

  /** The label values of a gauge cell: the check URL and the service name. */
  datatype GaugeKey = GaugeKey(url: string, name: string)

  /** The label values of a counter cell: the check URL, the service name and the result. */
  datatype CounterKey = CounterKey(url: string, name: string, result: string)

  /** One finished check, as the writers hand it to the sink. */
  datatype CheckResult = CheckResult(url: string, name: string, up: bool, latency: real) {
    function Gauge(): GaugeKey {
      GaugeKey(url, name)
    }
    function Counter(): CounterKey {
      CounterKey(url, name, ResultLabel(up))
    }
  }

  /** The value of the `result` label. */
  function ResultLabel(up: bool): string {
    if up then UP else DOWN
  }

  /** The value written to the status gauge. */
  function StatusValue(up: bool): real {
    if up then 1.0 else 0.0
  }

  /** The current value of every cell of the three families. */
  datatype Registry = Registry(
    status: map<GaugeKey, real>,
    latency: map<GaugeKey, real>,
    checks: map<CounterKey, nat>)

  const Empty := Registry(map[], map[], map[])

  /** A counter cell reads 0 until it is first incremented. */
  function Count(r: Registry, k: CounterKey): nat {
    if k in r.checks then r.checks[k] else 0
  }

  /** The three writes of one check: set latency, set status, increment one counter cell. */
  function Observe(r: Registry, c: CheckResult): (r': Registry)
    ensures forall k :: Count(r', k) == Count(r, k) + (if k == c.Counter() then 1 else 0)
    ensures r'.status.Keys == r.status.Keys + {c.Gauge()}
    ensures r'.latency.Keys == r.latency.Keys + {c.Gauge()}
    ensures r'.checks.Keys == r.checks.Keys + {c.Counter()}
    ensures (r'.status[c.Gauge()] == 1.0 <==> c.up) && (r'.status[c.Gauge()] == 0.0 <==> !c.up)
    ensures r'.latency[c.Gauge()] == c.latency
    ensures forall g :: g in r.status && g != c.Gauge() ==> r'.status[g] == r.status[g]
    ensures forall g :: g in r.latency && g != c.Gauge() ==> r'.latency[g] == r.latency[g]
  {
    Registry(
      r.status[c.Gauge() := StatusValue(c.up)],
      r.latency[c.Gauge() := c.latency],
      r.checks[c.Counter() := Count(r, c.Counter()) + 1])
  }

  /** The registry after the checks of `cs` were written, oldest first. */
  function Replay(r: Registry, cs: seq<CheckResult>): Registry
    decreases |cs|
  {
    if cs == [] then r else Observe(Replay(r, cs[..|cs| - 1]), cs[|cs| - 1])
  }

  /** Writing one more check extends the replay by one observation. */
  lemma ReplayStep(r: Registry, cs: seq<CheckResult>, c: CheckResult)
    ensures Replay(r, cs + [c]) == Observe(Replay(r, cs), c)
  {
    assert (cs + [c])[..|cs|] == cs;
  }

  /** How many of the checks in `cs` land on counter cell `k`. */
  function Landing(cs: seq<CheckResult>, k: CounterKey): nat
    decreases |cs|
  {
    if cs == [] then 0
    else Landing(cs[..|cs| - 1], k) + (if cs[|cs| - 1].Counter() == k then 1 else 0)
  }

  /** The last check in `cs` for gauge cell `g`, if any. */
  function LastFor(cs: seq<CheckResult>, g: GaugeKey): Option<CheckResult>
    decreases |cs|
  {
    if cs == [] then None
    else if cs[|cs| - 1].Gauge() == g then Some(cs[|cs| - 1])
    else LastFor(cs[..|cs| - 1], g)
  }

  /** A counter cell grows by exactly the number of checks that land on it. */
  lemma {:induction false} ReplayCount(r: Registry, cs: seq<CheckResult>, k: CounterKey)
    ensures Count(Replay(r, cs), k) == Count(r, k) + Landing(cs, k)
    decreases |cs|
  {
    if cs != [] {
      ReplayCount(r, cs[..|cs| - 1], k);
    }
  }

  /** Counters never go down, whatever checks are written. */
  lemma CountersOnlyGrow(r: Registry, cs: seq<CheckResult>, k: CounterKey)
    ensures Count(Replay(r, cs), k) >= Count(r, k)
  {
    ReplayCount(r, cs, k);
  }

  /**
    Both gauges of a service hold what its last check wrote, overwriting earlier values;
    a service without checks in `cs` keeps its old gauges.
   */
  lemma {:induction false} ReplayGauges(r: Registry, cs: seq<CheckResult>, g: GaugeKey)
    ensures LastFor(cs, g).Some? ==>
      && g in Replay(r, cs).status && g in Replay(r, cs).latency
      && Replay(r, cs).status[g] == StatusValue(LastFor(cs, g).value.up)
      && Replay(r, cs).latency[g] == LastFor(cs, g).value.latency
    ensures LastFor(cs, g).None? ==>
      && (g in Replay(r, cs).status <==> g in r.status)
      && (g in Replay(r, cs).latency <==> g in r.latency)
      && (g in r.status ==> Replay(r, cs).status[g] == r.status[g])
      && (g in r.latency ==> Replay(r, cs).latency[g] == r.latency[g])
    decreases |cs|
  {
    if cs != [] {
      ReplayGauges(r, cs[..|cs| - 1], g);
    }
  }

  /**
    What the writers keep true of the registry: both gauges exist for the same services,
    the status gauge is 0 or 1, and every counter cell has result UP or DOWN and belongs
    to a service with gauges.
   */
  predicate WellFormed(r: Registry) {
    && r.status.Keys == r.latency.Keys
    && (forall g :: g in r.status ==> r.status[g] == 0.0 || r.status[g] == 1.0)
    && (forall k :: k in r.checks ==> (k.result == UP || k.result == DOWN) && GaugeKey(k.url, k.name) in r.status)
  }

  /** Writing checks keeps the registry well formed. */
  lemma {:induction false} ReplayWellFormed(r: Registry, cs: seq<CheckResult>)
    requires WellFormed(r)
    ensures WellFormed(Replay(r, cs))
    decreases |cs|
  {
    if cs != [] {
      ReplayWellFormed(r, cs[..|cs| - 1]);
      var before := Replay(r, cs[..|cs| - 1]);
      var c := cs[|cs| - 1];
      var after := Observe(before, c);
      forall k | k in after.checks
        ensures (k.result == UP || k.result == DOWN) && GaugeKey(k.url, k.name) in after.status
      {
        if k != c.Counter() {
          assert k in before.checks;
        }
      }
    }
  }

  /** What the text encoder produced: the bytes it wrote and whether it reported an error. */
  datatype Encoding = Encoding(written: seq<byte>, failed: bool)

  /** The process-wide registry of the three families. */
  class Sink {
    var status: map<GaugeKey, real>
    var latency: map<GaugeKey, real>
    var checks: map<CounterKey, nat>

    constructor ()
      ensures Snapshot() == Empty
    {
      status, latency, checks := map[], map[], map[];
    }

    function Snapshot(): Registry
      reads this
    {
      Registry(status, latency, checks)
    }

    /** `SERVICE_LATENCY_SECONDS.with_label_values(..).set(v)`: overwrite one cell. */
    method SetLatency(g: GaugeKey, v: real)
      modifies this
      ensures latency == old(latency)[g := v]
      ensures status == old(status) && checks == old(checks)
    {
      latency := latency[g := v];
    }

    /** `SERVICE_STATUS.with_label_values(..).set(v)`: overwrite one cell. */
    method SetStatus(g: GaugeKey, v: real)
      modifies this
      ensures status == old(status)[g := v]
      ensures latency == old(latency) && checks == old(checks)
    {
      status := status[g := v];
    }

    /** `SERVICE_CHECKS_TOTAL.with_label_values(..).inc()`: add one to a cell, creating it at 0. */
    method IncChecks(k: CounterKey)
      modifies this
      ensures checks == old(checks)[k := Count(old(Snapshot()), k) + 1]
      ensures status == old(status) && latency == old(latency)
    {
      checks := checks[k := Count(Snapshot(), k) + 1];
    }

    /** The three writes every check performs, in the order the writers perform them. */
    method Record(c: CheckResult)
      modifies this
      ensures Snapshot() == Observe(old(Snapshot()), c)
    {
      SetLatency(c.Gauge(), c.latency);
      SetStatus(c.Gauge(), StatusValue(c.up));
      IncChecks(c.Counter());
    }

    /**
      `gather_metrics`: the encoder's output for the current registry, whether or not the
      encoder reported an error; the exposition never fails.
     */
    method Gather(encode: Registry -> Encoding) returns (buffer: seq<byte>)
      ensures buffer == encode(Snapshot()).written
    {
      var outcome := encode(Snapshot());
      buffer := outcome.written;
    }
  }
}
