/** Progress and speed of an import, as reported once a second. Metrics are reals. */
module Progress {

  /** What a tick finds: bytes read so far, whether the reader is done, whether the gauge can be read. */
  datatype Tick = Tick(current: nat, done: bool, readable: bool)

  const EMIT_SECONDS: real := 1.0

  function Percent(total: nat, t: Tick): real
    requires total > 0
  {
    if !t.done && t.current < total then t.current as real / total as real * 100.0 else 100.0
  }

  function Transmitted(total: nat, t: Tick): nat {
    if !t.done && t.current < total then t.current else total
  }

  /** A reader only goes on, and done stays done. */
  predicate Orderly(ticks: seq<Tick>) {
    forall i, j :: 0 <= i < j < |ticks| ==>
      ticks[i].current <= ticks[j].current && (ticks[i].done ==> ticks[j].done)
  }

  lemma PercentIsBounded(total: nat, t: Tick)
    requires total > 0
    ensures 0.0 <= Percent(total, t) <= 100.0
    ensures Percent(total, t) == 100.0 <==> t.done || t.current >= total
    ensures !t.done && t.current <= total ==> Percent(total, t) * total as real == 100.0 * t.current as real
  {
    if !t.done && t.current < total {
      var q := t.current as real / total as real;
      assert q * total as real == t.current as real;
      assert 0.0 <= q < 1.0;
    }
  }

  class ProgressReader {
    const total: nat
    var gauge: real

    constructor (total: nat, gauge: real)
      ensures this.total == total && this.gauge == gauge
    {
      this.total := total;
      this.gauge := gauge;
    }

    /** One update: the gauge is raised to the percentage, never lowered. */
    method UpdateProgress(t: Tick) returns (again: bool)
      modifies this
      ensures again <==> total > 0 && !(t.readable && t.done)
      ensures gauge == if total > 0 && t.readable && Percent(total, t) > old(gauge) then Percent(total, t) else old(gauge)
    {
      if total > 0 {
        var finished := t.done;
        var current := 100.0;
        if !finished && t.current < total {
          current := t.current as real / total as real * 100.0;
        }
        if !t.readable {
          return true;
        }
        var progress := gauge;
        if current > progress {
          gauge := gauge + (current - progress);
        }
        return !finished;
      }
      return false;
    }
  }

  /** `g` is the greatest of the start value and the percentages of the ticks that can read it. */
  predicate IsGreatest(total: nat, start: real, ticks: seq<Tick>, g: real)
    requires total > 0
  {
    && start <= g && (forall i :: 0 <= i < |ticks| && ticks[i].readable ==> Percent(total, ticks[i]) <= g)
    && (g == start || exists i :: 0 <= i < |ticks| && ticks[i].readable && Percent(total, ticks[i]) == g)
  }

  lemma GreatestExtends(total: nat, start: real, ticks: seq<Tick>, t: Tick, g: real)
    requires total > 0 && IsGreatest(total, start, ticks, g)
    ensures IsGreatest(total, start, ticks + [t], if t.readable && Percent(total, t) > g then Percent(total, t) else g)
  {
    var all := ticks + [t];
    assert all[|ticks|] == t;
    if g != start {
      var i :| 0 <= i < |ticks| && ticks[i].readable && Percent(total, ticks[i]) == g;
      assert all[i] == ticks[i];
    }
  }

  /**
    Any run of updates, up to the first one that can read the gauge and finds the reader
    done: the gauge ends as the greatest percentage seen or the value it started with, and at
    exactly 100 if the run came to the end from at most that.
  */
  method ReportProgress(r: ProgressReader, ticks: seq<Tick>) returns (used: nat)
    requires r.total > 0
    modifies r
    ensures used <= |ticks| && IsGreatest(r.total, old(r.gauge), ticks[..used], r.gauge)
    ensures forall i :: 0 <= i < used - 1 ==> !(ticks[i].readable && ticks[i].done)
    ensures used < |ticks| ==> used > 0 && ticks[used - 1].readable && ticks[used - 1].done
    ensures old(r.gauge) <= r.gauge && (old(r.gauge) <= 100.0 ==> r.gauge <= 100.0)
    ensures used > 0 && ticks[used - 1].readable && ticks[used - 1].done && old(r.gauge) <= 100.0 ==> r.gauge == 100.0
  {
    used := 0;
    while used < |ticks|
      invariant 0 <= used <= |ticks| && IsGreatest(r.total, old(r.gauge), ticks[..used], r.gauge)
      invariant forall i :: 0 <= i < used ==> !(ticks[i].readable && ticks[i].done)
      invariant old(r.gauge) <= 100.0 ==> r.gauge <= 100.0
    {
      PercentIsBounded(r.total, ticks[used]);
      GreatestExtends(r.total, old(r.gauge), ticks[..used], ticks[used], r.gauge);
      assert ticks[..used] + [ticks[used]] == ticks[..used + 1];
      var again := r.UpdateProgress(ticks[used]);
      used := used + 1;
      if !again {
        return;
      }
    }
  }

  class ProgressMeter {
    const total: nat
    var prevTransmitted: real
    var avgSpeed: real
    var curSpeed: real

    constructor (total: nat)
      ensures this.total == total && prevTransmitted == 0.0
    {
      this.total := total;
      prevTransmitted, avgSpeed, curSpeed := 0.0, 0.0, 0.0;
    }

    method UpdateSpeed(t: Tick, passedSeconds: real) returns (again: bool)
      requires passedSeconds > 0.0
      modifies this
      ensures again <==> total > 0 && !t.done
      ensures total > 0 ==>
                && prevTransmitted == Transmitted(total, t) as real
                && curSpeed == prevTransmitted - old(prevTransmitted)
                && avgSpeed * passedSeconds == prevTransmitted
      ensures total == 0 ==> unchanged(this)
    {
      if total <= 0 {
        return false;
      }
      var transmitted := total as real;
      if !t.done && t.current < total {
        transmitted := t.current as real;
      }
      avgSpeed := transmitted / passedSeconds;
      var diff := transmitted - prevTransmitted;
      prevTransmitted := transmitted;
      curSpeed := diff / EMIT_SECONDS;
      return !t.done;
    }
  }

  function Sum(xs: seq<real>): real {
    if xs == [] then 0.0 else Sum(xs[..|xs| - 1]) + xs[|xs| - 1]
  }

  /**
    Any orderly run of speed updates: no sample is negative, and together, over the time
    they stand for, they account for every byte transmitted.
  */
  method ReportSpeed(m: ProgressMeter, ticks: seq<Tick>, passed: seq<real>) returns (samples: seq<real>)
    requires m.total > 0 && m.prevTransmitted == 0.0 && Orderly(ticks)
    requires |passed| == |ticks| && forall i :: 0 <= i < |passed| ==> passed[i] > 0.0
    modifies m
    ensures |samples| <= |ticks|
    ensures forall i :: 0 <= i < |samples| ==> samples[i] >= 0.0
    ensures samples != [] ==>
              Sum(samples) == Transmitted(m.total, ticks[|samples| - 1]) as real
    ensures |samples| < |ticks| ==> samples != [] && Sum(samples) == m.total as real
  {
    samples := [];
    for i := 0 to |ticks|
      invariant |samples| == i && forall k :: 0 <= k < i ==> samples[k] >= 0.0
      invariant m.prevTransmitted == if i == 0 then 0.0 else Transmitted(m.total, ticks[i - 1]) as real
      invariant Sum(samples) == m.prevTransmitted
    {
      var again := m.UpdateSpeed(ticks[i], passed[i]);
      assert (samples + [m.curSpeed])[..i] == samples;
      samples := samples + [m.curSpeed];
      if !again {
        return;
      }
    }
  }
}
