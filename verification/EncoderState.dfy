/**
 The single-channel wheel encoder: a bounded history of accepted edge times, an edge-rate estimate
 that decays while pulses stay away, and a direction that is latched only when pulses resume after
 a confirmed stop. Times are integer nanoseconds.
 */
module EncoderState {
  import opened Options
  import opened Numbers

  const MAX_LOOKBACK_NS: int := 500_000_000
  const MIN_EDGE_INTERVAL_NS: int := 100_000
  const MAX_SIZE: int := 0x7FFF_FFFF_FFFF_FFFF

  datatype Measurement = Measurement(edgeRate: real, stationary: bool, activeDirection: int, pendingDirection: int)

  /** Consecutive accepted edges of one epoch: debounced, and closer than the stop timeout. */
  ghost predicate Debounced(edges: seq<int>) {
    forall i :: 0 <= i < |edges| - 1 ==> edges[i] + MIN_EDGE_INTERVAL_NS <= edges[i + 1]
  }

  ghost predicate NoStopInside(edges: seq<int>, timeout: int) {
    forall i :: 0 <= i < |edges| - 1 ==> edges[i + 1] - edges[i] < timeout
  }

  /** The history is the tail of the epoch, no longer than its bound and never empty while the epoch is not. */
  ghost predicate Tail(history: seq<int>, epoch: seq<int>, depth: nat) {
    && |history| <= depth + 1 && |history| <= |epoch|
    && (forall i :: 0 <= i < |history| ==> history[i] == epoch[|epoch| - |history| + i])
    && (epoch != [] ==> history != [])
  }

  ghost predicate EpochOk(epoch: seq<int>, timeout: int) {
    Debounced(epoch) && NoStopInside(epoch, timeout)
  }

  ghost predicate EndsAt(epoch: seq<int>, last: Option<int>) {
    epoch != [] ==> last == Some(epoch[|epoch| - 1])
  }

  lemma ExtendEpoch(epoch: seq<int>, timeout: int, last: Option<int>, now: int)
    requires EpochOk(epoch, timeout) && EndsAt(epoch, last)
    requires epoch != [] ==> last.Some? && last.value + MIN_EDGE_INTERVAL_NS <= now && now - last.value < timeout
    ensures EpochOk(epoch + [now], timeout) && EndsAt(epoch + [now], Some(now))
  {
    var e := epoch + [now];
    forall i | 0 <= i < |e| - 1
      ensures e[i] + MIN_EDGE_INTERVAL_NS <= e[i + 1] && e[i + 1] - e[i] < timeout
    {
      if i < |epoch| - 1 {
        assert epoch[i] + MIN_EDGE_INTERVAL_NS <= epoch[i + 1] && epoch[i + 1] - epoch[i] < timeout;
      }
    }
  }

  lemma ExtendTail(history: seq<int>, epoch: seq<int>, depth: nat, now: int)
    requires Tail(history, epoch, depth) && depth >= 1
    ensures Tail(Appended(history, now, depth), epoch + [now], depth)
  {
    var h, e := Appended(history, now, depth), epoch + [now];
    var k := |epoch| - |history|;
    forall i | 0 <= i < |h|
      ensures h[i] == e[|e| - |h| + i]
    {
      if i < |h| - 1 {
        if |history| > depth {
          assert h[i] == history[i + 1] == epoch[k + (i + 1)];
        } else {
          assert h[i] == history[i] == epoch[k + i];
        }
      }
    }
  }

  /** Appending to a deque bounded to `depth + 1` entries. */
  function Appended(history: seq<int>, now: int, depth: nat): (h: seq<int>)
    ensures h != [] && h[|h| - 1] == now
  {
    if |history| > depth then history[1..] + [now] else history + [now]
  }

  lemma DropOldest(history: seq<int>, epoch: seq<int>, depth: nat)
    requires Tail(history, epoch, depth) && |history| > 1
    ensures Tail(history[1..], epoch, depth)
  {
  }

  lemma {:induction false} SpanAtLeast(edges: seq<int>)
    requires Debounced(edges) && |edges| >= 1
    ensures edges[|edges| - 1] - edges[0] >= (|edges| - 1) * MIN_EDGE_INTERVAL_NS
  {
    if |edges| > 1 {
      SpanAtLeast(edges[..|edges| - 1]);
      var k := |edges| - 2;
      assert edges[k] + MIN_EDGE_INTERVAL_NS <= edges[k + 1];
    }
  }

  /** The rate over the retained intervals, lowered while the time since the last edge exceeds the last interval. */
  function Rate(edges: seq<int>, now: int): real
    requires |edges| >= 2 && edges[|edges| - 1] > edges[0]
  {
    var last := edges[|edges| - 1];
    var rate := (|edges| - 1) as real * 1000000000.0 / (last - edges[0]) as real;
    var since := now - last;
    if since > last - edges[|edges| - 2] && since > 0 then
      var decayed := 1000000000.0 / since as real;
      if decayed < rate then decayed else rate
    else rate
  }

  /** Edges a constant gap apart, the newest no longer ago than the gap: the estimate is the reciprocal of the gap. */
  lemma SteadyRate(edges: seq<int>, now: int, gap: int)
    requires |edges| >= 2 && gap > 0 && now - edges[|edges| - 1] <= gap
    requires forall i :: 0 <= i < |edges| - 1 ==> edges[i] + gap == edges[i + 1]
    ensures edges[|edges| - 1] > edges[0] && Rate(edges, now) == 1000000000.0 / gap as real
  {
    var n := |edges| - 1;
    SteadySpan(edges, gap);
    assert edges[|edges| - 2] + gap == edges[|edges| - 1];
    Cancel(n, gap);
  }

  lemma {:induction false} SteadySpan(edges: seq<int>, gap: int)
    requires |edges| >= 2 && gap > 0 && forall i :: 0 <= i < |edges| - 1 ==> edges[i] + gap == edges[i + 1]
    ensures edges[|edges| - 1] - edges[0] == (|edges| - 1) * gap > 0
  {
    var k := |edges| - 2;
    assert edges[k] + gap == edges[k + 1];
    if |edges| > 2 {
      SteadySpan(edges[..|edges| - 1], gap);
    }
  }

  lemma Cancel(n: int, gap: int)
    requires n > 0 && gap > 0
    ensures (n * gap) as real != 0.0 && n as real * 1000000000.0 / (n * gap) as real == 1000000000.0 / gap as real
  {
    var q := 1000000000.0 / gap as real;
    assert q * gap as real == 1000000000.0;
    assert (n * gap) as real == n as real * gap as real;
    assert n as real * (q * gap as real) == q * (n * gap) as real;
    assert n as real * 1000000000.0 == q * (n * gap) as real;
  }

  /** The estimate is the average over the retained gaps, or one edge per time since the last, whichever is less once that time exceeds the last gap. */
  lemma RateIs(edges: seq<int>, now: int)
    requires |edges| >= 2 && edges[|edges| - 1] > edges[0]
    ensures var last, average := edges[|edges| - 1], (|edges| - 1) as real * 1000000000.0 / (edges[|edges| - 1] - edges[0]) as real;
            && (now - last <= last - edges[|edges| - 2] ==> Rate(edges, now) == average)
            && (now - last > last - edges[|edges| - 2] && now > last ==>
                  Rate(edges, now) <= 1000000000.0 / (now - last) as real && Rate(edges, now) <= average &&
                  (Rate(edges, now) == 1000000000.0 / (now - last) as real || Rate(edges, now) == average))
  {
  }

  lemma Quotient(a: real, b: real, lo: real, hi: real)
    requires b > 0.0 && lo * b <= a <= hi * b
    ensures lo <= a / b <= hi
  {
    var q := a / b;
    assert q * b == a;
    if q < lo {
      Below(q, lo, b);
    }
    if q > hi {
      Below(hi, q, b);
    }
  }

  lemma Below(a: real, b: real, c: real)
    requires a < b && c > 0.0
    ensures a * c < b * c
  {
    assert (b - a) * c > 0.0;
  }

  /** Within the lookback window every estimate lies between 2 and 10000 edges per second. */
  lemma RateBounded(edges: seq<int>, now: int)
    requires Debounced(edges) && |edges| >= 2 && edges[0] >= now - MAX_LOOKBACK_NS && now >= edges[|edges| - 1]
    ensures edges[|edges| - 1] > edges[0] && 2.0 <= Rate(edges, now) <= 10000.0
  {
    SpanAtLeast(edges);
    var n, span := |edges| - 1, edges[|edges| - 1] - edges[0];
    var a := n as real * 1000000000.0;
    assert 100000 * n <= span <= 500000000;
    assert 10000.0 * span as real >= a;
    Quotient(a, span as real, 2.0, 10000.0);
    var since := now - edges[|edges| - 1];
    if since > edges[|edges| - 1] - edges[|edges| - 2] {
      assert edges[|edges| - 2] + MIN_EDGE_INTERVAL_NS <= edges[|edges| - 1];
      Quotient(1000000000.0, since as real, 2.0, 10000.0);
    }
  }

  class Encoder {
    const timeout: int
    const depth: nat
    var history: seq<int>
    var last: Option<int>
    var stationary: bool
    var activeDirection: int
    var latestDirection: int
    /** The accepted edges since pulses last resumed; empty while a stop is confirmed. */
    ghost var epoch: seq<int>

    ghost predicate Valid()
      reads this
    {
      && timeout > 0 && depth >= 1
      && Tail(history, epoch, depth) && EpochOk(epoch, timeout)
      && (stationary ==> epoch == [])
      && EndsAt(epoch, last)
      && -1 <= activeDirection <= 1 && -1 <= latestDirection <= 1
    }

    constructor Make(timeout: int, depth: nat)
      requires timeout > 0 && depth >= 1
      ensures Valid() && this.timeout == timeout && this.depth == depth && stationary && last == None
    {
      this.timeout, this.depth := timeout, depth;
      history, last, stationary, activeDirection, latestDirection := [], None, true, 0, 0;
      epoch := [];
    }

    /** Null stands for the ValueError raised on an unusable timeout or depth. */
    static method Create(timeoutSec: Num, depth: int) returns (e: Encoder?)
      ensures e == null <==> timeoutSec.NonFinite? || timeoutSec.r <= 0.0 || (timeoutSec.r * 1000000000.0).Floor <= 0 || depth < 1 || depth >= MAX_SIZE
      ensures e != null ==> fresh(e) && e.Valid() && e.timeout == (timeoutSec.r * 1000000000.0).Floor && e.depth == depth
    {
      if timeoutSec.NonFinite? || timeoutSec.r <= 0.0 {
        return null;
      }
      var timeout := (timeoutSec.r * 1000000000.0).Floor;
      if timeout <= 0 {
        return null;
      }
      if depth < 1 || depth >= MAX_SIZE {
        return null;
      }
      e := new Encoder.Make(timeout, depth);
    }

    method UpdateDirection(direction: int) returns (accepted: bool)
      requires Valid()
      modifies this`latestDirection
      ensures Valid() && (accepted <==> -1 <= direction <= 1)
      ensures latestDirection == if direction == -1 || direction == 1 then direction else old(latestDirection)
    {
      if direction != -1 && direction != 0 && direction != 1 {
        return false;
      }
      if direction == 0 {
        return true;
      }
      latestDirection := direction;
      return true;
    }

    /** Drops entries older than the lookback window, but never the newest. */
    method PruneHistory(reference: int)
      requires Valid()
      modifies this`history
      ensures Valid() && |history| <= |old(history)| && history == old(history)[|old(history)| - |history|..]
      ensures |history| <= 1 || history[0] >= reference - MAX_LOOKBACK_NS
      ensures forall i :: 0 <= i < |old(history)| - |history| ==> old(history)[i] < reference - MAX_LOOKBACK_NS
      ensures old(history) != [] ==> history != [] && history[|history| - 1] == old(history)[|old(history)| - 1]
    {
      hide Tail, EpochOk;
      while |history| > 1 && history[0] < reference - MAX_LOOKBACK_NS
        invariant Valid() && |history| <= |old(history)| && history == old(history)[|old(history)| - |history|..]
        invariant forall i :: 0 <= i < |old(history)| - |history| ==> old(history)[i] < reference - MAX_LOOKBACK_NS
        invariant old(history) != [] ==> history != []
        decreases |history|
      {
        DropOldest(history, epoch, depth);
        assert history[0] == old(history)[|old(history)| - |history|];
        history := history[1..];
      }
    }

    /**
     An edge. One that comes too soon is ignored; one after a confirmed stop starts a new epoch and
     latches the pending direction; any other extends the epoch and leaves the direction alone.
     */
    method RecordEdge(now: int)
      requires Valid()
      modifies this`history, this`last, this`stationary, this`activeDirection, this`epoch
      ensures Valid()
      ensures old(Ignores(now)) ==>
                history == old(history) && last == old(last) && stationary == old(stationary) && activeDirection == old(activeDirection) && epoch == old(epoch)
      ensures !old(Ignores(now)) ==> last == Some(now) && !stationary && history != [] && history[|history| - 1] == now
      ensures !old(Ignores(now)) && old(Resumes(now)) ==> epoch == [now] && activeDirection == latestDirection
      ensures !old(Ignores(now)) && !old(Resumes(now)) ==> epoch == old(epoch) + [now] && activeDirection == old(activeDirection)
    {
      hide EpochOk, Tail, EndsAt;
      if last.Some? && now - last.value < MIN_EDGE_INTERVAL_NS {
        return;
      }
      var pulseGapConfirmedStop := last.None? || now - last.value >= timeout;
      if stationary || pulseGapConfirmedStop {
        EmptyHistory(depth, timeout);
        activeDirection := latestDirection;
        history := [];
        epoch := [];
      }
      AppendEdge(now);
    }

    /** The edge comes within the debounce interval of the last accepted one. */
    predicate Ignores(now: int)
      reads this
    {
      last.Some? && now - last.value < MIN_EDGE_INTERVAL_NS
    }

    /** A stop was confirmed before this edge, by a measurement or by the gap itself. */
    predicate Resumes(now: int)
      reads this
    {
      stationary || last.None? || now - last.value >= timeout
    }

    method AppendEdge(now: int)
      requires timeout > 0 && depth >= 1 && Tail(history, epoch, depth) && EpochOk(epoch, timeout) && EndsAt(epoch, last)
      requires -1 <= activeDirection <= 1 && -1 <= latestDirection <= 1
      requires epoch != [] ==> last.Some? && last.value + MIN_EDGE_INTERVAL_NS <= now && now - last.value < timeout
      modifies this`history, this`last, this`stationary, this`epoch
      ensures Valid() && last == Some(now) && !stationary && epoch == old(epoch) + [now]
      ensures history != [] && history[|history| - 1] == now
    {
      hide EpochOk, EndsAt, Tail, Appended;
      ExtendEpoch(epoch, timeout, last, now);
      ExtendTail(history, epoch, depth, now);
      stationary := false;
      last := Some(now);
      history := Appended(history, now, depth);
      epoch := epoch + [now];
      PruneHistory(now);
    }

    /** One coherent snapshot; a clock that runs backwards or a long enough silence confirms a stop. */
    method TakeMeasurement(now: int) returns (m: Measurement)
      requires Valid()
      modifies this`history, this`last, this`stationary, this`epoch
      ensures Valid()
      ensures m.stationary == stationary && m.activeDirection == activeDirection && m.pendingDirection == latestDirection
      ensures stationary <==> old(last).None? || now < old(last).value || now - old(last).value >= timeout
      ensures last == if old(last).Some? && now < old(last).value then None else old(last)
      ensures if stationary then history == [] && epoch == [] && m.edgeRate == 0.0 else epoch == old(epoch)
      ensures |history| < 2 ==> m.edgeRate == 0.0
      ensures |history| >= 2 ==>
                && history[0] >= now - MAX_LOOKBACK_NS && history[|history| - 1] > history[0]
                && m.edgeRate == Rate(history, now) && 2.0 <= m.edgeRate <= 10000.0
    {
      hide EpochOk, Tail, Rate;
      EmptyHistory(depth, timeout);
      if last.Some? && now < last.value {
        last := None;
        history := [];
        stationary := true;
        epoch := [];
      }
      stationary := last.None? || now - last.value >= timeout;
      var edgeRate := 0.0;
      if stationary {
        history := [];
        epoch := [];
      } else {
        PruneHistory(now);
        if |history| >= 2 {
          HistoryDebounced(history, epoch, depth, timeout);
          RateBounded(history, now);
          edgeRate := Rate(history, now);
        }
      }
      return Measurement(edgeRate, stationary, activeDirection, latestDirection);
    }
  }

  lemma EmptyHistory(depth: nat, timeout: int)
    ensures Tail([], [], depth) && EpochOk([], timeout) && forall last :: EndsAt([], last)
  {
  }

  lemma HistoryDebounced(history: seq<int>, epoch: seq<int>, depth: nat, timeout: int)
    requires Tail(history, epoch, depth) && EpochOk(epoch, timeout) && history != []
    ensures Debounced(history) && epoch != [] && history[|history| - 1] == epoch[|epoch| - 1]
  {
    var k := |epoch| - |history|;
    forall i | 0 <= i < |history| - 1
      ensures history[i] + MIN_EDGE_INTERVAL_NS <= history[i + 1]
    {
      assert epoch[k + i] + MIN_EDGE_INTERVAL_NS <= epoch[k + i + 1];
    }
  }
}
