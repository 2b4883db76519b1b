/**
 Fetching one kind of contract event (spend or sent: the two fetches are
 the same loop) straight from the chain provider, over block ranges whose
 width adapts. The step starts at 1024; each turn queries from `from` to
 `from + step`; a success appends what came back, moves `from` by `step`
 and doubles a step below 1024; a failure or timeout halves the step with
 integer division, so a step of 1 becomes 0, after which nothing moves.

 What a successful query returns is a function of `from` and `step` (a
 `chunk`); whether each attempt succeeds in time is a sequence of booleans,
 which is the loop's fuel. When it runs out before `from` reaches `to`, the
 fetch is `Stuck`.
 */
module RangeScan {
  import opened Wire

  const MaxStep: nat := 1024

  /** Every step the controller can hold: 0 or a power of two up to 1024. */
  predicate ValidStep(step: nat) {
    step in {0, 1, 2, 4, 8, 16, 32, 64, 128, 256, 512, 1024}
  }

  /** The controller's position and range width. */
  datatype Gauge = Gauge(from: nat, step: nat)

  /** The controller after one attempt that succeeded (`ok`) or not. */
  function Adjust(g: Gauge, ok: bool): (r: Gauge)
    ensures ok ==> r.from == g.from + g.step && g.step <= r.step <= 2 * g.step
    ensures !ok ==> r.from == g.from && r.step * 2 <= g.step < r.step * 2 + 2
    ensures g.step == 0 ==> r == g
  {
    if ok then Gauge(g.from + g.step, if g.step < MaxStep then g.step * 2 else g.step)
    else Gauge(g.from, g.step / 2)
  }

  /** A valid step stays valid: a success doubles a step below 1024 and
      keeps 1024; a failure halves it, 1 becoming 0. */
  lemma AdjustKeepsStepValid(g: Gauge, ok: bool)
    requires ValidStep(g.step)
    ensures ValidStep(Adjust(g, ok).step)
    ensures ok ==> Adjust(g, ok).step == if g.step == MaxStep then MaxStep else 2 * g.step
    ensures !ok ==> 2 * Adjust(g, ok).step == g.step || (g.step == 1 && Adjust(g, ok).step == 0) || g.step == 0
  {
  }

  datatype Scan<E> = Scan(gauge: Gauge, events: seq<E>)

  /** The loop left with `events`, `from` having reached `reached`, or the
      attempts ran out while it stood at `at`. */
  datatype Scanned<E> = Finished(events: seq<E>, reached: nat) | Stuck(at: Scan<E>)

  function EventsOf<E>(r: Scanned<E>): seq<E> {
    match r
    case Finished(events, _) => events
    case Stuck(at) => at.events
  }

  function FromOf<E>(r: Scanned<E>): nat {
    match r
    case Finished(_, reached) => reached
    case Stuck(at) => at.gauge.from
  }

  /** The loop `while from < to`, one attempt per element of `timely`. */
  function Sweep<E>(chunk: (nat, nat) -> seq<E>, s: Scan<E>, to: nat, timely: seq<bool>): (r: Scanned<E>)
    ensures r.Finished? ==> r.reached >= to && r.reached >= s.gauge.from
    ensures r.Stuck? ==> s.gauge.from <= r.at.gauge.from < to
    ensures r.Stuck? && ValidStep(s.gauge.step) ==> ValidStep(r.at.gauge.step)
    ensures s.events <= EventsOf(r)
    ensures s.gauge.from >= to ==> r == Finished(s.events, s.gauge.from)
    decreases |timely|
  {
    if s.gauge.from >= to then Finished(s.events, s.gauge.from)
    else if |timely| == 0 then Stuck(s)
    else
      var ok := timely[0];
      var events := if ok then s.events + chunk(s.gauge.from, s.gauge.step) else s.events;
      var r := Sweep(chunk, Scan(Adjust(s.gauge, ok), events), to, timely[1..]);
      PrefixTrans(s.events, events, EventsOf(r));
      if ValidStep(s.gauge.step) then AdjustKeepsStepValid(s.gauge, ok); r else r
  }

  /** Fetches the events of blocks `from` up to `to` through `provider`, the
      provider's query for this event kind; with no provider, nothing. */
  function FetchEvents<E>(provider: Option<(nat, nat) -> seq<E>>, from: nat, to: nat, timely: seq<bool>): (r: Scanned<E>)
    ensures provider.None? ==> r == Finished([], from)
    ensures r.Finished? ==> r.reached >= to || provider.None?
    ensures r.Stuck? ==> ValidStep(r.at.gauge.step) && from <= r.at.gauge.from < to
  {
    match provider
    case None => Finished([], from)
    case Some(chunk) => Sweep(chunk, Scan(Gauge(from, MaxStep), []), to, timely)
  }

  /** The gauges of the attempts that succeeded, in order. */
  function Plan(g: Gauge, to: nat, timely: seq<bool>): seq<Gauge>
    decreases |timely|
  {
    if g.from >= to || |timely| == 0 then []
    else (if timely[0] then [g] else []) + Plan(Adjust(g, timely[0]), to, timely[1..])
  }

  /** What `chunk` returned for each gauge of `plan`, joined in order. */
  function Harvest<E>(chunk: (nat, nat) -> seq<E>, plan: seq<Gauge>): seq<E>
    decreases |plan|
  {
    if |plan| == 0 then [] else chunk(plan[0].from, plan[0].step) + Harvest(chunk, plan[1..])
  }

  /** The events gathered are exactly what the successful queries returned,
      in order, after what the scan started with. */
  lemma {:induction false} SweepHarvests<E>(chunk: (nat, nat) -> seq<E>, s: Scan<E>, to: nat, timely: seq<bool>)
    ensures EventsOf(Sweep(chunk, s, to, timely)) == s.events + Harvest(chunk, Plan(s.gauge, to, timely))
    decreases |timely|
  {
    if s.gauge.from < to && |timely| > 0 {
      var ok := timely[0];
      var g' := Adjust(s.gauge, ok);
      var events := if ok then s.events + chunk(s.gauge.from, s.gauge.step) else s.events;
      SweepHarvests(chunk, Scan(g', events), to, timely[1..]);
      var rest := Plan(g', to, timely[1..]);
      if ok {
        assert ([s.gauge] + rest)[0] == s.gauge;
        assert ([s.gauge] + rest)[1..] == rest;
      } else {
        assert [] + rest == rest;
      }
    }
  }

  /** Every successful attempt used a valid step. */
  lemma {:induction false} PlanStepsValid(g: Gauge, to: nat, timely: seq<bool>)
    requires ValidStep(g.step)
    ensures forall x :: x in Plan(g, to, timely) ==> ValidStep(x.step)
    decreases |timely|
  {
    if g.from < to && |timely| > 0 {
      AdjustKeepsStepValid(g, timely[0]);
      PlanStepsValid(Adjust(g, timely[0]), to, timely[1..]);
    }
  }

  /** The first successful range starts at the starting block: failures
      before it do not move `from`. */
  lemma {:induction false} PlanStarts(g: Gauge, to: nat, timely: seq<bool>)
    ensures |Plan(g, to, timely)| > 0 ==> Plan(g, to, timely)[0].from == g.from
    decreases |timely|
  {
    if g.from < to && |timely| > 0 && !timely[0] {
      PlanStarts(Adjust(g, false), to, timely[1..]);
    }
  }

  /** Successful ranges follow one another: each starts at the previous
      one's `from + step`, the block that range ended on. */
  lemma {:induction false} PlanChains(g: Gauge, to: nat, timely: seq<bool>)
    ensures var p := Plan(g, to, timely);
      forall i :: 0 <= i < |p| - 1 ==> p[i + 1].from == p[i].from + p[i].step
    decreases |timely|
  {
    if g.from < to && |timely| > 0 {
      var ok := timely[0];
      var g' := Adjust(g, ok);
      PlanChains(g', to, timely[1..]);
      var rest := Plan(g', to, timely[1..]);
      var p := Plan(g, to, timely);
      if ok {
        PlanStarts(g', to, timely[1..]);
        assert p == [g] + rest;
        forall i | 0 <= i < |p| - 1
          ensures p[i + 1].from == p[i].from + p[i].step
        {
          assert p[i + 1] == rest[i];
          if i > 0 {
            assert p[i] == rest[i - 1];
          }
        }
      } else {
        assert p == rest;
      }
    }
  }

  /** The loop stops where the last successful range's `from + step` is. */
  lemma {:induction false} PlanEnds<E>(chunk: (nat, nat) -> seq<E>, s: Scan<E>, to: nat, timely: seq<bool>)
    ensures var p := Plan(s.gauge, to, timely);
      FromOf(Sweep(chunk, s, to, timely)) == if |p| == 0 then s.gauge.from else p[|p| - 1].from + p[|p| - 1].step
    decreases |timely|
  {
    var g := s.gauge;
    if g.from < to && |timely| > 0 {
      var ok := timely[0];
      var g' := Adjust(g, ok);
      var events := if ok then s.events + chunk(g.from, g.step) else s.events;
      PlanEnds(chunk, Scan(g', events), to, timely[1..]);
      var rest := Plan(g', to, timely[1..]);
      if ok {
        assert Plan(g, to, timely) == [g] + rest;
      } else {
        assert Plan(g, to, timely) == rest;
      }
    }
  }

  /** Once the step is 0 it stays 0 and `from` never moves again, so the
      loop never finishes however many attempts it is given. */
  lemma {:induction false} StallIsPermanent<E>(chunk: (nat, nat) -> seq<E>, s: Scan<E>, to: nat, timely: seq<bool>)
    requires s.gauge.step == 0 && s.gauge.from < to
    ensures Sweep(chunk, s, to, timely).Stuck?
    ensures Sweep(chunk, s, to, timely).at.gauge == s.gauge
    decreases |timely|
  {
    if |timely| > 0 {
      var ok := timely[0];
      var events := if ok then s.events + chunk(s.gauge.from, s.gauge.step) else s.events;
      StallIsPermanent(chunk, Scan(s.gauge, events), to, timely[1..]);
    }
  }

  /** A success, a timeout on the next 1024 blocks, then a success at half
      the width from the same block. */
  lemma HalvingExample()
    ensures Plan(Gauge(0, 1024), 4096, [true, false, true]) == [Gauge(0, 1024), Gauge(1024, 512)]
  {
    var t := [true, false, true];
    assert t[1..] == [false, true];
    assert t[1..][1..] == [true];
    assert [true][1..] == [];
    assert Plan(Gauge(1536, 1024), 4096, []) == [];
    assert Plan(Gauge(1024, 512), 4096, [true]) == [Gauge(1024, 512)];
    assert Plan(Gauge(1024, 1024), 4096, [false, true]) == [Gauge(1024, 512)];
  }

  /** Events emitted in blocks `lo` up to but not including `hi`, block by
      block, given the events of each block. */
  function Blocks<E>(chain: nat -> seq<E>, lo: nat, hi: nat): seq<E>
    decreases if hi > lo then hi - lo else 0
  {
    if hi <= lo then [] else chain(lo) + Blocks(chain, lo + 1, hi)
  }

  lemma {:induction false} BlocksSplit<E>(chain: nat -> seq<E>, lo: nat, mid: nat, hi: nat)
    requires lo <= mid <= hi
    ensures Blocks(chain, lo, mid) + Blocks(chain, mid, hi) == Blocks(chain, lo, hi)
    decreases mid - lo
  {
    if lo < mid {
      BlocksSplit(chain, lo + 1, mid, hi);
    }
  }

  /** The provider's query as the source issues it: both `from` and
      `from + step` are included. */
  function InclusiveQuery<E>(chain: nat -> seq<E>): (nat, nat) -> seq<E> {
    (from: nat, step: nat) => Blocks(chain, from, from + step + 1)
  }

  /** The query that leaves the last block to the next range. */
  function HalfOpenQuery<E>(chain: nat -> seq<E>): (nat, nat) -> seq<E> {
    (from: nat, step: nat) => Blocks(chain, from, from + step)
  }

  /** With half-open ranges the fetch gathers every block from the start to
      where it stopped exactly once, in block order. */
  lemma {:induction false} HalfOpenSweepIsExact<E>(chain: nat -> seq<E>, s: Scan<E>, to: nat, timely: seq<bool>)
    ensures var r := Sweep(HalfOpenQuery(chain), s, to, timely);
      EventsOf(r) == s.events + Blocks(chain, s.gauge.from, FromOf(r))
    decreases |timely|
  {
    var chunk := HalfOpenQuery(chain);
    if s.gauge.from >= to || |timely| == 0 {
      assert Blocks(chain, s.gauge.from, s.gauge.from) == [];
    } else {
      var ok := timely[0];
      var g := s.gauge;
      var g' := Adjust(g, ok);
      var events := if ok then s.events + chunk(g.from, g.step) else s.events;
      var r := Sweep(chunk, Scan(g', events), to, timely[1..]);
      HalfOpenSweepIsExact(chain, Scan(g', events), to, timely[1..]);
      assert Sweep(chunk, s, to, timely) == r;
      assert g'.from <= FromOf(r);
      BlocksSplit(chain, g.from, g'.from, FromOf(r));
      if ok {
        assert chunk(g.from, g.step) == Blocks(chain, g.from, g'.from);
      } else {
        assert Blocks(chain, g.from, g'.from) == [];
      }
    }
  }

  /** A chain with the single event `e`, in block `b`. */
  function OneEvent<E>(e: E, b: nat): nat -> seq<E> {
    (n: nat) => if n == b then [e] else []
  }

  lemma {:induction false} BlocksOfOneEvent<E>(e: E, b: nat, lo: nat, hi: nat)
    ensures Blocks(OneEvent(e, b), lo, hi) == if lo <= b < hi then [e] else []
    decreases if hi > lo then hi - lo else 0
  {
    if lo < hi {
      BlocksOfOneEvent(e, b, lo + 1, hi);
    }
  }

  /** As the source queries, an event in block 1024 is fetched twice from
      blocks 0 to 2048: once by the range ending at 1024 and once by the
      range starting there. */
  lemma InclusiveSweepRepeatsBoundary<E>(e: E)
    ensures Sweep(InclusiveQuery(OneEvent(e, MaxStep)), Scan(Gauge(0, MaxStep), []), 2 * MaxStep, [true, true]) ==
      Finished([e, e], 2 * MaxStep)
  {
    var b := MaxStep;
    var chunk := InclusiveQuery(OneEvent(e, b));
    BlocksOfOneEvent(e, b, 0, b + 1);
    BlocksOfOneEvent(e, b, b, 2 * b + 1);
    assert chunk(0, b) == [e];
    assert chunk(b, b) == [e];
    TwoSuccesses(chunk);
  }

  /** With half-open ranges the same event is fetched once. */
  lemma HalfOpenSweepFetchesOnce<E>(e: E)
    ensures Sweep(HalfOpenQuery(OneEvent(e, MaxStep)), Scan(Gauge(0, MaxStep), []), 2 * MaxStep, [true, true]) ==
      Finished([e], 2 * MaxStep)
  {
    var b := MaxStep;
    var chunk := HalfOpenQuery(OneEvent(e, b));
    BlocksOfOneEvent(e, b, 0, b);
    BlocksOfOneEvent(e, b, b, 2 * b);
    assert chunk(0, b) == [];
    assert chunk(b, b) == [e];
    TwoSuccesses(chunk);
  }

  /** Two successful full-width attempts from block 0 cover `[0, 2048]`. */
  lemma TwoSuccesses<E>(chunk: (nat, nat) -> seq<E>)
    ensures Sweep(chunk, Scan(Gauge(0, MaxStep), []), 2 * MaxStep, [true, true]) ==
      Finished(chunk(0, MaxStep) + chunk(MaxStep, MaxStep), 2 * MaxStep)
  {
    var b, to := MaxStep, 2 * MaxStep;
    assert Adjust(Gauge(0, b), true) == Gauge(b, b);
    assert Adjust(Gauge(b, b), true) == Gauge(to, b);
    assert [true, true][1..] == [true];
    assert [true][1..] == [];
    assert Sweep(chunk, Scan(Gauge(to, b), chunk(0, b) + chunk(b, b)), to, []) == Finished(chunk(0, b) + chunk(b, b), to);
    assert [] + chunk(0, b) == chunk(0, b);
  }
}
