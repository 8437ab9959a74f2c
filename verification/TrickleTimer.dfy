// The Trickle timer in ticks: rules 1 to 5 of section 4.2 of RFC 6206.
module TrickleTimers {
  import opened Basics

  const WORD: nat := 0x1_0000_0000

  // k is the redundancy constant; imin and imax bound the interval.
  datatype Params = Params(k: nat, imin: nat, imax: nat) {
    ghost predicate Valid() {
      1 <= k && 1 <= imin <= imax
    }
  }

  datatype Timer = Timer(interval: nat, elapsed: nat, tx: nat, heard: nat, decided: bool)

  // The draws are the random words behind the choice of the transmission tick.
  datatype Event = Tick(draw: nat) | Consistent | NewInformation(draw: nat)

  datatype Action = Wait | Transmit | Suppress

  // The guard against a start outside the interval never applies: an interval has a tick.
  function Start(interval: nat): nat {
    interval / 2
  }

  function Choose(interval: nat, draw: nat): (tx: nat)
    requires interval >= 1
    ensures interval / 2 <= tx < interval
  {
    Start(interval) + draw % (interval - Start(interval))
  }

  // Every tick of the second half of the interval is the choice of some draw.
  lemma EveryTickIsDrawn(interval: nat, tx: nat)
    requires interval / 2 <= tx < interval
    ensures exists draw :: Choose(interval, draw) == tx
  {
    SmallModulo(tx - Start(interval), interval - Start(interval));
    assert Choose(interval, tx - Start(interval)) == tx;
  }

  lemma SmallModulo(x: nat, d: nat)
    requires x < d
    ensures x % d == x
  {
  }

  function Longer(p: Params, interval: nat): nat {
    if interval < p.imax then Min(p.imax, interval * 2) else interval
  }

  function Begin(interval: nat, draw: nat): Timer
    requires interval >= 1
  {
    Timer(interval, 0, Choose(interval, draw), 0, false)
  }

  ghost predicate Ok(p: Params, t: Timer) {
    && p.Valid() && p.imin <= t.interval <= p.imax
    && t.elapsed < t.interval && t.interval / 2 <= t.tx < t.interval
    && t.heard < WORD
    && (t.decided <==> t.elapsed > t.tx)
  }

  // ---------------------------------------------------------------- one event

  function ActionOf(p: Params, t: Timer, e: Event): Action {
    if e.Tick? && !t.decided && t.elapsed == t.tx then
      if t.heard < p.k then Transmit else Suppress
    else Wait
  }

  function Next(p: Params, t: Timer, e: Event): (t': Timer)
    requires Ok(p, t)
    ensures Ok(p, t')
  {
    match e
    case Consistent => t.(heard := (t.heard + 1) % WORD)
    case NewInformation(draw) => Begin(p.imin, draw)
    case Tick(draw) =>
      if t.elapsed + 1 >= t.interval then Begin(Longer(p, t.interval), draw)
      else t.(elapsed := t.elapsed + 1, decided := t.decided || t.elapsed == t.tx)
  }

  class TrickleController {
    const p: Params
    var interval: nat
    var elapsed: nat
    var tx: nat
    var heard: nat
    var decided: bool

    ghost function Value(): Timer
      reads this
    {
      Timer(interval, elapsed, tx, heard, decided)
    }

    ghost predicate Valid()
      reads this
    {
      Ok(p, Value())
    }

    constructor (k: nat, imin: nat, imax: nat, draw: nat)
      ensures Valid()
      ensures p.imin == (if imin == 0 then 1 else imin) && p.k == (if k == 0 then 1 else k)
      ensures p.imax == if imax < p.imin then p.imin else imax
      ensures Value() == Begin(p.imin, draw)
    {
      var low := if imin == 0 then 1 else imin;
      p := Params(if k == 0 then 1 else k, low, if imax < low then low else imax);
      interval := low;
      elapsed, heard, decided := 0, 0, false;
      tx := Choose(low, draw);
    }

    method ChooseTx(draw: nat)
      requires interval >= 1
      modifies this`tx
      ensures tx == Choose(interval, draw)
    {
      var start := interval / 2;
      if start >= interval {
        start := interval - 1;
      }
      tx := start + draw % (interval - start);
    }

    method Reset(draw: nat)
      requires p.Valid()
      modifies this
      ensures Value() == Begin(p.imin, draw)
    {
      interval := p.imin;
      elapsed := 0;
      heard := 0;
      decided := false;
      ChooseTx(draw);
    }

    method Advance(draw: nat)
      requires p.Valid() && interval >= 1
      modifies this
      ensures Value() == Begin(Longer(p, old(interval)), draw)
    {
      if interval < p.imax {
        var doubled := interval * 2;
        interval := if p.imax < doubled then p.imax else doubled;
      }
      elapsed := 0;
      heard := 0;
      decided := false;
      ChooseTx(draw);
    }

    method DoTick(draw: nat) returns (action: Action)
      requires Valid()
      modifies this
      ensures Valid() && Value() == Next(p, old(Value()), Tick(draw))
      ensures action == ActionOf(p, old(Value()), Tick(draw))
    {
      action := Wait;
      if !decided && elapsed == tx {
        decided := true;
        action := if heard < p.k then Transmit else Suppress;
      }
      elapsed := elapsed + 1;
      if elapsed >= interval {
        Advance(draw);
      }
    }

    method NoteConsistentSummary()
      requires Valid()
      modifies this`heard
      ensures Valid() && Value() == Next(p, old(Value()), Consistent)
      ensures heard == if old(heard) == 0xFFFF_FFFF then 0 else old(heard) + 1
    {
      heard := (heard + 1) % WORD;
    }

    method NoteNewInformation(draw: nat)
      requires Valid()
      modifies this
      ensures Valid() && Value() == Next(p, old(Value()), NewInformation(draw))
      ensures Fresh(p, Value()) && !decided && interval == p.imin
    {
      Reset(draw);
    }
  }

  // ---------------------------------------------------------------- runs

  function After(p: Params, t: Timer, es: seq<Event>): (t': Timer)
    requires Ok(p, t)
    ensures Ok(p, t')
  {
    if es == [] then t else Next(p, After(p, t, es[..|es| - 1]), es[|es| - 1])
  }

  // What the timer does at the n-th event.
  function At(p: Params, t: Timer, es: seq<Event>, n: nat): Action
    requires Ok(p, t) && n < |es|
  {
    ActionOf(p, After(p, t, es[..n]), es[n])
  }

  function Ticks(es: seq<Event>): (n: nat)
    ensures n <= |es|
  {
    if es == [] then 0 else Ticks(es[..|es| - 1]) + if es[|es| - 1].Tick? then 1 else 0
  }

  function Noted(es: seq<Event>): nat {
    if es == [] then 0 else Noted(es[..|es| - 1]) + if es[|es| - 1].Consistent? then 1 else 0
  }

  ghost predicate ResetFree(es: seq<Event>) {
    forall e | e in es :: !e.NewInformation?
  }

  lemma {:induction false} TicksOfPrefix(es: seq<Event>, n: nat)
    requires n <= |es|
    ensures Ticks(es[..n]) <= Ticks(es)
    ensures n < |es| && es[n].Tick? ==> Ticks(es[..n]) < Ticks(es)
  {
    if n == |es| {
      assert es[..n] == es;
    } else {
      TicksOfPrefix(es[..|es| - 1], n);
      assert es[..|es| - 1][..n] == es[..n];
    }
  }

  // ---------------------------------------------------------------- one interval

  ghost predicate Fresh(p: Params, t: Timer) {
    Ok(p, t) && t.elapsed == 0 && t.heard == 0
  }

  lemma {:induction false} WithinInterval(p: Params, t: Timer, es: seq<Event>)
    requires Fresh(p, t) && ResetFree(es) && Ticks(es) < t.interval
    ensures After(p, t, es) == Timer(t.interval, Ticks(es), t.tx, Noted(es) % WORD, Ticks(es) > t.tx)
  {
    hide Choose;
    if es != [] {
      WithinInterval(p, t, es[..|es| - 1]);
    }
  }

  lemma {:induction false} TickAt(es: seq<Event>, m: nat) returns (n: nat)
    requires m < Ticks(es)
    ensures n < |es| && es[n].Tick? && Ticks(es[..n]) == m
  {
    var last := |es| - 1;
    if m < Ticks(es[..last]) {
      n := TickAt(es[..last], m);
      assert es[..last][..n] == es[..n];
    } else {
      n := last;
    }
  }

  ghost predicate Decides(p: Params, t: Timer, es: seq<Event>, n: nat)
    requires Ok(p, t)
  {
    n < |es| && At(p, t, es, n) != Wait
  }

  // es is exactly one whole interval of the timer t.
  ghost predicate WholeInterval(p: Params, t: Timer, es: seq<Event>) {
    && Fresh(p, t) && ResetFree(es) && es != []
    && es[|es| - 1].Tick? && Ticks(es) == t.interval
  }

  // Within an interval the timer decides at the tick it chose, and there only.
  lemma DecidesAtChoice(p: Params, t: Timer, es: seq<Event>, n: nat)
    requires WholeInterval(p, t, es) && n < |es|
    ensures Decides(p, t, es, n) <==> es[n].Tick? && Ticks(es[..n]) == t.tx
    ensures Decides(p, t, es, n) ==>
              t.interval / 2 <= Ticks(es[..n]) < t.interval
              && (At(p, t, es, n) == Transmit <==> Noted(es[..n]) % WORD < p.k)
  {
    var last := |es| - 1;
    assert es[..last][..n] == es[..n];
    TicksOfPrefix(es[..last], n);
    WithinInterval(p, t, es[..n]);
  }

  // Each completed reset-free interval holds exactly one decision, at a tick of its second half; it
  // is to transmit exactly when fewer than k consistent summaries were noted since the interval
  // began (the count wraps at 2^32). Then a doubled interval, bounded by imax, begins.
  lemma OneDecisionPerInterval(p: Params, t: Timer, es: seq<Event>)
    requires WholeInterval(p, t, es)
    ensures exists n :: Decides(p, t, es, n) && forall m | 0 <= m < |es| :: Decides(p, t, es, m) ==> m == n
    ensures forall n | 0 <= n < |es| && Decides(p, t, es, n) ::
              && t.interval / 2 <= Ticks(es[..n]) < t.interval
              && (At(p, t, es, n) == Transmit <==> Noted(es[..n]) % 0x1_0000_0000 < p.k)
    ensures Fresh(p, After(p, t, es)) && !After(p, t, es).decided
    ensures After(p, t, es).interval == Min(p.imax, 2 * t.interval)
  {
    forall n | 0 <= n < |es|
      ensures Decides(p, t, es, n) <==> es[n].Tick? && Ticks(es[..n]) == t.tx
      ensures Decides(p, t, es, n) ==>
                t.interval / 2 <= Ticks(es[..n]) < t.interval
                && (At(p, t, es, n) == Transmit <==> Noted(es[..n]) % WORD < p.k)
    {
      DecidesAtChoice(p, t, es, n);
    }
    var n := TickAt(es, t.tx);
    forall m | 0 <= m < |es| && Decides(p, t, es, m)
      ensures m == n
    {
      if m < n {
        EarlierTick(es, m, n);
      } else if n < m {
        EarlierTick(es, n, m);
      }
    }
    hide Decides, At;
    IntervalEnds(p, t, es);
  }

  lemma IntervalEnds(p: Params, t: Timer, es: seq<Event>)
    requires WholeInterval(p, t, es)
    ensures Fresh(p, After(p, t, es)) && !After(p, t, es).decided
    ensures After(p, t, es).interval == Min(p.imax, 2 * t.interval)
  {
    WithinInterval(p, t, es[..|es| - 1]);
  }

  // With fewer than 2^32 summaries noted the wrap does not matter.
  lemma FewerThanKTransmits(p: Params, t: Timer, es: seq<Event>, n: nat)
    requires WholeInterval(p, t, es) && n < |es| && Decides(p, t, es, n)
    requires Noted(es[..n]) < 0x1_0000_0000
    ensures At(p, t, es, n) == (if Noted(es[..n]) < p.k then Transmit else Suppress)
  {
    DecidesAtChoice(p, t, es, n);
    SmallModulo(Noted(es[..n]), 0x1_0000_0000);
  }

  lemma EarlierTick(es: seq<Event>, m: nat, n: nat)
    requires m < n < |es| && es[m].Tick?
    ensures Ticks(es[..m]) < Ticks(es[..n])
  {
    TicksOfPrefix(es[..n], m);
    assert es[..n][..m] == es[..m];
  }

  // ---------------------------------------------------------------- many intervals

  // The length of the j-th interval after a reset.
  function Length(p: Params, j: nat): nat {
    Min(p.imax, p.imin * Pow2(j))
  }

  function Span(p: Params, j: nat): nat {
    if j == 0 then 0 else Span(p, j - 1) + Length(p, j - 1)
  }

  // How many intervals ended, and how many decisions and transmissions there were.
  function Expiries(p: Params, t: Timer, es: seq<Event>): nat
    requires Ok(p, t)
  {
    if es == [] then 0
    else
      var before := After(p, t, es[..|es| - 1]);
      Expiries(p, t, es[..|es| - 1]) + if es[|es| - 1].Tick? && before.elapsed + 1 >= before.interval then 1 else 0
  }

  function Transmissions(p: Params, t: Timer, es: seq<Event>): nat
    requires Ok(p, t)
  {
    if es == [] then 0
    else Transmissions(p, t, es[..|es| - 1]) + if At(p, t, es, |es| - 1) == Transmit then 1 else 0
  }

  lemma LengthAtReset(p: Params)
    requires p.Valid()
    ensures Length(p, 0) == p.imin && Span(p, 0) == 0
  {
  }

  lemma Doubling(p: Params, j: nat)
    ensures Longer(p, Length(p, j)) == Length(p, j + 1)
    ensures Span(p, j + 1) == Span(p, j) + Length(p, j)
  {
    assert p.imin * Pow2(j + 1) == p.imin * Pow2(j) * 2;
  }

  // After a reset and j expiries the interval is min(imax, imin * 2^j), and the ticks so far are
  // those of the j whole intervals and the elapsed ones.
  lemma {:induction false} IntervalAfter(p: Params, t: Timer, es: seq<Event>)
    requires Fresh(p, t) && t.interval == p.imin && ResetFree(es)
    ensures After(p, t, es).interval == Length(p, Expiries(p, t, es))
    ensures Ticks(es) == Span(p, Expiries(p, t, es)) + After(p, t, es).elapsed
  {
    hide Length, Choose, Span, Longer;
    if es == [] {
      LengthAtReset(p);
    } else {
      var before := es[..|es| - 1];
      IntervalAfter(p, t, before);
      Doubling(p, Expiries(p, t, before));
    }
  }

  lemma {:induction false} TransmissionsBound(p: Params, t: Timer, es: seq<Event>)
    requires Fresh(p, t) && ResetFree(es)
    ensures Transmissions(p, t, es) <= Expiries(p, t, es) + if After(p, t, es).decided then 1 else 0
  {
    if es != [] {
      var last := |es| - 1;
      TransmissionsBound(p, t, es[..last]);
      assert es[..last] == es[..|es| - 1];
    }
  }

  lemma LengthReached(p: Params, m: nat)
    requires p.imin * Pow2(m) >= p.imax
    ensures Length(p, m) == p.imax
  {
  }

  lemma OneMoreTime(n: nat, d: nat)
    ensures (n + 1) * d == n * d + d
  {
  }

  lemma {:induction false} LongSpan(p: Params, m: nat, j: nat)
    requires p.Valid() && Length(p, m) == p.imax && j >= m
    ensures Span(p, j) >= (j - m) * p.imax && Length(p, j) == p.imax
  {
    hide Length, Span, Pow2;
    if j > m {
      LongSpan(p, m, j - 1);
      Doubling(p, j - 1);
      OneMoreTime(j - 1 - m, p.imax);
    } else {
      NoTime(p.imax, j - m);
    }
  }

  lemma NoTime(d: nat, n: nat)
    requires n == 0
    ensures n * d == 0
  {
  }

  // However the draws fall, T reset-free ticks after a reset bring at most
  // ceil(log2(imax / imin)) + floor(T / imax) + 1 transmissions: m is any exponent, the least one
  // included, at which doubling imin has reached imax.
  lemma TransmissionBudget(p: Params, t: Timer, es: seq<Event>, m: nat)
    requires Fresh(p, t) && t.interval == p.imin && ResetFree(es)
    requires p.imin * Pow2(m) >= p.imax
    ensures Transmissions(p, t, es) <= m + Ticks(es) / p.imax + 1
  {
    assert Ok(p, t) && p.Valid();
    hide *;
    TransmissionsBound(p, t, es);
    IntervalAfter(p, t, es);
    var j := Expiries(p, t, es);
    if j > m {
      LengthReached(p, m);
      LongSpan(p, m, j);
      AtLeastQuotient(Ticks(es), p.imax, j - m);
    } else {
      AtLeastQuotient(Ticks(es), p.imax, 0);
    }
  }

  lemma TimesMonotone(a: nat, b: nat, d: nat)
    requires a <= b
    ensures a * d <= b * d
  {
  }

  lemma AtLeastQuotient(x: nat, d: nat, q: nat)
    requires d > 0 && x >= q * d
    ensures x / d >= q
  {
    var r := x / d;
    assert x < (r + 1) * d;
    if r + 1 <= q {
      TimesMonotone(r + 1, q, d);
    }
  }

  // ---------------------------------------------------------------- consecutive decisions

  // The most ticks that may pass until the next decision has been made.
  function Due(p: Params, t: Timer): nat
    requires Ok(p, t)
  {
    if t.decided then t.interval - t.elapsed + Longer(p, t.interval) else t.tx - t.elapsed + 1
  }

  lemma {:induction false} DecisionComes(p: Params, t: Timer, es: seq<Event>)
    requires Ok(p, t) && ResetFree(es)
    requires forall n | 0 <= n < |es| :: !Decides(p, t, es, n)
    ensures 1 <= Due(p, After(p, t, es)) <= Due(p, t) - Ticks(es)
  {
    hide Choose;
    if es != [] {
      var last := |es| - 1;
      forall n | 0 <= n < last
        ensures !Decides(p, t, es[..last], n)
      {
        assert es[..last][..n] == es[..n];
        assert !Decides(p, t, es, n);
      }
      DecisionComes(p, t, es[..last]);
      assert !Decides(p, t, es, last);
    }
  }

  // A decision is followed by the next one at most imax + ceil(imax / 2) - 1 ticks later, unless
  // the timer is reset in between.
  lemma NextDecision(p: Params, t: Timer, e: Event, es: seq<Event>)
    requires Ok(p, t) && ActionOf(p, t, e) != Wait && ResetFree(es)
    requires Ticks(es) >= p.imax + (p.imax + 1) / 2 - 1
    ensures exists n :: Decides(p, Next(p, t, e), es, n)
  {
    var t' := Next(p, t, e);
    assert Due(p, t') <= p.imax + (p.imax + 1) / 2 - 1;
    if forall n | 0 <= n < |es| :: !Decides(p, t', es, n) {
      DecisionComes(p, t', es);
    }
  }

  // ---------------------------------------------------------------- resets

  // Wherever the timer stands, new information begins a shortest interval, with nothing heard and
  // nothing decided.
  lemma NewInformationResets(p: Params, t: Timer, es: seq<Event>, draw: nat)
    requires Ok(p, t)
    ensures var t' := After(p, t, es + [NewInformation(draw)]);
            Fresh(p, t') && !t'.decided && t'.interval == p.imin && p.imin / 2 <= t'.tx < p.imin
  {
    var all := es + [NewInformation(draw)];
    assert all[..|all| - 1] == es;
  }

  lemma {:induction false} AfterBoth(p: Params, t: Timer, es: seq<Event>, rest: seq<Event>)
    requires Ok(p, t)
    ensures After(p, t, es + rest) == After(p, After(p, t, es), rest)
    ensures Transmissions(p, t, es + rest) == Transmissions(p, t, es) + Transmissions(p, After(p, t, es), rest)
  {
    hide Next, ActionOf;
    var all := es + rest;
    if rest == [] {
      assert all == es;
    } else {
      var n := |rest| - 1;
      AfterBoth(p, t, es, rest[..n]);
      assert all[..|all| - 1] == es + rest[..n] && all[|all| - 1] == rest[n];
    }
  }

  // So after new information, however the timer stood before, j expiries bring the interval to
  // min(imax, imin * 2^j).
  lemma IntervalAfterReset(p: Params, t: Timer, es: seq<Event>, draw: nat, rest: seq<Event>)
    requires Ok(p, t) && ResetFree(rest)
    ensures var reset := es + [NewInformation(draw)];
            var j := Expiries(p, After(p, t, reset), rest);
            && After(p, t, reset + rest).interval == Length(p, j)
            && Ticks(rest) == Span(p, j) + After(p, t, reset + rest).elapsed
  {
    var reset := es + [NewInformation(draw)];
    NewInformationResets(p, t, es, draw);
    AfterBoth(p, t, reset, rest);
    IntervalAfter(p, After(p, t, reset), rest);
  }

  // The transmissions that T ticks after new information bring.
  lemma BudgetAfterReset(p: Params, t: Timer, es: seq<Event>, draw: nat, rest: seq<Event>, m: nat)
    requires Ok(p, t) && ResetFree(rest) && p.imin * Pow2(m) >= p.imax
    ensures var reset := es + [NewInformation(draw)];
            Transmissions(p, t, reset + rest) - Transmissions(p, t, reset) <= m + Ticks(rest) / p.imax + 1
  {
    var reset := es + [NewInformation(draw)];
    NewInformationResets(p, t, es, draw);
    AfterBoth(p, t, reset, rest);
    TransmissionBudget(p, After(p, t, reset), rest, m);
  }

  // And imin ticks after new information a decision has been made.
  lemma DecisionAfterReset(p: Params, t: Timer, es: seq<Event>, draw: nat, rest: seq<Event>)
    requires Ok(p, t) && ResetFree(rest) && Ticks(rest) >= p.imin
    ensures var t' := After(p, t, es + [NewInformation(draw)]);
            exists n :: Decides(p, t', rest, n)
  {
    var t' := After(p, t, es + [NewInformation(draw)]);
    NewInformationResets(p, t, es, draw);
    if forall n | 0 <= n < |rest| :: !Decides(p, t', rest, n) {
      DecisionComes(p, t', rest);
    }
  }

  // Rule 6 is not followed: new information restarts the timer even at the shortest interval,
  // where the rule asks for nothing to happen. It leaves the timer alone exactly when the interval
  // has only just begun and the same tick is drawn again.
  lemma ResetAtShortest(p: Params, t: Timer, draw: nat)
    requires Ok(p, t) && t.interval == p.imin
    ensures Next(p, t, NewInformation(draw)) == t <==> Fresh(p, t) && t.tx == Choose(p.imin, draw)
  {
  }
}
