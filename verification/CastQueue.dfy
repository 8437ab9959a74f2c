// The probabilistic deferral queue of the RAPID application: what producers push is broadcast
// exactly once, after at most one deferral.
module CastQueues {
  import opened Basics

  type Payload = map<nat, int>

  // serial and deferrals are bookkeeping: the number of the push, and how often it was put back.
  datatype CastEntry = CastEntry(
    msgid: nat, prob: real, when: int, payload: Payload, serial: nat, deferrals: nat)

  // ---------------------------------------------------------------- the queue

  // The place of the first entry that is due, or the length of the queue.
  function FirstDue(q: seq<CastEntry>, now: int): (k: nat)
    ensures k <= |q|
    ensures forall j | 0 <= j < k :: q[j].when > now
    ensures k < |q| ==> q[k].when <= now
  {
    if q == [] || q[0].when <= now then 0 else 1 + FirstDue(q[1..], now)
  }

  function Without(q: seq<CastEntry>, k: nat): seq<CastEntry>
    requires k < |q|
  {
    q[..k] + q[k + 1..]
  }

  // ---------------------------------------------------------------- producers and the worker

  // held is the entry the worker is deciding on. pushed and cast log what went in and what was
  // broadcast, and decisions counts the worker's choices.
  datatype Caster = Caster(
    q: seq<CastEntry>, held: Option<CastEntry>, pushed: seq<CastEntry>, cast: seq<CastEntry>, decisions: nat)

  const EMPTY: Caster := Caster([], None, [], [], 0)

  function Pushed(c: Caster, msgid: nat, prob: real, when: int, payload: Payload): Caster {
    var e := CastEntry(msgid, prob, when, payload, |c.pushed|, 0);
    c.(q := c.q + [e], pushed := c.pushed + [e])
  }

  function Popped(c: Caster, now: int): Caster {
    var k := FirstDue(c.q, now);
    if c.held.Some? || k == |c.q| then c else c.(q := Without(c.q, k), held := Some(c.q[k]))
  }

  // With r drawn from [0, 1): broadcast, or put back to be broadcast for sure.
  function Decided(c: Caster, r: real, later: int): Caster {
    if c.held.None? then c
    else
      var e := c.held.value;
      var c' := c.(held := None, decisions := c.decisions + 1);
      if r <= e.prob then c'.(cast := c.cast + [e])
      else c'.(q := c.q + [e.(when := later, prob := 1.0, deferrals := e.deferrals + 1)])
  }

  // What the worker broadcasts when it decides.
  function Sent(c: Caster, r: real): Option<CastEntry> {
    if c.held.Some? && r <= c.held.value.prob then c.held else None
  }

  function AsSeq(sent: Option<CastEntry>): seq<CastEntry> {
    if sent.Some? then [sent.value] else []
  }

  datatype Act =
    | Push(msgid: nat, prob: real, when: int, payload: Payload)
    | Pop(now: int)
    | Decision(r: real, later: int)

  ghost predicate Legal(a: Act) {
    match a
    case Push(_, prob, _, _) => 0.0 <= prob <= 1.0
    case Pop(_) => true
    case Decision(r, _) => 0.0 <= r < 1.0
  }

  function Next(c: Caster, a: Act): Caster {
    match a
    case Push(msgid, prob, when, payload) => Pushed(c, msgid, prob, when, payload)
    case Pop(now) => Popped(c, now)
    case Decision(r, later) => Decided(c, r, later)
  }

  // The state after any interleaving of producers and worker.
  function After(acts: seq<Act>): Caster {
    if acts == [] then EMPTY else Next(After(acts[..|acts| - 1]), acts[|acts| - 1])
  }

  // All that was broadcast, in order.
  function SentIn(acts: seq<Act>): seq<CastEntry> {
    if acts == [] then []
    else
      var before, a := acts[..|acts| - 1], acts[|acts| - 1];
      SentIn(before) + if a.Decision? then AsSeq(Sent(After(before), a.r)) else []
  }

  // All that producers asked for, in order.
  function PushActs(acts: seq<Act>): seq<Act> {
    if acts == [] then []
    else PushActs(acts[..|acts| - 1]) + if acts[|acts| - 1].Push? then [acts[|acts| - 1]] else []
  }

  ghost predicate AllLegal(acts: seq<Act>) {
    forall a | a in acts :: Legal(a)
  }

  // ---------------------------------------------------------------- what runs keep

  // How many entries carry the serial.
  function Count(s: seq<CastEntry>, serial: nat): nat {
    if s == [] then 0 else Count(s[..|s| - 1], serial) + if s[|s| - 1].serial == serial then 1 else 0
  }

  function HeldCount(held: Option<CastEntry>, serial: nat): nat {
    if held.Some? && held.value.serial == serial then 1 else 0
  }

  // All but the last entry, with the k-th left out.
  lemma WithoutFront(q: seq<CastEntry>, k: nat)
    requires k < |q| - 1
    ensures Without(q, k)[..|q| - 2] == Without(q[..|q| - 1], k) && Without(q, k)[|q| - 2] == q[|q| - 1]
  {
  }

  lemma {:induction false} CountWithout(q: seq<CastEntry>, k: nat, serial: nat)
    requires k < |q|
    ensures Count(q, serial) == Count(Without(q, k), serial) + if q[k].serial == serial then 1 else 0
  {
    var n := |q| - 1;
    if k < n {
      WithoutFront(q, k);
      CountWithout(q[..n], k, serial);
    } else {
      assert Without(q, k) == q[..n];
    }
  }

  // An entry is the one pushed under its serial, put back at most once and then certain.
  ghost predicate EntryOk(pushed: seq<CastEntry>, e: CastEntry) {
    && e.serial < |pushed|
    && e.msgid == pushed[e.serial].msgid && e.payload == pushed[e.serial].payload
    && (e.deferrals == 0 ==> e.prob == pushed[e.serial].prob && e.when == pushed[e.serial].when)
    && (e.deferrals > 0 ==> e.deferrals == 1 && e.prob == 1.0 && pushed[e.serial].prob < 1.0)
  }

  // How many decisions an entry may still need.
  function Potential(e: CastEntry): nat {
    if e.prob < 1.0 then 2 else 1
  }

  function TotalPotential(s: seq<CastEntry>): nat {
    if s == [] then 0 else TotalPotential(s[..|s| - 1]) + Potential(s[|s| - 1])
  }

  function Remaining(c: Caster): nat {
    TotalPotential(c.q) + if c.held.Some? then Potential(c.held.value) else 0
  }

  lemma {:induction false} PotentialWithout(q: seq<CastEntry>, k: nat)
    requires k < |q|
    ensures TotalPotential(q) == TotalPotential(Without(q, k)) + Potential(q[k])
  {
    var n := |q| - 1;
    if k < n {
      WithoutFront(q, k);
      PotentialWithout(q[..n], k);
    } else {
      assert Without(q, k) == q[..n];
    }
  }

  ghost predicate EntriesOk(c: Caster) {
    && (forall e | e in c.q :: EntryOk(c.pushed, e))
    && (forall e | e in c.cast :: EntryOk(c.pushed, e))
    && (c.held.Some? ==> EntryOk(c.pushed, c.held.value))
    && (forall k | 0 <= k < |c.pushed| :: c.pushed[k].serial == k && 0.0 <= c.pushed[k].prob <= 1.0)
  }

  // Every push is in exactly one place.
  function Places(c: Caster, serial: nat): nat {
    Count(c.cast, serial) + Count(c.q, serial) + HeldCount(c.held, serial)
  }

  ghost predicate Conserved(c: Caster) {
    forall k: nat :: Places(c, k) == if k < |c.pushed| then 1 else 0
  }

  ghost predicate Budgeted(c: Caster) {
    c.decisions + Remaining(c) <= TotalPotential(c.pushed)
  }

  lemma NextKeepsEntries(c: Caster, a: Act)
    requires EntriesOk(c) && Legal(a)
    ensures EntriesOk(Next(c, a))
  {
    var c' := Next(c, a);
    forall e | e in c'.q
      ensures EntryOk(c'.pushed, e)
    {
      if e in c.q {
        assert EntryOk(c.pushed, e);
      }
    }
    assert forall e | e in c'.cast :: e in c.cast || c.held == Some(e);
  }

  lemma NextConserves(c: Caster, a: Act)
    requires Conserved(c)
    ensures Conserved(Next(c, a))
  {
    var c' := Next(c, a);
    forall k: nat
      ensures Places(c', k) == if k < |c'.pushed| then 1 else 0
    {
      assert Places(c, k) == if k < |c.pushed| then 1 else 0;
      PlacesNext(c, a, k);
    }
  }

  lemma PlacesNext(c: Caster, a: Act, k: nat)
    ensures Places(Next(c, a), k) == Places(c, k) + if a.Push? && k == |c.pushed| then 1 else 0
  {
    var c' := Next(c, a);
    match a
    case Push(_, _, _, _) =>
      assert c'.q[..|c'.q| - 1] == c.q;
    case Pop(now) =>
      if c' != c {
        CountWithout(c.q, FirstDue(c.q, now), k);
      }
    case Decision(r, _) =>
      if c.held.Some? {
        if r <= c.held.value.prob {
          assert c'.cast[..|c'.cast| - 1] == c.cast;
        } else {
          assert c'.q[..|c'.q| - 1] == c.q;
        }
      }
  }

  // Every decision uses up potential.
  lemma NextSpends(c: Caster, a: Act)
    requires Legal(a)
    ensures a.Decision? && c.held.Some? ==> Remaining(Next(c, a)) < Remaining(c)
    ensures a.Pop? ==> Remaining(Next(c, a)) == Remaining(c)
    ensures Budgeted(c) ==> Budgeted(Next(c, a))
  {
    var c' := Next(c, a);
    match a
    case Push(_, _, _, _) =>
      assert c'.q[..|c'.q| - 1] == c.q && c'.pushed[..|c'.pushed| - 1] == c.pushed;
    case Pop(now) =>
      if c' != c {
        PotentialWithout(c.q, FirstDue(c.q, now));
      }
    case Decision(r, _) =>
      if c.held.Some? && !(r <= c.held.value.prob) {
        assert c'.q[..|c'.q| - 1] == c.q;
      }
  }

  ghost predicate Kept(c: Caster) {
    EntriesOk(c) && Conserved(c) && Budgeted(c)
  }

  lemma NextKeeps(c: Caster, a: Act)
    requires Kept(c) && Legal(a)
    ensures Kept(Next(c, a))
  {
    NextKeepsEntries(c, a);
    NextConserves(c, a);
    NextSpends(c, a);
  }

  lemma {:induction false} RunsKeep(acts: seq<Act>)
    requires AllLegal(acts)
    ensures Kept(After(acts))
  {
    if acts != [] {
      RunsKeep(acts[..|acts| - 1]);
      NextKeeps(After(acts[..|acts| - 1]), acts[|acts| - 1]);
    }
  }

  // ---------------------------------------------------------------- the code

  class CastQueue {
    var q: seq<CastEntry>
    var held: Option<CastEntry>
    var pushes: nat
    ghost var pushed: seq<CastEntry>
    ghost var cast: seq<CastEntry>
    ghost var decisions: nat

    ghost function Value(): Caster
      reads this
    {
      Caster(q, held, pushed, cast, decisions)
    }

    ghost predicate Valid()
      reads this
    {
      pushes == |pushed|
    }

    constructor ()
      ensures Valid() && Value() == EMPTY && Kept(Value())
    {
      q, held, pushes := [], None, 0;
      pushed, cast, decisions := [], [], 0;
    }

    method Push(msgid: nat, prob: real, when: int, payload: Payload)
      requires Valid()
      modifies this
      ensures Valid() && Value() == Pushed(old(Value()), msgid, prob, when, payload)
      ensures q == old(q) + [CastEntry(msgid, prob, when, payload, old(pushes), 0)] && pushes == old(pushes) + 1
      ensures held == old(held) && cast == old(cast)
      ensures Kept(old(Value())) && 0.0 <= prob <= 1.0 ==> Kept(Value())
    {
      if Kept(Value()) && 0.0 <= prob <= 1.0 {
        NextKeeps(Value(), Act.Push(msgid, prob, when, payload));
      }
      var e := CastEntry(msgid, prob, when, payload, pushes, 0);
      q := q + [e];
      pushed := pushed + [e];
      pushes := pushes + 1;
    }

    // Takes out the first entry that is due.
    method PopDue(now: int) returns (found: bool)
      requires Valid() && held.None?
      modifies this
      ensures Valid() && Value() == Popped(old(Value()), now)
      ensures found <==> held.Some?
      ensures found <==> exists k :: 0 <= k < |old(q)| && old(q)[k].when <= now
    {
      for i := 0 to |q|
        invariant Value() == old(Value()) && Valid() && i <= FirstDue(q, now)
      {
        if q[i].when <= now {
          held := Some(q[i]);
          q := Without(q, i);
          return true;
        }
      }
      found := false;
    }

    // The worker's choice on the entry it holds: broadcast, or put back unchanged but for its time, to
    // be broadcast for sure. Whatever is drawn, every push stays in exactly one place, no entry is put
    // back twice, and less remains to be decided.
    method Decide(r: real, later: int) returns (sent: Option<CastEntry>)
      requires Valid() && held.Some?
      modifies this
      ensures Valid() && Value() == Decided(old(Value()), r, later)
      ensures sent == if r <= old(held).value.prob then old(held) else None
      ensures held.None? && cast == old(cast) + AsSeq(sent)
      ensures sent.Some? ==> q == old(q)
      ensures sent.None? ==> var e := old(held).value;
                             q == old(q) + [CastEntry(e.msgid, 1.0, later, e.payload, e.serial, e.deferrals + 1)]
      ensures Kept(old(Value())) && 0.0 <= r < 1.0 ==> Kept(Value()) && Remaining(Value()) < Remaining(old(Value()))
    {
      if Kept(Value()) && 0.0 <= r < 1.0 {
        NextKeeps(Value(), Decision(r, later));
        NextSpends(Value(), Decision(r, later));
      }
      var e := held.value;
      held := None;
      decisions := decisions + 1;
      if r <= e.prob {
        sent := Some(e);
        cast := cast + [e];
      } else {
        sent := None;
        q := q + [e.(when := later, prob := 1.0, deferrals := e.deferrals + 1)];
      }
    }

    // One round of the worker.
    method Work(now: int, r: real, later: int) returns (sent: Option<CastEntry>)
      requires Valid() && held.None?
      modifies this
      ensures Valid() && held.None? && Value() == Round(old(Value()), Draw(now, r, later))
      ensures cast == old(cast) + AsSeq(sent) && sent == SentInRound(old(Value()), Draw(now, r, later))
      ensures Kept(old(Value())) && 0.0 <= r < 1.0 ==> Kept(Value())
    {
      sent := None;
      if Kept(Value()) {
        NextKeeps(Value(), Pop(now));
      }
      var found := PopDue(now);
      if found {
        sent := Decide(r, later);
      }
    }

    // The worker's loop. Once it has made as many late enough rounds as there was potential, nothing
    // is left and every push has been broadcast exactly once.
    method CastWorker(draws: seq<Draw>) returns (sent: seq<CastEntry>)
      requires Valid() && held.None?
      modifies this
      ensures Valid() && held.None? && cast == old(cast) + sent
      ensures sent == SentBy(old(Value()), draws)
      ensures Kept(old(Value())) && LateEnough(old(Value()), draws) && |draws| >= Remaining(old(Value())) ==>
                q == [] && forall k | 0 <= k < pushes :: Count(old(cast) + sent, k) == 1
    {
      ghost var c := Value();
      sent := [];
      hide Kept, Round, SentInRound, LateEnough, Remaining, Count;
      for i := 0 to |draws|
        invariant Valid() && held.None? && cast == old(cast) + sent
        invariant Rounds(c, draws) == Rounds(Value(), draws[i..])
        invariant SentBy(c, draws) == sent + SentBy(Value(), draws[i..])
      {
        ghost var before, soFar := Value(), sent;
        OneRound(before, draws, i);
        var one := Work(draws[i].now, draws[i].r, draws[i].later);
        sent := sent + AsSeq(one);
        assert soFar + (AsSeq(one) + SentBy(Value(), draws[i + 1..])) == sent + SentBy(Value(), draws[i + 1..]);
      }
      if Kept(c) && LateEnough(c, draws) && |draws| >= Remaining(c) {
        DrainedIsCastOnce(c, draws);
      }
    }
  }

  // What one round of the worker draws: the time, the number that decides, the time put off to.
  datatype Draw = Draw(now: int, r: real, later: int)

  function Round(c: Caster, d: Draw): Caster {
    Decided(Popped(c, d.now), d.r, d.later)
  }

  function SentInRound(c: Caster, d: Draw): Option<CastEntry> {
    Sent(Popped(c, d.now), d.r)
  }

  // What the rounds broadcast, in order.
  function SentBy(c: Caster, draws: seq<Draw>): seq<CastEntry>
    decreases |draws|
  {
    if draws == [] then [] else AsSeq(SentInRound(c, draws[0])) + SentBy(Round(c, draws[0]), draws[1..])
  }

  function Rounds(c: Caster, draws: seq<Draw>): Caster
    decreases |draws|
  {
    if draws == [] then c else Rounds(Round(c, draws[0]), draws[1..])
  }

  // Every round comes when all that is queued by then is due.
  ghost predicate LateEnough(c: Caster, draws: seq<Draw>)
    decreases |draws|
  {
    draws != [] ==>
      && 0.0 <= draws[0].r < 1.0
      && (forall e | e in c.q :: e.when <= draws[0].now)
      && LateEnough(Round(c, draws[0]), draws[1..])
  }

  lemma OneRound(c: Caster, draws: seq<Draw>, i: nat)
    requires i < |draws|
    ensures var c', rest := Round(c, draws[i]), draws[i + 1..];
            && Rounds(c, draws[i..]) == Rounds(c', rest)
            && SentBy(c, draws[i..]) == AsSeq(SentInRound(c, draws[i])) + SentBy(c', rest)
  {
    assert draws[i..][1..] == draws[i + 1..];
  }

  // ---------------------------------------------------------------- the results

  lemma {:induction false} CountsEntry(s: seq<CastEntry>, k: nat)
    requires k < |s|
    ensures Count(s, s[k].serial) >= 1
  {
    if k < |s| - 1 {
      CountsEntry(s[..|s| - 1], k);
    }
  }

  lemma {:induction false} CountsBoth(s: seq<CastEntry>, j: nat, k: nat)
    requires j < k < |s| && s[j].serial == s[k].serial
    ensures Count(s, s[k].serial) >= 2
  {
    if k < |s| - 1 {
      CountsBoth(s[..|s| - 1], j, k);
    } else {
      CountsEntry(s[..|s| - 1], j);
    }
  }

  // The log is what was broadcast.
  lemma NextLogsSent(c: Caster, a: Act)
    ensures Next(c, a).cast == c.cast + if a.Decision? then AsSeq(Sent(c, a.r)) else []
  {
  }

  lemma {:induction false} LogIsSent(acts: seq<Act>)
    ensures After(acts).cast == SentIn(acts)
  {
    if acts != [] {
      LogIsSent(acts[..|acts| - 1]);
      NextLogsSent(After(acts[..|acts| - 1]), acts[|acts| - 1]);
    }
  }

  // The k-th push has the k-th producer's arguments.
  ghost predicate AsAsked(pushed: seq<CastEntry>, asked: seq<Act>) {
    && |pushed| == |asked|
    && forall k | 0 <= k < |pushed| ::
         && asked[k].Push? && pushed[k].msgid == asked[k].msgid && pushed[k].payload == asked[k].payload
         && pushed[k].prob == asked[k].prob && pushed[k].when == asked[k].when && pushed[k].deferrals == 0
  }

  lemma {:induction false} PushedAsAsked(acts: seq<Act>)
    ensures AsAsked(After(acts).pushed, PushActs(acts))
  {
    if acts != [] {
      PushedAsAsked(acts[..|acts| - 1]);
    }
  }

  // An entry is what a producer asked for, put back at most once and then certain.
  ghost predicate Carries(asked: seq<Act>, e: CastEntry) {
    && e.serial < |asked| && asked[e.serial].Push?
    && e.msgid == asked[e.serial].msgid && e.payload == asked[e.serial].payload
    && (e.deferrals == 0 ==> e.prob == asked[e.serial].prob && e.when == asked[e.serial].when)
    && (e.deferrals > 0 ==> e.deferrals == 1 && e.prob == 1.0 && asked[e.serial].prob < 1.0)
  }

  // Nothing is lost or made up: everything that producers asked for is broadcast, queued or held, in
  // exactly one place, with the message it was asked for with. Nothing is broadcast twice and nothing
  // is deferred twice.
  lemma PushedIsCastOnce(acts: seq<Act>)
    requires AllLegal(acts)
    ensures var c, sent, asked := After(acts), SentIn(acts), PushActs(acts);
            && (forall k: nat ::
                  Count(sent, k) + Count(c.q, k) + HeldCount(c.held, k) == if k < |asked| then 1 else 0)
            && (forall j, k | 0 <= j < k < |sent| :: sent[j].serial != sent[k].serial)
            && (forall e | e in sent :: Carries(asked, e))
            && (forall e | e in c.q :: Carries(asked, e))
  {
    RunsKeep(acts);
    LogIsSent(acts);
    PushedAsAsked(acts);
    var c := After(acts);
    forall k: nat
      ensures Count(c.cast, k) + Count(c.q, k) + HeldCount(c.held, k) == if k < |PushActs(acts)| then 1 else 0
    {
      assert Places(c, k) == if k < |c.pushed| then 1 else 0;
    }
    forall j, k | 0 <= j < k < |c.cast|
      ensures c.cast[j].serial != c.cast[k].serial
    {
      var serial := c.cast[k].serial;
      assert Places(c, serial) <= 1;
      if c.cast[j].serial == serial {
        CountsBoth(c.cast, j, k);
      }
    }
  }

  // What is broadcast was asked for, and if it was never deferred then by a draw that its own chance
  // allows.
  lemma BroadcastAsAsked(acts: seq<Act>, r: real, later: int)
    requires AllLegal(acts) && Sent(After(acts), r).Some?
    ensures var e, asked := Sent(After(acts), r).value, PushActs(acts);
            && Carries(asked, e)
            && (e.deferrals == 0 ==> r <= asked[e.serial].prob)
            && SentIn(acts + [Decision(r, later)]) == SentIn(acts) + [e]
  {
    RunsKeep(acts);
    PushedAsAsked(acts);
    assert (acts + [Decision(r, later)])[..|acts|] == acts;
  }

  // What is put back is neither broadcast nor changed, but for its time and its chance.
  lemma DeferredIsKept(c: Caster, r: real, later: int)
    requires Kept(c) && 0.0 <= r < 1.0 && c.held.Some? && Sent(c, r).None?
    ensures var c' := Next(c, Decision(r, later));
            && c'.cast == c.cast && c'.held.None? && |c'.q| == |c.q| + 1 && c'.q[..|c.q|] == c.q
            && c'.q[|c.q|].when == later && c'.q[|c.q|].prob == 1.0 && c'.q[|c.q|].deferrals == 1
            && SameMessage(c'.q[|c.q|], c.held.value)
  {
    hide Conserved, Budgeted;
    assert EntryOk(c.pushed, c.held.value);
  }

  ghost predicate SameMessage(e: CastEntry, f: CastEntry) {
    e.msgid == f.msgid && e.payload == f.payload && e.serial == f.serial
  }

  // Nothing is taken out before its time: an entry that was never deferred, not before the time its
  // producer asked for.
  lemma NeverEarly(acts: seq<Act>, now: int)
    requires AllLegal(acts) && After(acts).held.None? && After(acts + [Pop(now)]).held.Some?
    ensures var e := After(acts + [Pop(now)]).held.value;
            && e in After(acts).q && e.when <= now
            && Carries(PushActs(acts), e) && (e.deferrals == 0 ==> PushActs(acts)[e.serial].when <= now)
  {
    RunsKeep(acts);
    PushedAsAsked(acts);
    assert (acts + [Pop(now)])[..|acts|] == acts;
  }

  lemma {:induction false} AtMostTwoEach(s: seq<CastEntry>)
    ensures |s| <= TotalPotential(s) <= 2 * |s|
  {
    if s != [] {
      AtMostTwoEach(s[..|s| - 1]);
    }
  }

  // The worker decides at most twice per push: once when it was certain, twice otherwise.
  lemma DecisionsBounded(acts: seq<Act>)
    requires AllLegal(acts)
    ensures After(acts).decisions <= TotalPotential(After(acts).pushed) <= 2 * |After(acts).pushed|
  {
    RunsKeep(acts);
    AtMostTwoEach(After(acts).pushed);
  }

  // Without new pushes a late enough round lowers what remains, whatever is drawn, and what remains
  // is zero only when nothing is left.
  lemma RoundsDrain(c: Caster, d: Draw)
    requires c.held.None? && 0.0 <= d.r < 1.0 && forall e | e in c.q :: e.when <= d.now
    ensures Round(c, d).pushed == c.pushed && Round(c, d).held.None?
    ensures c.q != [] ==> Remaining(Round(c, d)) < Remaining(c)
    ensures c.q == [] ==> Round(c, d) == c
    ensures Remaining(c) == 0 <==> c.q == []
    ensures Kept(c) ==> Kept(Round(c, d))
  {
    AtMostTwoEach(c.q);
    NextSpends(c, Pop(d.now));
    if c.q != [] {
      assert c.q[0] in c.q;
      NextSpends(Popped(c, d.now), Decision(d.r, d.later));
    }
    if Kept(c) {
      NextKeeps(c, Pop(d.now));
      NextKeeps(Popped(c, d.now), Decision(d.r, d.later));
    }
  }

  lemma NothingLeft(c: Caster)
    requires Kept(c) && c.held.None? && Remaining(c) == 0
    ensures c.q == [] && forall k | 0 <= k < |c.pushed| :: Count(c.cast, k) == 1
  {
    AtMostTwoEach(c.q);
    forall k | 0 <= k < |c.pushed|
      ensures Count(c.cast, k) == 1
    {
      assert Places(c, k) == 1;
    }
  }

  lemma RoundLogsSent(c: Caster, d: Draw)
    ensures Round(c, d).cast == c.cast + AsSeq(SentInRound(c, d))
  {
    NextLogsSent(Popped(c, d.now), Decision(d.r, d.later));
  }

  lemma Onwards(c: Caster, draws: seq<Draw>)
    requires draws != []
    ensures var c' := Round(c, draws[0]);
            c.cast + SentBy(c, draws) == c'.cast + SentBy(c', draws[1..])
  {
    hide Round, SentInRound, AsSeq;
    RoundLogsSent(c, draws[0]);
  }

  // So as many late enough rounds as there is potential leave nothing, and with what they broadcast
  // every push has been broadcast exactly once.
  lemma {:induction false} DrainedIsCastOnce(c: Caster, draws: seq<Draw>)
    requires Kept(c) && c.held.None? && LateEnough(c, draws) && |draws| >= Remaining(c)
    ensures var c' := Rounds(c, draws);
            && c'.pushed == c.pushed && c'.q == [] && c'.held.None?
            && forall k | 0 <= k < |c.pushed| :: Count(c.cast + SentBy(c, draws), k) == 1
    decreases |draws|
  {
    hide Kept, Round, Remaining, Count;
    if draws == [] {
      NothingLeft(c);
      assert c.cast + SentBy(c, draws) == c.cast;
    } else {
      RoundsDrain(c, draws[0]);
      Onwards(c, draws);
      DrainedIsCastOnce(Round(c, draws[0]), draws[1..]);
    }
  }
}
