// The summary/repair protocol between n nodes: what every run keeps, and why it converges.
module TrickleRuns {
  import opened Basics
  import opened Bytes
  import opened Codecs
  import opened TrickleNodes

  // ---------------------------------------------------------------- comparing and repairing

  datatype Relation = Equal | LocalNewer | RemoteNewer | Concurrent

  // Some count of a is larger than its counterpart in b.
  predicate Exceeds(a: Summary, b: Summary) {
    exists i :: 0 <= i < Min(|a|, |b|) && a[i] > b[i]
  }

  function RelationOf(local: Summary, remote: Summary): Relation {
    if Exceeds(local, remote) then if Exceeds(remote, local) then Concurrent else LocalNewer
    else if Exceeds(remote, local) then RemoteNewer
    else Equal
  }

  method CompareSummaries(local: Summary, remote: Summary) returns (rel: Relation)
    ensures rel == RelationOf(local, remote)
    ensures rel in {LocalNewer, Concurrent} <==> exists i :: 0 <= i < Min(|local|, |remote|) && local[i] > remote[i]
    ensures rel in {RemoteNewer, Concurrent} <==> exists i :: 0 <= i < Min(|local|, |remote|) && remote[i] > local[i]
  {
    var localGt, remoteGt := false, false;
    var n := Min(|local|, |remote|);
    for i := 0 to n
      invariant localGt <==> exists j :: 0 <= j < i && local[j] > remote[j]
      invariant remoteGt <==> exists j :: 0 <= j < i && remote[j] > local[j]
    {
      if local[i] > remote[i] {
        localGt := true;
      } else if local[i] < remote[i] {
        remoteGt := true;
      }
    }
    rel := if !localGt && !remoteGt then Equal
           else if localGt && !remoteGt then LocalNewer
           else if !localGt && remoteGt then RemoteNewer
           else Concurrent;
  }

  function RepairFor(local: Summary, remote: Summary, n: nat): seq<Pair>
    requires n <= Min(|local|, |remote|) && |local| <= 0x1_0000_0000
  {
    if n == 0 then []
    else RepairFor(local, remote, n - 1) + if local[n - 1] > remote[n - 1] then [(n - 1, local[n - 1])] else []
  }

  // A repair carries exactly the counts in which the local vector is ahead.
  lemma {:induction false} RepairCarries(local: Summary, remote: Summary, n: nat, e: Pair)
    requires n <= Min(|local|, |remote|) && |local| <= 0x1_0000_0000
    ensures e in RepairFor(local, remote, n) <==> e.0 < n && local[e.0] > remote[e.0] && e.1 == local[e.0]
  {
    if n > 0 {
      RepairCarries(local, remote, n - 1, e);
    }
  }

  method BuildRepairEntries(local: Summary, remote: Summary) returns (repair: seq<Pair>)
    requires |local| <= 0x1_0000_0000
    ensures repair == RepairFor(local, remote, Min(|local|, |remote|))
    ensures forall e: Pair :: e in repair <==>
              e.0 < Min(|local|, |remote|) && local[e.0] > remote[e.0] && e.1 == local[e.0]
  {
    repair := [];
    var n := Min(|local|, |remote|);
    for i := 0 to n
      invariant repair == RepairFor(local, remote, i)
    {
      if local[i] > remote[i] {
        repair := repair + [(i, local[i])];
      }
    }
    forall e: Pair
      ensures e in repair <==> e.0 < n && local[e.0] > remote[e.0] && e.1 == local[e.0]
    {
      RepairCarries(local, remote, n, e);
    }
  }

  // ---------------------------------------------------------------- runs

  datatype Message = SummaryMsg(summary: Summary) | RepairMsg(entries: seq<Pair>)

  type Vectors = seq<Summary>

  // The network keeps every packet: it may lose, duplicate, delay and reorder them.
  datatype Sys = Sys(known: Vectors, net: seq<Message>)

  datatype Act =
    | LocalInc(i: nat, val: nat)
    | Announce(i: nat)
    | Receive(i: nat, msg: Message)

  // n nodes, each with a vector of n counts that fit an int.
  predicate Shape(known: Vectors) {
    && |known| <= 0x1_0000_0000
    && forall i | 0 <= i < |known| :: |known[i]| == |known|
  }

  // What one node sends in answer to a packet, and the vector it is left with.
  function Answer(local: Summary, msg: Message): seq<Message>
    requires |local| <= 0x1_0000_0000
  {
    if msg.RepairMsg? || |msg.summary| != |local| then []
    else
      var repair := RepairMsg(RepairFor(local, msg.summary, |local|));
      match RelationOf(local, msg.summary)
      case Equal => []
      case LocalNewer => [repair]
      case RemoteNewer => [SummaryMsg(local)]
      case Concurrent => [repair, SummaryMsg(local)]
  }

  // What the timer is told about a summary.
  datatype Note = NoNote | ConsistentSummary | NewInformation

  // The handler of a received summary: what it sends, and what it tells the timer.
  method HandleSummary(local: Summary, remote: Summary) returns (sent: seq<Message>, note: Note)
    requires |local| == |remote| <= 0x1_0000_0000
    ensures sent == Answer(local, SummaryMsg(remote))
    ensures note == ConsistentSummary <==> local == remote
    ensures note == NewInformation <==> exists i :: 0 <= i < |local| && remote[i] > local[i]
    ensures (exists m :: m in sent && m.RepairMsg?) <==> exists i :: 0 <= i < |local| && local[i] > remote[i]
    ensures SummaryMsg(local) in sent <==> note == NewInformation
  {
    sent, note := [], NoNote;
    var rel := CompareSummaries(local, remote);
    if local != remote {
      DifferentExceeds(local, remote);
    }
    if rel == Equal {
      note := ConsistentSummary;
    } else if rel == LocalNewer {
      var repair := BuildRepairEntries(local, remote);
      AheadIsRepaired(local, remote);
      if repair != [] {
        sent := [RepairMsg(repair)];
      }
      assert RepairMsg(repair) in sent;
    } else if rel == RemoteNewer {
      note := NewInformation;
      sent := [SummaryMsg(local)];
    } else {
      var repair := BuildRepairEntries(local, remote);
      AheadIsRepaired(local, remote);
      if repair != [] {
        sent := [RepairMsg(repair)];
      }
      note := NewInformation;
      sent := sent + [SummaryMsg(local)];
      assert RepairMsg(repair) in sent;
    }
  }

  // So a repair is never empty where one is due.
  lemma AheadIsRepaired(local: Summary, remote: Summary)
    requires |local| == |remote| <= 0x1_0000_0000 && Exceeds(local, remote)
    ensures RepairFor(local, remote, |local|) != []
  {
    var i :| 0 <= i < |local| && local[i] > remote[i];
    RepairCarries(local, remote, |local|, (i, local[i]));
  }

  function Learn(local: Summary, msg: Message): Summary {
    if msg.RepairMsg? then Merged(local, msg.entries) else local
  }

  function Counted(v: Summary, i: nat, val: nat): Summary
    requires i < |v| && v[i] + val < INT_LIMIT
  {
    var count: uint32 := v[i] + val;
    v[i := count]
  }

  ghost predicate Step(s: Sys, a: Act, s': Sys)
    requires Shape(s.known)
  {
    && a.i < |s.known|
    && match a
       case LocalInc(i, val) =>
         && val >= 1 && s.known[i][i] + val < INT_LIMIT
         && s' == s.(known := s.known[i := Counted(s.known[i], i, val)])
       case Announce(i) =>
         s' == s.(net := s.net + [SummaryMsg(s.known[i])])
       case Receive(i, msg) =>
         && msg in s.net
         && s' == Sys(s.known[i := Learn(s.known[i], msg)], s.net + Answer(s.known[i], msg))
  }

  ghost predicate Init(s: Sys) {
    && Shape(s.known) && s.net == []
    && forall i, j | 0 <= i < |s.known| && 0 <= j < |s.known| :: s.known[i][j] == 0
  }

  ghost predicate Run(states: seq<Sys>, acts: seq<Act>) {
    && |states| == |acts| + 1
    && Init(states[0])
    && forall n | 0 <= n < |acts| :: Shape(states[n].known) && Step(states[n], acts[n], states[n + 1])
  }

  // Each node's own count is the truth about it.
  function Truth(known: Vectors): seq<int>
    requires Shape(known)
  {
    seq(|known|, j requires 0 <= j < |known| => known[j][j])
  }

  ghost predicate Honest(truth: seq<int>, msg: Message) {
    match msg
    case SummaryMsg(v) => |v| == |truth| && forall j | 0 <= j < |v| :: v[j] <= truth[j]
    case RepairMsg(entries) => forall e | e in entries && e.0 < |truth| :: e.1 <= truth[e.0]
  }

  ghost predicate Bounded(known: Vectors)
    requires Shape(known)
  {
    forall i, j | 0 <= i < |known| && 0 <= j < |known| :: known[i][j] <= known[j][j]
  }

  ghost predicate Inv(s: Sys) {
    && Shape(s.known) && Bounded(s.known)
    && (forall j | 0 <= j < |s.known| :: s.known[j][j] < INT_LIMIT)
    && (forall msg | msg in s.net :: Honest(Truth(s.known), msg))
  }

  lemma LearnIsBounded(known: Vectors, i: nat, msg: Message)
    requires Shape(known) && Bounded(known) && i < |known| && Honest(Truth(known), msg)
    ensures |Learn(known[i], msg)| == |known|
    ensures forall j | 0 <= j < |known| :: known[i][j] <= Learn(known[i], msg)[j] <= known[j][j]
    ensures Learn(known[i], msg)[i] == known[i][i]
  {
    if msg.RepairMsg? {
      forall j | 0 <= j < |known|
        ensures known[i][j] <= Learn(known[i], msg)[j] <= known[j][j]
      {
        MergedIsMax(known[i], msg.entries, j);
      }
    }
  }

  lemma AnswerIsHonest(known: Vectors, i: nat, msg: Message)
    requires Shape(known) && Bounded(known) && i < |known|
    ensures forall m | m in Answer(known[i], msg) :: Honest(Truth(known), m)
  {
    if msg.SummaryMsg? && |msg.summary| == |known| {
      var entries := RepairFor(known[i], msg.summary, |known|);
      forall e | e in entries
        ensures e.0 < |known| && e.1 <= known[e.0][e.0]
      {
        RepairCarries(known[i], msg.summary, |known|, e);
      }
    }
  }

  // What one step may do to the vectors: counts never fall, and an own count rises only by its
  // owner's own increment.
  ghost predicate Grows(known: Vectors, known': Vectors, a: Act)
    requires Shape(known)
  {
    && Shape(known') && |known'| == |known|
    && (forall i, j | 0 <= i < |known| && 0 <= j < |known| :: known[i][j] <= known'[i][j])
    && (forall j | 0 <= j < |known| :: known'[j][j] == known[j][j] + if a.LocalInc? && a.i == j then a.val else 0)
  }

  lemma StepKeepsInv(s: Sys, a: Act, s': Sys)
    requires Inv(s) && Step(s, a, s')
    ensures Inv(s') && Grows(s.known, s'.known, a)
  {
    if a.Receive? {
      LearnIsBounded(s.known, a.i, a.msg);
      AnswerIsHonest(s.known, a.i, a.msg);
      assert Truth(s'.known) == Truth(s.known);
    } else {
      forall msg | msg in s.net
        ensures Honest(Truth(s'.known), msg)
      {
        assert Honest(Truth(s.known), msg);
      }
    }
  }

  lemma {:induction false} RunKeepsInv(states: seq<Sys>, acts: seq<Act>, n: nat)
    requires Run(states, acts) && n < |states|
    ensures Inv(states[n])
    ensures n > 0 ==> Grows(states[n - 1].known, states[n].known, acts[n - 1])
  {
    if n > 0 {
      RunKeepsInv(states, acts, n - 1);
      StepKeepsInv(states[n - 1], acts[n - 1], states[n]);
    }
  }

  // ---------------------------------------------------------------- totals

  // Pointwise order: the same vector, or a smaller total.
  lemma {:induction false} SmallerSum(a: seq<int>, b: seq<int>)
    requires |a| == |b| && forall j | 0 <= j < |a| :: a[j] <= b[j]
    ensures SumSeq(a) <= SumSeq(b)
    ensures SumSeq(a) == SumSeq(b) <==> a == b
  {
    if a != [] {
      SmallerSum(a[..|a| - 1], b[..|b| - 1]);
      assert a == a[..|a| - 1] + [a[|a| - 1]] && b == b[..|b| - 1] + [b[|b| - 1]];
    }
  }

  // A total read anywhere never exceeds the ground truth, and it equals the ground truth only
  // where the whole vector does.
  lemma TotalIsTruth(states: seq<Sys>, acts: seq<Act>, n: nat, i: nat)
    requires Run(states, acts) && n < |states| && i < |states[n].known|
    ensures Inv(states[n])
    ensures SumSeq(states[n].known[i]) <= SumSeq(Truth(states[n].known))
    ensures SumSeq(states[n].known[i]) == SumSeq(Truth(states[n].known)) <==>
            states[n].known[i] == Truth(states[n].known)
  {
    RunKeepsInv(states, acts, n);
    SmallerSum(states[n].known[i], Truth(states[n].known));
  }

  // The ground truth that the evaluation adds up from the recorded increments is the total of the own counts.
  function Created(acts: seq<Act>): int {
    if acts == [] then 0
    else Created(acts[..|acts| - 1]) + if acts[|acts| - 1].LocalInc? then acts[|acts| - 1].val else 0
  }

  lemma {:induction false} SumOfUpdate(a: seq<int>, i: nat, x: int)
    requires i < |a|
    ensures SumSeq(a[i := x]) == SumSeq(a) - a[i] + x
  {
    var n := |a| - 1;
    if i < n {
      SumOfUpdate(a[..n], i, x);
      assert a[i := x][..n] == a[..n][i := x];
    } else {
      assert a[i := x][..n] == a[..n];
    }
  }

  lemma {:induction false} ZeroSum(a: seq<int>)
    requires forall j | 0 <= j < |a| :: a[j] == 0
    ensures SumSeq(a) == 0
  {
    if a != [] {
      ZeroSum(a[..|a| - 1]);
    }
  }

  lemma {:induction false} TruthIsCreated(states: seq<Sys>, acts: seq<Act>, n: nat)
    requires Run(states, acts) && n < |states|
    ensures Shape(states[n].known) && SumSeq(Truth(states[n].known)) == Created(acts[..n])
  {
    RunKeepsInv(states, acts, n);
    assert Shape(states[n].known);
    if n == 0 {
      ZeroSum(Truth(states[0].known));
    } else {
      TruthIsCreated(states, acts, n - 1);
      RunKeepsInv(states, acts, n - 1);
      assert Grows(states[n - 1].known, states[n].known, acts[n - 1]);
      assert acts[n - 1].i < |states[n - 1].known|;
      hide Inv, Run, Step, Grows, SumSeq, Truth;
      TruthGrows(states[n - 1].known, states[n].known, acts[n - 1]);
      assert acts[..n][..n - 1] == acts[..n - 1] && acts[..n][n - 1] == acts[n - 1];
    }
  }

  lemma TruthGrows(known: Vectors, known': Vectors, a: Act)
    requires Shape(known) && Grows(known, known', a) && a.i < |known|
    ensures SumSeq(Truth(known')) == SumSeq(Truth(known)) + if a.LocalInc? then a.val else 0
  {
    var before := Truth(known);
    if a.LocalInc? {
      SumOfUpdate(before, a.i, before[a.i] + a.val);
      assert Truth(known') == before[a.i := before[a.i] + a.val];
    } else {
      assert Truth(known') == before;
    }
  }

  // ---------------------------------------------------------------- convergence

  // What the first n nodes are still missing, over all indices.
  function Missing(known: Vectors, n: nat): int
    requires Shape(known) && n <= |known|
  {
    if n == 0 then 0 else Missing(known, n - 1) + SumSeq(Truth(known)) - SumSeq(known[n - 1])
  }

  function Deficit(known: Vectors): int
    requires Shape(known)
  {
    Missing(known, |known|)
  }

  ghost predicate Between(known: Vectors, known': Vectors)
    requires Shape(known)
  {
    && Shape(known') && |known'| == |known| && Truth(known') == Truth(known)
    && forall i, j | 0 <= i < |known| && 0 <= j < |known| :: known[i][j] <= known'[i][j]
  }

  lemma {:induction false} MissingShrinks(known: Vectors, known': Vectors, n: nat)
    requires Shape(known) && Between(known, known') && n <= |known|
    ensures Missing(known', n) <= Missing(known, n)
    ensures Missing(known', n) == Missing(known, n) <==> known'[..n] == known[..n]
  {
    if n > 0 {
      MissingShrinks(known, known', n - 1);
      SmallerSum(known[n - 1], known'[n - 1]);
      assert known[..n] == known[..n - 1] + [known[n - 1]] && known'[..n] == known'[..n - 1] + [known'[n - 1]];
    }
  }

  // The deficit is never negative, and nothing is missing exactly when every vector is the truth.
  lemma {:induction false} MissingNothing(known: Vectors, n: nat)
    requires Shape(known) && Bounded(known) && n <= |known|
    ensures Missing(known, n) >= 0
    ensures Missing(known, n) == 0 <==> forall i | 0 <= i < n :: known[i] == Truth(known)
  {
    if n > 0 {
      MissingNothing(known, n - 1);
      SmallerSum(known[n - 1], Truth(known));
    }
  }

  // Once local operations stop, the truth stands still and no step raises the deficit; it falls
  // whenever a vector changes.
  lemma DeficitNeverRises(s: Sys, a: Act, s': Sys)
    requires Inv(s) && Step(s, a, s') && !a.LocalInc?
    ensures Inv(s') && Truth(s'.known) == Truth(s.known)
    ensures 0 <= Deficit(s'.known) <= Deficit(s.known)
    ensures Deficit(s'.known) == Deficit(s.known) <==> s'.known == s.known
  {
    StepKeepsInv(s, a, s');
    assert Truth(s'.known) == Truth(s.known);
    MissingShrinks(s.known, s'.known, |s.known|);
    MissingNothing(s'.known, |s'.known|);
    assert s.known[..|s.known|] == s.known && s'.known[..|s.known|] == s'.known;
  }

  ghost predicate Follows(s: Sys, acts: seq<Act>, s': Sys) {
    if acts == [] then s' == s
    else exists m: Sys :: Shape(m.known) && Follows(s, acts[..|acts| - 1], m) && Step(m, acts[|acts| - 1], s')
  }

  ghost predicate Quiet(acts: seq<Act>) {
    forall a | a in acts :: !a.LocalInc?
  }

  lemma FollowsOne(s: Sys, acts: seq<Act>, m: Sys, a: Act, s': Sys)
    requires Follows(s, acts, m) && Shape(m.known) && Step(m, a, s')
    ensures Follows(s, acts + [a], s')
  {
    assert (acts + [a])[..|acts|] == acts;
  }

  lemma {:induction false} FollowsOn(s: Sys, acts: seq<Act>, m: Sys, more: seq<Act>, s': Sys)
    requires Follows(s, acts, m) && Follows(m, more, s')
    ensures Follows(s, acts + more, s')
  {
    hide Step;
    if more == [] {
      assert acts + more == acts;
    } else {
      var n := |more| - 1;
      var last: Sys :| Shape(last.known) && Follows(m, more[..n], last) && Step(last, more[n], s');
      FollowsOn(s, acts, m, more[..n], last);
      FollowsOne(s, acts + more[..n], last, more[n], s');
      assert acts + more == acts + more[..n] + [more[n]];
    }
  }

  lemma {:induction false} QuietKeepsInv(s: Sys, acts: seq<Act>, s': Sys)
    requires Inv(s) && Quiet(acts) && Follows(s, acts, s')
    ensures Inv(s') && Truth(s'.known) == Truth(s.known) && Deficit(s'.known) <= Deficit(s.known)
  {
    if acts != [] {
      var n := |acts| - 1;
      var m: Sys :| Shape(m.known) && Follows(s, acts[..n], m) && Step(m, acts[n], s');
      QuietKeepsInv(s, acts[..n], m);
      DeficitNeverRises(m, acts[n], s');
    }
  }

  // ---- one exchange

  function Deliver(s: Sys, i: nat, msg: Message): Sys
    requires Shape(s.known) && i < |s.known|
  {
    Sys(s.known[i := Learn(s.known[i], msg)], s.net + Answer(s.known[i], msg))
  }

  // b's repair of a, delivered to a.
  function RepairOf(s: Sys, from: nat, to: nat): Message
    requires Shape(s.known) && from < |s.known| && to < |s.known|
  {
    RepairMsg(RepairFor(s.known[from], s.known[to], |s.known|))
  }

  // The deliveries of one exchange: a's summary to b, then what the handlers send back.
  function Exchange(s: Sys, a: nat, b: nat): (acts: seq<Act>)
    requires Shape(s.known) && a < |s.known| && b < |s.known|
    ensures 1 <= |acts| <= 3
    ensures acts[0] == Receive(b, SummaryMsg(s.known[a]))
  {
    [Receive(b, SummaryMsg(s.known[a]))] +
    match RelationOf(s.known[b], s.known[a])
    case Equal => []
    case LocalNewer => [Receive(a, RepairOf(s, b, a))]
    case Concurrent => [Receive(a, RepairOf(s, b, a))]
    case RemoteNewer => [Receive(a, SummaryMsg(s.known[b])), Receive(b, RepairOf(s, a, b))]
  }

  // A repair for a vector that lags in some count changes that vector.
  lemma RepairTeaches(local: Summary, remote: Summary)
    requires |local| == |remote| <= 0x1_0000_0000 && Exceeds(local, remote)
    ensures Learn(remote, RepairMsg(RepairFor(local, remote, |local|))) != remote
  {
    var i :| 0 <= i < |local| && local[i] > remote[i];
    RepairCarries(local, remote, |local|, (i, local[i]));
    MergedIsMax(remote, RepairFor(local, remote, |local|), i);
  }

  lemma DifferentExceeds(x: Summary, y: Summary)
    requires |x| == |y| && x != y
    ensures Exceeds(x, y) || Exceeds(y, x)
  {
    var i :| 0 <= i < |x| && x[i] != y[i];
    assert x[i] > y[i] || y[i] > x[i];
  }

  // A run of acts without local operations, which never raises the deficit.
  ghost predicate Leads(s: Sys, acts: seq<Act>, s': Sys)
    requires Shape(s.known)
  {
    && Quiet(acts) && Follows(s, acts, s')
    && Inv(s') && Truth(s'.known) == Truth(s.known) && Deficit(s'.known) <= Deficit(s.known)
  }

  ghost predicate Advances(s: Sys, acts: seq<Act>, s': Sys)
    requires Shape(s.known)
  {
    Leads(s, acts, s') && Deficit(s'.known) < Deficit(s.known)
  }

  lemma OneMore(s: Sys, acts: seq<Act>, m: Sys, a: Act, s': Sys)
    requires Shape(s.known) && Leads(s, acts, m) && Step(m, a, s') && !a.LocalInc?
    ensures Leads(s, acts + [a], s') && Inv(s')
    ensures s'.known != m.known ==> Advances(s, acts + [a], s')
  {
    FollowsOne(s, acts, m, a, s');
    DeficitNeverRises(m, a, s');
  }

  lemma LeadsOn(s: Sys, acts: seq<Act>, m: Sys, more: seq<Act>, s': Sys)
    requires Shape(s.known) && Leads(s, acts, m) && Advances(m, more, s')
    ensures Advances(s, acts + more, s')
  {
    FollowsOn(s, acts, m, more, s');
  }

  // Delivering a repair in the network that changes its receiver's vector.
  lemma RepairTold(s: Sys, acts: seq<Act>, m: Sys, from: nat, to: nat)
    requires Shape(s.known) && Leads(s, acts, m) && m.known == s.known
    requires from < |s.known| && to < |s.known|
    requires RepairOf(s, from, to) in m.net && Learn(s.known[to], RepairOf(s, from, to)) != s.known[to]
    ensures exists s' :: Advances(s, acts + [Receive(to, RepairOf(s, from, to))], s')
  {
    var a, s' := Receive(to, RepairOf(s, from, to)), Deliver(m, to, RepairOf(s, from, to));
    assert s'.known[to] != m.known[to];
    OneMore(s, acts, m, a, s');
  }

  lemma LeadsNowhere(s: Sys)
    requires Inv(s)
    ensures Leads(s, [], s)
  {
  }

  // Delivering a summary teaches nothing yet.
  lemma SummaryHeard(s: Sys, acts: seq<Act>, m: Sys, from: nat, to: nat)
    requires Shape(s.known) && Leads(s, acts, m) && m.known == s.known
    requires from < |s.known| && to < |s.known| && SummaryMsg(s.known[from]) in m.net
    ensures Leads(s, acts + [Receive(to, SummaryMsg(s.known[from]))], Deliver(m, to, SummaryMsg(s.known[from])))
    ensures Deliver(m, to, SummaryMsg(s.known[from])).known == s.known
  {
    var a, s' := Receive(to, SummaryMsg(s.known[from])), Deliver(m, to, SummaryMsg(s.known[from]));
    OneMore(s, acts, m, a, s');
  }

  lemma AnsweredByRepair(s: Sys, a: nat, b: nat)
    requires Inv(s) && a < |s.known| && b < |s.known| && SummaryMsg(s.known[a]) in s.net
    requires Exceeds(s.known[b], s.known[a])
    ensures exists s' :: Advances(s, Exchange(s, a, b), s')
  {
    var heard, s1 := Receive(b, SummaryMsg(s.known[a])), Deliver(s, b, SummaryMsg(s.known[a]));
    assert Exchange(s, a, b) == [heard] + [Receive(a, RepairOf(s, b, a))];
    assert RepairOf(s, b, a) in Answer(s.known[b], SummaryMsg(s.known[a]));
    RepairTeaches(s.known[b], s.known[a]);
    hide Inv, Leads, Advances, RepairFor, Exceeds, Learn, RelationOf, Exchange;
    LeadsNowhere(s);
    SummaryHeard(s, [], s, a, b);
    assert [] + [heard] == [heard];
    RepairTold(s, [heard], s1, b, a);
  }

  lemma AnsweredByRequest(s: Sys, a: nat, b: nat)
    requires Inv(s) && a < |s.known| && b < |s.known| && SummaryMsg(s.known[a]) in s.net
    requires Exceeds(s.known[a], s.known[b]) && !Exceeds(s.known[b], s.known[a])
    ensures exists s' :: Advances(s, Exchange(s, a, b), s')
  {
    var heard, asked := Receive(b, SummaryMsg(s.known[a])), Receive(a, SummaryMsg(s.known[b]));
    var s1 := Deliver(s, b, SummaryMsg(s.known[a]));
    var s2 := Deliver(s1, a, SummaryMsg(s.known[b]));
    assert Exchange(s, a, b) == [heard, asked] + [Receive(b, RepairOf(s, a, b))];
    assert SummaryMsg(s.known[b]) in Answer(s.known[b], SummaryMsg(s.known[a]));
    assert RepairOf(s, a, b) in Answer(s.known[a], SummaryMsg(s.known[b]));
    RepairTeaches(s.known[a], s.known[b]);
    hide Inv, Leads, Advances, RepairFor, Exceeds, Learn, RelationOf, Exchange;
    LeadsNowhere(s);
    SummaryHeard(s, [], s, a, b);
    assert [] + [heard] == [heard] && [heard] + [asked] == [heard, asked];
    SummaryHeard(s, [heard], s1, b, a);
    RepairTold(s, [heard, asked], s2, a, b);
  }

  // Delivering one node's summary to another with a different vector, and then at most two of the
  // packets the handlers answer with, strictly lowers the deficit.
  lemma ExchangeProgress(s: Sys, a: nat, b: nat)
    requires Inv(s) && a < |s.known| && b < |s.known| && s.known[a] != s.known[b]
    requires SummaryMsg(s.known[a]) in s.net
    ensures exists s' :: Advances(s, Exchange(s, a, b), s')
  {
    DifferentExceeds(s.known[a], s.known[b]);
    if Exceeds(s.known[b], s.known[a]) {
      AnsweredByRepair(s, a, b);
    } else {
      AnsweredByRequest(s, a, b);
    }
  }

  // Every later packet of an exchange is one that the delivery before it made the receiver send.
  lemma ExchangeAnswers(s: Sys, a: nat, b: nat)
    requires Shape(s.known) && a < |s.known| && b < |s.known|
    ensures |Exchange(s, a, b)| > 1 ==> Exchange(s, a, b)[1].msg in Answer(s.known[b], Exchange(s, a, b)[0].msg)
    ensures |Exchange(s, a, b)| > 2 ==> Exchange(s, a, b)[2].msg in Answer(s.known[a], Exchange(s, a, b)[1].msg)
    ensures |Exchange(s, a, b)| == 1 <==> s.known[a] == s.known[b]
  {
    if s.known[a] != s.known[b] {
      DifferentExceeds(s.known[a], s.known[b]);
    }
  }

  function Announced(s: Sys, a: nat): Sys
    requires a < |s.known|
  {
    s.(net := s.net + [SummaryMsg(s.known[a])])
  }

  lemma AnnounceLeads(s: Sys, a: nat)
    requires Inv(s) && a < |s.known|
    ensures Leads(s, [Announce(a)], Announced(s, a)) && Inv(Announced(s, a))
  {
    assert Step(s, Announce(a), Announced(s, a));
    hide Leads;
    LeadsNowhere(s);
    OneMore(s, [], s, Announce(a), Announced(s, a));
    assert [] + [Announce(a)] == [Announce(a)];
  }

  lemma Disagreement(s: Sys)
    requires Shape(s.known) && !Settled(s)
    ensures exists a, b :: 0 <= a < |s.known| && 0 <= b < |s.known| && s.known[a] != s.known[b]
  {
    var b :| 0 <= b < |s.known| && s.known[b] != Truth(s.known);
    var a :| 0 <= a < |s.known| && s.known[b][a] != Truth(s.known)[a];
    assert s.known[a] != s.known[b];
  }

  lemma NextRound(s: Sys)
    requires Inv(s) && !Settled(s)
    ensures exists acts, s' :: |acts| <= 4 && Advances(s, acts, s')
  {
    Disagreement(s);
    var a, b :| 0 <= a < |s.known| && 0 <= b < |s.known| && s.known[a] != s.known[b];
    hide *;
    var s' := RoundBetween(s, a, b);
  }

  lemma RoundBetween(s: Sys, a: nat, b: nat) returns (s': Sys)
    requires Inv(s) && a < |s.known| && b < |s.known| && s.known[a] != s.known[b]
    ensures Advances(s, [Announce(a)] + Exchange(Announced(s, a), a, b), s')
    ensures |[Announce(a)] + Exchange(Announced(s, a), a, b)| <= 4
  {
    var s1 := Announced(s, a);
    assert s1.known == s.known && Shape(s.known);
    hide *;
    AnnounceLeads(s, a);
    RoundFrom(s, a, b);
    s' :| Advances(s1, Exchange(s1, a, b), s');
    LeadsOn(s, [Announce(a)], s1, Exchange(s1, a, b), s');
  }

  lemma RoundFrom(s: Sys, a: nat, b: nat)
    requires Inv(s) && a < |s.known| && b < |s.known| && s.known[a] != s.known[b] && Inv(Announced(s, a))
    ensures exists s2 :: Advances(Announced(s, a), Exchange(Announced(s, a), a, b), s2)
  {
    hide Inv, Advances, Exchange;
    ExchangeProgress(Announced(s, a), a, b);
  }

  // Every node knows every count.
  ghost predicate Settled(s: Sys)
    requires Shape(s.known)
  {
    forall i | 0 <= i < |s.known| :: s.known[i] == Truth(s.known)
  }

  lemma SettledIffNoDeficit(s: Sys)
    requires Inv(s)
    ensures Deficit(s.known) >= 0
    ensures Settled(s) <==> Deficit(s.known) == 0
  {
    MissingNothing(s.known, |s.known|);
  }

  // Acts without local operations, at most four for each missing count, after which every node
  // knows the truth that stood in s.
  ghost predicate Settles(s: Sys, acts: seq<Act>, s': Sys)
    requires Shape(s.known)
  {
    && Quiet(acts) && Follows(s, acts, s') && |acts| <= 4 * Deficit(s.known)
    && Shape(s'.known) && Truth(s'.known) == Truth(s.known) && Settled(s')
  }

  // From every state a run can reach, once local operations stop, at most as many exchanges as the
  // deficit (each one announcement and three deliveries) bring every node to the truth.
  lemma {:induction false} Converges(s: Sys)
    requires Inv(s)
    ensures exists acts, s' :: Settles(s, acts, s')
    decreases Deficit(s.known)
  {
    SettledIffNoDeficit(s);
    if Settled(s) {
      assert Settles(s, [], s);
    } else {
      NextRound(s);
      var round, s2 :| |round| <= 4 && Advances(s, round, s2);
      SettledIffNoDeficit(s2);
      Converges(s2);
      var acts, s' :| Settles(s2, acts, s');
      FollowsOn(s, round, s2, acts, s');
      assert Settles(s, round + acts, s');
    }
  }
}
