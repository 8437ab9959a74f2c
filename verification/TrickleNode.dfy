// One node of the Trickle application: the vector of known counts beside the G-counter that must
// agree with it, and the code that changes both.
module TrickleNodes {
  import opened Basics
  import opened Bytes
  import opened Sums
  import opened Codecs
  import opened CounterCodec
  import Counters

  const INT_LIMIT: int := 0x8000_0000

  // ---------------------------------------------------------------- merging a repair

  // Entries are taken one by one; those out of range or not newer are skipped.
  function Merged(known: seq<uint32>, entries: seq<Pair>): (r: seq<uint32>)
    ensures |r| == |known|
  {
    if entries == [] then known
    else
      var so_far, e := Merged(known, entries[..|entries| - 1]), entries[|entries| - 1];
      if e.0 < |so_far| && e.1 > so_far[e.0] then so_far[e.0 := e.1] else so_far
  }

  function Applied(known: seq<uint32>, entries: seq<Pair>): seq<Pair> {
    if entries == [] then []
    else
      var so_far, e := Merged(known, entries[..|entries| - 1]), entries[|entries| - 1];
      Applied(known, entries[..|entries| - 1]) + if e.0 < |so_far| && e.1 > so_far[e.0] then [e] else []
  }

  // Each count becomes the largest of what was known and what the packet says about it, whatever
  // the order and repetition of the entries.
  lemma {:induction false} MergedIsMax(known: seq<uint32>, entries: seq<Pair>, i: nat)
    requires i < |known|
    ensures Merged(known, entries)[i] >= known[i]
    ensures forall e | e in entries && e.0 == i :: Merged(known, entries)[i] >= e.1
    ensures Merged(known, entries)[i] == known[i] || (i, Merged(known, entries)[i]) in entries
  {
    if entries != [] {
      MergedIsMax(known, entries[..|entries| - 1], i);
      assert entries == entries[..|entries| - 1] + [entries[|entries| - 1]];
    }
  }

  // What an entry leaves is never smaller than what it found.
  lemma {:induction false} MergedGrows(known: seq<uint32>, before: seq<Pair>, e: Pair, i: nat)
    requires i < |known|
    ensures Merged(known, before + [e])[i] >= Merged(known, before)[i] >= known[i]
  {
    assert (before + [e])[..|before|] == before;
    MergedIsMax(known, before, i);
  }

  lemma {:induction false} AppliedEntry(known: seq<uint32>, entries: seq<Pair>, a: Pair)
    requires a in Applied(known, entries)
    ensures a in entries && a.0 < |known| && Merged(known, entries)[a.0] >= a.1 > known[a.0]
  {
    var before, e := entries[..|entries| - 1], entries[|entries| - 1];
    assert entries == before + [e];
    if a in Applied(known, before) {
      AppliedEntry(known, before, a);
      MergedGrows(known, before, e, a.0);
    } else {
      MergedIsMax(known, before, a.0);
    }
  }

  lemma {:induction false} AppliedNothing(known: seq<uint32>, entries: seq<Pair>)
    ensures Applied(known, entries) == [] <==> Merged(known, entries) == known
    ensures |Applied(known, entries)| <= |entries|
    ensures forall a | a in Applied(known, entries) ::
              a in entries && a.0 < |known| && Merged(known, entries)[a.0] >= a.1 > known[a.0]
  {
    forall a | a in Applied(known, entries)
      ensures a in entries && a.0 < |known| && Merged(known, entries)[a.0] >= a.1 > known[a.0]
    {
      AppliedEntry(known, entries, a);
    }
    if entries != [] {
      AppliedNothing(known, entries[..|entries| - 1]);
    }
    if Applied(known, entries) != [] {
      assert Applied(known, entries)[0] in Applied(known, entries);
    }
  }

  // ---------------------------------------------------------------- agreement

  // The names of the nodes: decimal numerals of their indices.
  ghost function Names(n: nat): set<Key> {
    set i | 0 <= i < n :: Decimal(i)
  }

  // The G-counter holds, under the decimal name of each index, exactly the known count.
  ghost predicate Agree(known: seq<uint32>, m: map<Key, int>) {
    && m.Keys <= Names(|known|)
    && forall i | 0 <= i < |known| :: Val(m, Decimal(i)) == known[i]
  }

  function SumSeq(s: seq<int>): int {
    if s == [] then 0 else SumSeq(s[..|s| - 1]) + s[|s| - 1]
  }

  // Then reading the counter is adding up the vector.
  lemma AgreeingRead(known: seq<uint32>, m: map<Key, int>)
    requires Agree(known, m)
    ensures Total(m) == SumSeq(known)
  {
    TotalOver(m, Names(|known|));
    SumOfNames(known, m, |known|);
    assert known[..|known|] == known;
  }

  lemma {:induction false} SumOfNames(known: seq<uint32>, m: map<Key, int>, n: nat)
    requires n <= |known|
    requires forall i | 0 <= i < |known| :: Val(m, Decimal(i)) == known[i]
    ensures Sum(Names(n), k => Val(m, k)) == SumSeq(known[..n])
  {
    var f := k => Val(m, k);
    if n == 0 {
      assert Names(0) == {};
    } else {
      SumOfNames(known, m, n - 1);
      forall i | 0 <= i < n - 1
        ensures Decimal(i) != Decimal(n - 1)
      {
        if Decimal(i) == Decimal(n - 1) {
          DecimalInjective(i, n - 1);
        }
      }
      assert Names(n) - {Decimal(n - 1)} == Names(n - 1);
      SumRemove(Names(n), f, Decimal(n - 1));
      assert known[..n][..n - 1] == known[..n - 1];
    }
  }

  // ---------------------------------------------------------------- repairs keep agreement

  function Encoded(entries: seq<Pair>): (es: seq<KeyValue>)
    ensures |es| == |entries|
  {
    seq(|entries|, i requires 0 <= i < |entries| => (Decimal(entries[i].0), ToInt32(entries[i].1)))
  }

  ghost function Repaired(known: seq<uint32>, m: map<Key, int>, entries: seq<Pair>): map<Key, int> {
    Counters.JoinMax(m, Stored(Encoded(Applied(known, entries))))
  }

  // What the applied entries store: the merged count of every index that changed, as an int.
  ghost predicate StoredOk(known: seq<uint32>, merged: seq<uint32>, stored: map<Key, int32>) {
    && |merged| == |known|
    && stored.Keys <= Names(|known|)
    && forall i | 0 <= i < |known| ::
         && (Decimal(i) in stored <==> merged[i] != known[i])
         && (Decimal(i) in stored ==> stored[Decimal(i)] == ToInt32(merged[i]))
  }

  lemma StoredOkStep(known: seq<uint32>, merged: seq<uint32>, stored: map<Key, int32>, idx: nat, value: uint32)
    requires StoredOk(known, merged, stored)
    requires idx < |known| && value > merged[idx] >= known[idx]
    ensures StoredOk(known, merged[idx := value], stored[Decimal(idx) := ToInt32(value)])
  {
    assert Decimal(idx) in Names(|known|);
    forall i | 0 <= i < |known| && i != idx
      ensures Decimal(i) != Decimal(idx)
    {
      if Decimal(i) == Decimal(idx) {
        DecimalInjective(i, idx);
      }
    }
  }

  lemma {:induction false} StoredApplied(known: seq<uint32>, entries: seq<Pair>)
    ensures StoredOk(known, Merged(known, entries), Stored(Encoded(Applied(known, entries))))
  {
    if entries != [] {
      var before, e := entries[..|entries| - 1], entries[|entries| - 1];
      StoredApplied(known, before);
      var merged, applied := Merged(known, before), Applied(known, before);
      if e.0 < |merged| && e.1 > merged[e.0] {
        EncodedSnoc(applied, e);
        StoredSnoc(Encoded(applied), (Decimal(e.0), ToInt32(e.1)));
        MergedIsMax(known, before, e.0);
        StoredOkStep(known, merged, Stored(Encoded(applied)), e.0, e.1);
      } else {
        assert Applied(known, entries) == applied;
      }
    }
  }

  lemma EncodedSnoc(entries: seq<Pair>, e: Pair)
    ensures Encoded(entries + [e]) == Encoded(entries) + [(Decimal(e.0), ToInt32(e.1))]
  {
  }

  // Nothing in the packet that concerns a known index exceeds an int.
  ghost predicate IntCounts(known: seq<uint32>, entries: seq<Pair>) {
    forall e | e in entries && e.0 < |known| :: e.1 < INT_LIMIT
  }

  ghost predicate AllBelow(counts: seq<uint32>) {
    forall i | 0 <= i < |counts| :: counts[i] < INT_LIMIT
  }

  lemma MergedBelow(known: seq<uint32>, entries: seq<Pair>)
    requires AllBelow(known)
    ensures AllBelow(Merged(known, entries)) <==> IntCounts(known, entries)
  {
    var merged := Merged(known, entries);
    if IntCounts(known, entries) {
      forall i | 0 <= i < |merged|
        ensures merged[i] < INT_LIMIT
      {
        MergedIsMax(known, entries, i);
        var e := (i, merged[i]);
        assert e in entries ==> e.1 < INT_LIMIT;
      }
    }
    if AllBelow(merged) {
      forall e | e in entries && e.0 < |known|
        ensures e.1 < INT_LIMIT
      {
        MergedIsMax(known, entries, e.0);
      }
    }
  }

  // From an agreeing node, a repair leaves it agreeing exactly when the packet's counts fit an int.
  lemma RepairKeepsAgreement(known: seq<uint32>, m: map<Key, int>, entries: seq<Pair>)
    requires Agree(known, m) && AllBelow(known)
    ensures Agree(Merged(known, entries), Repaired(known, m, entries)) <==> IntCounts(known, entries)
  {
    var known', m' := Merged(known, entries), Repaired(known, m, entries);
    StoredApplied(known, entries);
    forall i | 0 <= i < |known|
      ensures Val(m', Decimal(i)) == known'[i] <==> known'[i] < INT_LIMIT
    {
      MergedIsMax(known, entries, i);
    }
    MergedBelow(known, entries);
  }

  // ---------------------------------------------------------------- local operations

  // A local operation counts under the node's configured name but writes the vector at its index:
  // it keeps agreement exactly when that name is the plain decimal numeral of the index.
  lemma LocalOpAgreement(known: seq<uint32>, m: map<Key, int>, id: Key, index: nat, val: nat)
    requires Agree(known, m) && index < |known|
    requires val >= 1 && Val(m, id) + val < INT_LIMIT
    ensures Val(m, id) >= 0
    ensures Agree(known[index := Val(m, id) + val], m[id := Val(m, id) + val]) <==> id == Decimal(index)
  {
    var count := Val(m, id) + val;
    var known', m' := known[index := count], m[id := count];
    if id == Decimal(index) {
      forall i | 0 <= i < |known'|
        ensures Val(m', Decimal(i)) == known'[i]
      {
        if i != index && Decimal(i) == Decimal(index) {
          DecimalInjective(i, index);
        }
      }
    } else if id in Names(|known|) {
      var j :| 0 <= j < |known| && id == Decimal(j);
      assert Val(m', Decimal(j)) != known'[j];
    }
  }

  const ULONG_LIMIT: int := 0x1_0000_0000_0000_0000

  function IsSpace(b: byte): bool {
    b == 32 || 9 <= b <= 13
  }

  function SkipSpaces(s: seq<byte>): seq<byte> {
    if s != [] && IsSpace(s[0]) then SkipSpaces(s[1..]) else s
  }

  predicate AllDigits(s: seq<byte>) {
    forall i | 0 <= i < |s| :: 48 <= s[i] <= 57
  }

  // The index a configured name stands for: std::stoul skips spaces, takes a sign, wraps a negative
  // number and refuses one of more than 64 bits; the name must be used up; the cast keeps 32 bits.
  ghost function ParseNodeIndex(id: Key): Option<uint32> {
    var s := SkipSpaces(id);
    var signed := s != [] && (s[0] == 43 || s[0] == 45);
    var digits := if signed then s[1..] else s;
    var v := FromDecimal(digits);
    if digits == [] || !AllDigits(digits) || !(0 <= v < ULONG_LIMIT) then None
    else if signed && s[0] == 45 then Some((ULONG_LIMIT - v) % 0x1_0000_0000)
    else Some(v % 0x1_0000_0000)
  }

  lemma {:induction false} DecimalDigits(n: nat)
    ensures AllDigits(Decimal(n))
  {
    if n >= 10 {
      DecimalDigits(n / 10);
    }
  }

  // A plain numeral is accepted when it fits 64 bits, and then stands for its lowest 32 bits.
  lemma NumeralIsCut(v: nat)
    ensures ParseNodeIndex(Decimal(v)) == if v < 0x1_0000_0000_0000_0000 then Some(v % 0x1_0000_0000) else None
  {
    hide Decimal, FromDecimal;
    DecimalDigits(v);
    DecimalRoundTrip(v);
    var id := Decimal(v);
    assert 48 <= id[0] <= 57;
    assert SkipSpaces(id) == id;
  }

  // So the canonical name of every index is accepted for that index.
  lemma CanonicalIsAccepted(index: uint32)
    ensures ParseNodeIndex(Decimal(index)) == Some(index)
  {
    hide ParseNodeIndex, Decimal;
    NumeralIsCut(index);
  }

  lemma {:induction false} SpacesSkipped(spaces: seq<byte>, s: seq<byte>)
    requires forall i | 0 <= i < |spaces| :: spaces[i] == 32 || 9 <= spaces[i] <= 13
    requires s != [] && !IsSpace(s[0])
    ensures SkipSpaces(spaces + s) == s
  {
    if spaces == [] {
      assert spaces + s == s;
    } else {
      assert (spaces + s)[1..] == spaces[1..] + s;
      SpacesSkipped(spaces[1..], s);
    }
  }

  // Spaces and a sign in front are accepted too; a minus takes the number from 2^64, so that -1 stands
  // for the largest index there is.
  lemma SignedNumeralIsAccepted(spaces: seq<byte>, v: nat)
    requires v < 0x1_0000_0000_0000_0000
    requires forall i | 0 <= i < |spaces| :: spaces[i] == 32 || 9 <= spaces[i] <= 13
    ensures ParseNodeIndex(spaces + ([43] + Decimal(v))) == Some(v % 0x1_0000_0000)
    ensures ParseNodeIndex(spaces + ([45] + Decimal(v))) == Some((0x1_0000_0000_0000_0000 - v) % 0x1_0000_0000)
  {
    hide Decimal, FromDecimal, SkipSpaces;
    DecimalDigits(v);
    DecimalRoundTrip(v);
    SpacesSkipped(spaces, [43] + Decimal(v));
    SpacesSkipped(spaces, [45] + Decimal(v));
    assert ([43] + Decimal(v))[1..] == Decimal(v) == ([45] + Decimal(v))[1..];
  }

  // And "01" is accepted: it stands for index 1, and the first local operation of a node of
  // that name breaks the agreement of its vector and its counter.
  lemma PaddedNameBreaksAgreement(known: seq<uint32>, m: map<Key, int>, val: nat)
    requires Agree(known, m) && |known| > 1 && val >= 1 && Val(m, [48, 49]) + val < INT_LIMIT
    ensures ParseNodeIndex([48, 49]) == Some(1)
    ensures Val(m, [48, 49]) >= 0
    ensures !Agree(known[1 := Val(m, [48, 49]) + val], m[[48, 49] := Val(m, [48, 49]) + val])
  {
    var id: Key := [48, 49];
    assert FromDecimal(id[..1]) == 10 * FromDecimal(id[..1][..0]) + 48 - 48;
    assert id[..1][..0] == [];
    assert FromDecimal(id) == 1;
    assert Decimal(1) == [49];
    LocalOpAgreement(known, m, id, 1, val);
  }

  // ---------------------------------------------------------------- the node

  method SerializeRepair(entries: seq<Pair>) returns (data: seq<byte>)
    ensures data == CounterBytes(Encoded(entries))
  {
    data := AppendBytes([], |entries|, 8);
    ghost var head, es := data, Encoded(entries);
    assert EntriesBytes(es[..0]) == [];
    hide LE, EntryBytes, EntriesBytes, Decimal, ToInt32;
    for i := 0 to |entries|
      invariant data == head + EntriesBytes(es[..i])
    {
      assert es[i] == (Decimal(entries[i].0), ToInt32(entries[i].1));
      assert es[..i + 1] == es[..i] + [es[i]];
      EntriesSnoc(es[..i], es[i]);
      Assoc(head, EntriesBytes(es[..i]), EntryBytes(es[i]), []);
      data := AppendEntry(data, Decimal(entries[i].0), ToInt32(entries[i].1));
    }
    assert es[..|entries|] == es;
  }

  lemma {:induction false} DecimalIsShort(n: nat)
    ensures |Decimal(n)| <= n + 1
  {
    if n >= 10 {
      DecimalIsShort(n / 10);
    }
  }

  // What the repair encoder writes is what deserialize reads back.
  lemma RepairDecodes(entries: seq<Pair>)
    requires |entries| < 0x1_0000_0000
    ensures Decoded(CounterBytes(Encoded(entries))) == Some(Stored(Encoded(entries)))
  {
    PowersOf256();
    forall i | 0 <= i < |entries|
      ensures |Encoded(entries)[i].0| < Pow256(8)
    {
      DecimalIsShort(entries[i].0);
    }
    StoredBack(Encoded(entries), []);
    assert CounterBytes(Encoded(entries)) + [] == CounterBytes(Encoded(entries));
  }

  class TrickleNode {
    var known: seq<uint32>
    const gc: Counters.GCounter<Key>
    const id: Key
    const index: nat

    // The state between two holds of the node's lock.
    ghost predicate Valid()
      reads this, gc
    {
      && gc.id == id && index < |known|
      && Agree(known, gc.m) && AllBelow(known)
    }

    constructor (name: Key, nodeIndex: nat, nodeCount: nat)
      requires nodeIndex < nodeCount
      ensures Valid() && id == name && index == nodeIndex
      ensures |known| == nodeCount && forall i | 0 <= i < nodeCount :: known[i] == 0
      ensures fresh(gc)
    {
      known := seq(nodeCount, i => 0);
      gc := new Counters.GCounter(name);
      id, index := name, nodeIndex;
    }

    method LocalOp(val: nat) returns (total: int)
      requires Valid() && val >= 1 && Val(gc.m, id) + val < INT_LIMIT
      modifies this, gc
      ensures known == old(known)[index := Val(old(gc.m), id) + val]
      ensures id == Decimal(index) ==> Valid() && known[index] == old(known)[index] + val && total == SumSeq(known)
      ensures id != Decimal(index) ==> !Valid()
    {
      LocalOpAgreement(known, gc.m, id, index, val);
      var _ := gc.Inc(val);
      var local := gc.Local();
      total := gc.Read();
      known := known[index := local];
      assert gc.m == old(gc.m)[id := Val(old(gc.m), id) + val];
      if id == Decimal(index) {
        AgreeingRead(known, gc.m);
      }
    }

    // Through the byte form: what the repair encoder writes, deserialize reads.
    method JoinApplied(applied: seq<Pair>) returns (total: int)
      requires |applied| < 0x1_0000_0000
      modifies gc
      ensures gc.m == Counters.JoinMax(old(gc.m), Stored(Encoded(applied)))
      ensures total == Total(gc.m)
    {
      var ser := SerializeRepair(applied);
      RepairDecodes(applied);
      var decoded := Deserialize(ser);
      var repairGc := new Counters.GCounter.Delta(decoded.value, []);
      gc.Join(repairGc);
      total := gc.Read();
    }

    // The entries of a repair packet under the lock: the vector first, then the G-counter through
    // the byte form of the applied entries.
    method ApplyRepair(entries: seq<Pair>) returns (anyNew: bool, total: int)
      requires Valid() && |entries| < 0x1_0000_0000
      modifies this, gc
      ensures known == Merged(old(known), entries)
      ensures anyNew <==> known != old(known)
      ensures gc.m == if anyNew then Repaired(old(known), old(gc.m), entries) else old(gc.m)
      ensures Valid() <==> IntCounts(old(known), entries)
      ensures anyNew && Valid() ==> total == SumSeq(known)
    {
      anyNew, total := false, 0;
      ghost var known0 := known;
      var applied: seq<Pair> := [];
      for i := 0 to |entries|
        invariant known == Merged(known0, entries[..i])
        invariant applied == Applied(known0, entries[..i])
        invariant anyNew <==> applied != []
        invariant gc.m == old(gc.m)
      {
        assert entries[..i + 1][..i] == entries[..i];
        var entry := entries[i];
        if entry.0 < |known| && entry.1 > known[entry.0] {
          known := known[entry.0 := entry.1];
          anyNew := true;
          applied := applied + [entry];
        }
      }
      assert entries[..|entries|] == entries;
      AppliedNothing(known0, entries);
      RepairKeepsAgreement(known0, old(gc.m), entries);
      MergedBelow(known0, entries);
      if anyNew {
        total := JoinApplied(applied);
        if Agree(known, gc.m) {
          AgreeingRead(known, gc.m);
        }
      }
    }
  }
}
