// The byte form of a grow-only counter: an 8-byte entry count, then per entry an 8-byte key length,
// the key, and a 4-byte value. All numbers are little-endian.
module CounterCodec {
  import opened Basics
  import opened Bytes

  type Key = seq<byte>
  type KeyValue = (Key, int32)

  // Lengths are written as size_t.
  ghost predicate Sizes(es: seq<KeyValue>) {
    |es| < Pow256(8) && forall e | e in es :: |e.0| < Pow256(8)
  }

  function EntryBytes(e: KeyValue): seq<byte> {
    LE(|e.0|, 8) + e.0 + LE(ToBits(e.1), 4)
  }

  function EntriesBytes(es: seq<KeyValue>): seq<byte> {
    if es == [] then [] else EntryBytes(es[0]) + EntriesBytes(es[1..])
  }

  function CounterBytes(es: seq<KeyValue>): seq<byte> {
    LE(|es|, 8) + EntriesBytes(es)
  }

  lemma {:induction false} EntriesSnoc(es: seq<KeyValue>, e: KeyValue)
    ensures EntriesBytes(es + [e]) == EntriesBytes(es) + EntryBytes(e)
  {
    if es == [] {
      assert (es + [e])[1..] == [];
    } else {
      assert (es + [e])[1..] == es[1..] + [e];
      EntriesSnoc(es[1..], e);
    }
  }

  // The map left by storing the entries one after the other; a repeated key keeps its last value.
  function Stored(es: seq<KeyValue>): map<Key, int32> {
    if es == [] then map[]
    else Stored(es[..|es| - 1])[es[|es| - 1].0 := es[|es| - 1].1]
  }

  lemma StoredSnoc(es: seq<KeyValue>, e: KeyValue)
    ensures Stored(es + [e]) == Stored(es)[e.0 := e.1]
  {
    assert (es + [e])[..|es|] == es;
  }

  // The keys are those of the entries, and each has the value of its last entry.
  lemma {:induction false} StoredIsLast(es: seq<KeyValue>, i: nat)
    requires i < |es| && forall j | i < j < |es| :: es[j].0 != es[i].0
    ensures es[i].0 in Stored(es) && Stored(es)[es[i].0] == es[i].1
    ensures forall k | k in Stored(es) :: exists j :: 0 <= j < |es| && es[j].0 == k
  {
    StoredKeys(es);
    if i < |es| - 1 {
      StoredIsLast(es[..|es| - 1], i);
    }
  }

  lemma {:induction false} StoredKeys(es: seq<KeyValue>)
    ensures forall k | k in Stored(es) :: exists j :: 0 <= j < |es| && es[j].0 == k
  {
    if es != [] {
      var n := |es| - 1;
      var front := es[..n];
      StoredKeys(front);
      forall k | k in Stored(es)
        ensures exists j :: 0 <= j < |es| && es[j].0 == k
      {
        if k == es[n].0 {
          assert es[n].0 == k;
        } else {
          assert k in Stored(front);
          var j :| 0 <= j < |front| && front[j].0 == k;
          assert es[j].0 == k;
        }
      }
    }
  }

  // ---------------------------------------------------------------- reading

  function TakeEntry(s: seq<byte>): (r: Option<(KeyValue, seq<byte>)>)
    ensures r.Some? ==> |r.value.1| < |s|
  {
    if |s| < 8 then None
    else
      var keyLen := FromLE(s[..8]);
      if |s| < 8 + keyLen + 4 then None
      else
        ValueFits(s[8 + keyLen..8 + keyLen + 4]);
        Some(((s[8..8 + keyLen], ToInt32(FromLE(s[8 + keyLen..8 + keyLen + 4]))), s[8 + keyLen + 4..]))
  }

  lemma ValueFits(s: seq<byte>)
    requires |s| == 4
    ensures FromLE(s) < 0x1_0000_0000
  {
    WriteRead(s);
    PowersOf256();
  }

  function TakeEntries(s: seq<byte>, n: nat): Option<(seq<KeyValue>, seq<byte>)> {
    if n == 0 then Some(([], s))
    else
      match TakeEntry(s)
      case None => None
      case Some((e, rest)) =>
        match TakeEntries(rest, n - 1)
        case None => None
        case Some((es, rest')) => Some(([e] + es, rest'))
  }

  // What deserialize returns; None where the source reads past the end of its input and the value
  // it goes on with is not determined.
  function Decoded(data: seq<byte>): Option<map<Key, int32>> {
    if |data| < 8 then Some(map[])
    else
      match TakeEntries(data[8..], FromLE(data[..8]))
      case None => None
      case Some((es, rest)) => Some(Stored(es))
  }

  lemma TakeBuiltEntry(e: KeyValue, rest: seq<byte>)
    requires |e.0| < Pow256(8)
    ensures TakeEntry(EntryBytes(e) + rest) == Some((e, rest))
  {
    hide LE, FromLE, Pow256;
    var s, k := EntryBytes(e) + rest, |e.0|;
    assert s[..8] == LE(k, 8);
    ReadWritten(k, 8);
    assert s[8..8 + k] == e.0;
    assert s[8 + k..8 + k + 4] == LE(ToBits(e.1), 4);
    WordReadBack(ToBits(e.1));
    assert s[8 + k + 4..] == rest;
  }

  lemma {:induction false} TakeBuiltEntries(es: seq<KeyValue>, rest: seq<byte>)
    requires Sizes(es)
    ensures TakeEntries(EntriesBytes(es) + rest, |es|) == Some((es, rest))
    decreases es
  {
    hide TakeEntry, EntryBytes;
    if es == [] {
      assert EntriesBytes(es) + rest == rest;
    } else {
      TakeBuiltEntries(es[1..], rest);
      TakeBuiltEntry(es[0], EntriesBytes(es[1..]) + rest);
      assert EntriesBytes(es) + rest == EntryBytes(es[0]) + (EntriesBytes(es[1..]) + rest);
      assert es == [es[0]] + es[1..];
    }
  }

  lemma TakenEntryIsBuilt(s: seq<byte>)
    requires TakeEntry(s).Some?
    ensures s == EntryBytes(TakeEntry(s).value.0) + TakeEntry(s).value.1
    ensures |TakeEntry(s).value.0.0| < Pow256(8)
  {
    hide LE, FromLE, Pow256;
    var k := FromLE(s[..8]);
    WriteRead(s[..8]);
    WriteRead(s[8 + k..8 + k + 4]);
    ValueFits(s[8 + k..8 + k + 4]);
    assert s == s[..8] + s[8..8 + k] + s[8 + k..8 + k + 4] + s[8 + k + 4..];
  }

  lemma {:induction false} TakenEntriesAreBuilt(s: seq<byte>, n: nat)
    requires TakeEntries(s, n).Some?
    ensures var (es, rest) := TakeEntries(s, n).value;
            s == EntriesBytes(es) + rest && |es| == n && forall e | e in es :: |e.0| < Pow256(8)
    decreases n
  {
    hide TakeEntry, EntryBytes, LE, FromLE, Pow256;
    if n > 0 {
      TakenEntryIsBuilt(s);
      var (e, rest) := TakeEntry(s).value;
      TakenEntriesAreBuilt(rest, n - 1);
      var (es, rest') := TakeEntries(rest, n - 1).value;
      assert ([e] + es)[1..] == es;
      assert EntriesBytes([e] + es) + rest' == EntryBytes(e) + (EntriesBytes(es) + rest');
    }
  }

  // ---------------------------------------------------------------- round trips

  // Some listing of the entries of m, each key once.
  ghost predicate Lists(es: seq<KeyValue>, m: map<Key, int32>) {
    Stored(es) == m && |es| == |m|
  }

  // Decoding what was encoded gives the counter back, whatever the keys and whatever follows.
  lemma DecodeEncoded(es: seq<KeyValue>, m: map<Key, int32>, rest: seq<byte>)
    requires Lists(es, m) && Sizes(es)
    ensures Decoded(CounterBytes(es) + rest) == Some(m)
  {
    StoredBack(es, rest);
  }

  lemma StoredBack(es: seq<KeyValue>, rest: seq<byte>)
    requires Sizes(es)
    ensures Decoded(CounterBytes(es) + rest) == Some(Stored(es))
  {
    hide LE, FromLE, Pow256, EntriesBytes, Stored;
    var data := CounterBytes(es) + rest;
    assert data[..8] == LE(|es|, 8);
    assert data[8..] == EntriesBytes(es) + rest;
    ReadWritten(|es|, 8);
    TakeBuiltEntries(es, rest);
  }

  // And whatever decodes is an encoding, followed by bytes that are ignored, or too short for a count.
  lemma DecodedWasEncoded(data: seq<byte>)
    requires Decoded(data).Some? && |data| >= 8
    ensures exists es: seq<KeyValue>, rest: seq<byte> ::
              Sizes(es) && data == CounterBytes(es) + rest && Decoded(data) == Some(Stored(es))
  {
    hide LE, FromLE, Pow256, EntriesBytes, Stored;
    var n := FromLE(data[..8]);
    WriteRead(data[..8]);
    TakenEntriesAreBuilt(data[8..], n);
    var (es, rest) := TakeEntries(data[8..], n).value;
    assert data == data[..8] + data[8..];
    assert data == CounterBytes(es) + rest;
  }

  // So data with a whole count decodes exactly when it begins with an encoding; without one it stands
  // for the empty counter.
  lemma DecodesExactly(data: seq<byte>)
    ensures |data| < 8 ==> Decoded(data) == Some(map[])
    ensures |data| >= 8 ==> (Decoded(data).Some? <==>
              exists es: seq<KeyValue>, rest: seq<byte> :: Sizes(es) && data == CounterBytes(es) + rest)
  {
    if |data| >= 8 {
      if Decoded(data).Some? {
        DecodedWasEncoded(data);
      }
      hide Decoded, CounterBytes;
      forall es: seq<KeyValue>, rest: seq<byte> | Sizes(es) && data == CounterBytes(es) + rest
        ensures Decoded(data).Some?
      {
        StoredBack(es, rest);
      }
    }
  }

  // ---------------------------------------------------------------- the layout

  // An entry: the length of the key in eight bytes, the key, the value modulo 2^32 in four bytes.
  lemma EntryLayout(e: KeyValue)
    requires |e.0| < Pow256(8)
    ensures var out, k := EntryBytes(e), |e.0|;
            && |out| == 8 + k + 4 && FromLE(out[..8]) == k && out[8..8 + k] == e.0
            && FromLE(out[8 + k..]) == e.1 % 0x1_0000_0000
  {
    var out, k := EntryBytes(e), |e.0|;
    hide LE, FromLE, Pow256;
    assert out[..8] == LE(k, 8) && out[8..8 + k] == e.0 && out[8 + k..] == LE(ToBits(e.1), 4);
    ReadWritten(k, 8);
    WordReadBack(ToBits(e.1));
  }

  lemma {:induction false} EntriesAppend(es: seq<KeyValue>, more: seq<KeyValue>)
    ensures EntriesBytes(es + more) == EntriesBytes(es) + EntriesBytes(more)
  {
    if es == [] {
      assert es + more == more;
    } else {
      EntriesAppend(es[1..], more);
      assert (es + more)[1..] == es[1..] + more;
      Assoc(EntryBytes(es[0]), EntriesBytes(es[1..]), EntriesBytes(more), []);
    }
  }

  // The encoding: the number of entries in eight bytes, and each entry right after those before it.
  lemma CounterLayout(before: seq<KeyValue>, e: KeyValue, after: seq<KeyValue>)
    requires |before| + 1 + |after| < Pow256(8)
    ensures var out, start := CounterBytes(before + [e] + after), 8 + |EntriesBytes(before)|;
            && FromLE(out[..8]) == |before| + 1 + |after|
            && start + |EntryBytes(e)| <= |out| && out[start..start + |EntryBytes(e)|] == EntryBytes(e)
  {
    var es := before + [e] + after;
    EntriesAppend(before + [e], after);
    EntriesSnoc(before, e);
    hide EntriesBytes, EntryBytes, LE, FromLE, Pow256;
    var out, n := CounterBytes(es), |EntriesBytes(before)|;
    assert out[..8] == LE(|es|, 8);
    ReadWritten(|es|, 8);
    assert out == LE(|es|, 8) + (EntriesBytes(before) + EntryBytes(e) + EntriesBytes(after));
  }

  // ---------------------------------------------------------------- the code

  method AppendEntry(out: seq<byte>, k: Key, v: int32) returns (r: seq<byte>)
    ensures r == out + EntryBytes((k, v))
  {
    hide LE;
    r := AppendBytes(out, |k|, 8);
    r := r + k;
    r := AppendBytes(r, ToBits(v), 4);
  }

  // The part of m the iteration has passed.
  ghost function Passed(m: map<Key, int32>, rest: set<Key>): map<Key, int32> {
    map k | k in m && k !in rest :: m[k]
  }

  lemma PassedStep(m: map<Key, int32>, rest: set<Key>, k: Key)
    requires k in rest && rest <= m.Keys
    ensures Passed(m, rest - {k}) == Passed(m, rest)[k := m[k]]
  {
  }

  lemma PassedAll(m: map<Key, int32>)
    ensures Passed(m, {}) == m
  {
  }

  // The bytes written so far list the entries passed so far.
  ghost predicate Written(m: map<Key, int32>, rest: set<Key>, head: seq<byte>, data: seq<byte>, order: seq<KeyValue>) {
    && rest <= m.Keys && |order| + |rest| == |m|
    && data == head + EntriesBytes(order)
    && Stored(order) == Passed(m, rest)
  }

  lemma WrittenStep(m: map<Key, int32>, rest: set<Key>, head: seq<byte>, data: seq<byte>, order: seq<KeyValue>, k: Key)
    requires Written(m, rest, head, data, order) && k in rest
    ensures Written(m, rest - {k}, head, data + EntryBytes((k, m[k])), order + [(k, m[k])])
  {
    hide EntriesBytes, EntryBytes, Stored, Passed;
    EntriesSnoc(order, (k, m[k]));
    StoredSnoc(order, (k, m[k]));
    PassedStep(m, rest, k);
    Assoc(head, EntriesBytes(order), EntryBytes((k, m[k])), []);
  }

  // The map and its keys are no longer than a size_t can say.
  ghost predicate SizesFit(m: map<Key, int32>) {
    |m| < Pow256(8) && forall k | k in m :: |k| < Pow256(8)
  }

  lemma {:induction false} StoredKey(es: seq<KeyValue>, i: nat)
    requires i < |es|
    ensures es[i].0 in Stored(es)
  {
    if i < |es| - 1 {
      StoredKey(es[..|es| - 1], i);
    }
  }

  lemma ListedBack(order: seq<KeyValue>, m: map<Key, int32>)
    requires Lists(order, m) && SizesFit(m)
    ensures Decoded(CounterBytes(order)) == Some(m)
  {
    hide Stored, Decoded, CounterBytes;
    forall i | 0 <= i < |order|
      ensures |order[i].0| < Pow256(8)
    {
      StoredKey(order, i);
    }
    DecodeEncoded(order, m, []);
    assert CounterBytes(order) + [] == CounterBytes(order);
  }

  // Writes the map out, in some order: the one the map iterates in.
  method Serialize(m: map<Key, int32>) returns (data: seq<byte>)
    ensures exists order :: Lists(order, m) && data == CounterBytes(order)
    ensures SizesFit(m) ==> Decoded(data) == Some(m)
  {
    data := AppendBytes([], |m|, 8);
    ghost var head := data;
    ghost var order: seq<KeyValue> := [];
    var rest := m.Keys;
    assert Written(m, rest, head, data, order);
    PassedAll(m);
    hide EntriesBytes, EntryBytes, Stored, Passed, LE, SizesFit, Decoded;
    while rest != {}
      invariant Written(m, rest, head, data, order)
      decreases rest
    {
      var k :| k in rest;
      WrittenStep(m, rest, head, data, order, k);
      data := AppendEntry(data, k, m[k]);
      order := order + [(k, m[k])];
      rest := rest - {k};
    }
    assert Lists(order, m) && data == CounterBytes(order);
    if SizesFit(m) {
      ListedBack(order, m);
    }
  }

  method Deserialize(data: seq<byte>) returns (r: Option<map<Key, int32>>)
    ensures r == Decoded(data)
    ensures |data| < 8 ==> r == Some(map[])
  {
    if |data| < 8 {
      return Some(map[]);
    }
    var mapSize := FromLE(data[..8]);
    var temp: map<Key, int32> := map[];
    ghost var done: seq<KeyValue> := [];
    var s := data[8..];
    var i := 0;
    assert forall es: seq<KeyValue> :: done + es == es;
    while i < mapSize
      invariant 0 <= i <= mapSize
      invariant temp == Stored(done)
      invariant TakeEntries(data[8..], mapSize) ==
                match TakeEntries(s, mapSize - i)
                case None => None
                case Some((es, rest)) => Some((done + es, rest))
    {
      var entry := TakeEntry(s);
      if entry.None? {
        return None;
      }
      var (e, rest) := entry.value;
      StoredSnoc(done, e);
      assert forall es: seq<KeyValue> :: done + ([e] + es) == (done + [e]) + es;
      temp := temp[e.0 := e.1];
      done := done + [e];
      s := rest;
      i := i + 1;
    }
    assert done + [] == done;
    r := Some(temp);
  }
}
