// The summary and repair packets of the Trickle application.
module Codecs {
  import opened Basics
  import opened Bytes

  const MT_SUMMARY: byte := 1
  const MT_REPAIR: byte := 2

  type Summary = seq<uint32>
  type Pair = (uint32, uint32)

  // ---------------------------------------------------------------- lists of 32-bit words

  function Words(ws: seq<uint32>): (s: seq<byte>)
    ensures |s| == 4 * |ws|
  {
    if ws == [] then [] else LE(ws[0], 4) + Words(ws[1..])
  }

  lemma {:induction false} WordsSnoc(ws: seq<uint32>, w: uint32)
    ensures Words(ws + [w]) == Words(ws) + LE(w, 4)
  {
    if ws == [] {
      assert (ws + [w])[1..] == [];
    } else {
      assert (ws + [w])[1..] == ws[1..] + [w];
      WordsSnoc(ws[1..], w);
    }
  }

  lemma {:induction false} WordAt(ws: seq<uint32>, i: nat)
    requires i < |ws|
    ensures Words(ws)[4 * i..4 * i + 4] == LE(ws[i], 4)
  {
    if i > 0 {
      WordAt(ws[1..], i - 1);
      assert Words(ws)[4 * i..4 * i + 4] == Words(ws[1..])[4 * (i - 1)..4 * (i - 1) + 4];
    }
  }

  // The words a byte string of the right length stands for.
  function WordsOf(s: seq<byte>): (ws: seq<uint32>)
    requires |s| % 4 == 0
    ensures |ws| == |s| / 4
  {
    if s == [] then []
    else
      WriteRead(s[..4]);
      PowersOf256();
      [FromLE(s[..4])] + WordsOf(s[4..])
  }

  lemma {:induction false} WordsRead(ws: seq<uint32>)
    ensures WordsOf(Words(ws)) == ws
  {
    if ws != [] {
      var s := Words(ws);
      assert s[..4] == LE(ws[0], 4) && s[4..] == Words(ws[1..]);
      WordReadBack(ws[0]);
      WordsRead(ws[1..]);
    }
  }

  lemma {:induction false} WordsWritten(s: seq<byte>)
    requires |s| % 4 == 0
    ensures Words(WordsOf(s)) == s
  {
    if s != [] {
      PowersOf256();
      WriteRead(s[..4]);
      WordsWritten(s[4..]);
      assert WordsOf(s)[1..] == WordsOf(s[4..]);
      assert s == s[..4] + s[4..];
    }
  }

  // Reads count words starting at offset `from`.
  method ReadWords(data: seq<byte>, from: nat, count: nat) returns (ws: seq<uint32>)
    requires from + 4 * count == |data|
    ensures ws == WordsOf(data[from..])
    ensures Words(ws) == data[from..]
  {
    WordsWritten(data[from..]);
    ghost var all := WordsOf(data[from..]);
    assert |all| == count;
    hide LE, FromLE, Words, WordsOf;
    ws := [];
    var p := from;
    for i := 0 to count
      invariant p == from + 4 * i
      invariant ws == all[..i]
    {
      WordBytes(data[from..], all, i);
      assert data[from..][4 * i..][..4] == data[p..][..4];
      var w := ReadUint32(data[p..]);
      ws := ws + [w];
      p := p + 4;
    }
  }

  // ---------------------------------------------------------------- summary packets

  function SummaryBytes(summary: Summary): seq<byte> {
    [MT_SUMMARY] + LE(|summary|, 4) + Words(summary)
  }

  method BuildSummaryPacket(summary: Summary) returns (out: seq<byte>)
    requires |summary| < 0x1_0000_0000
    ensures out == SummaryBytes(summary)
  {
    out := [MT_SUMMARY];
    out := AppendUint32(out, |summary|);
    ghost var head := out;
    for i := 0 to |summary|
      invariant out == head + Words(summary[..i])
    {
      WordsSnoc(summary[..i], summary[i]);
      Assoc(head, Words(summary[..i]), LE(summary[i], 4), []);
      assert summary[..i + 1] == summary[..i] + [summary[i]];
      out := AppendUint32(out, summary[i]);
    }
    assert summary[..|summary|] == summary;
  }

  lemma Fields(tag: byte, a: seq<byte>, b: seq<byte>)
    ensures ([tag] + a + b)[1..] == a + b
    ensures (a + b)[..|a|] == a && (a + b)[|a|..] == b
  {
  }

  // The count field and the length of anything that reads like a built packet.
  lemma SummaryShape(summary: Summary, data: seq<byte>)
    requires |summary| < 0x1_0000_0000 && data != []
    requires data[1..] == SummaryBytes(summary)[1..]
    ensures |data| == 5 + 4 * |summary|
    ensures FromLE(data[1..][..4]) == |summary|
    ensures data[5..] == Words(summary)
  {
    hide LE, FromLE, Words;
    Fields(MT_SUMMARY, LE(|summary|, 4), Words(summary));
    WordReadBack(|summary|);
    assert data[5..] == data[1..][4..];
  }

  ghost predicate NoSummary(data: seq<byte>, expectedCount: uint32) {
    forall summary: Summary | |summary| == expectedCount && data != [] :: data[1..] != SummaryBytes(summary)[1..]
  }

  lemma Rejected(data: seq<byte>, expectedCount: uint32)
    requires |data| < 5 || FromLE(data[1..][..4]) != expectedCount || |data| != 5 + 4 * expectedCount as nat
    ensures NoSummary(data, expectedCount)
  {
    forall summary: Summary | |summary| == expectedCount && data != [] && data[1..] == SummaryBytes(summary)[1..]
      ensures false
    {
      SummaryShape(summary, data);
    }
  }

  ghost predicate SummaryAnswer(data: seq<byte>, expectedCount: uint32, r: Option<Summary>) {
    match r
    case Some(summary) => |summary| == expectedCount && data != [] && data[1..] == SummaryBytes(summary)[1..]
    case None => NoSummary(data, expectedCount)
  }

  // The packet is accepted exactly when everything after the type byte is that of a built packet
  // with the expected number of entries, and then its entries are returned.
  method ParseSummaryPacket(data: seq<byte>, expectedCount: uint32) returns (r: Option<Summary>)
    ensures SummaryAnswer(data, expectedCount, r)
  {
    hide LE, FromLE, Words, WordsOf;
    if |data| < 1 + 4 {
      Rejected(data, expectedCount);
      return None;
    }
    var count: nat := ReadUint32(data[1..]);
    if count != expectedCount {
      Rejected(data, expectedCount);
      return None;
    }
    if |data| != 1 + 4 + count * 4 {
      Rejected(data, expectedCount);
      return None;
    }
    var out := ReadWords(data, 5, count);
    CountField(data);
    assert data[1..] == data[1..5] + data[5..];
    assert SummaryBytes(out)[1..] == LE(|out|, 4) + Words(out);
    r := Some(out);
  }

  // The four bytes after the type byte are the count field.
  lemma CountField(data: seq<byte>)
    requires |data| >= 5
    ensures data[1..][..4] == data[1..5] == LE(FromLE(data[1..5]), 4)
  {
    WriteRead(data[1..5]);
  }

  lemma SummaryBytesOnce(x: Summary, y: Summary)
    requires |x| < 0x1_0000_0000 && |y| < 0x1_0000_0000
    requires SummaryBytes(x)[1..] == SummaryBytes(y)[1..]
    ensures x == y
  {
    Fields(MT_SUMMARY, LE(|x|, 4), Words(x));
    Fields(MT_SUMMARY, LE(|y|, 4), Words(y));
    WordsRead(x);
    WordsRead(y);
  }

  // What the parser answers for a built packet is what it was built from.
  lemma SummaryRoundTrip(summary: Summary, r: Option<Summary>)
    requires |summary| < 0x1_0000_0000
    requires SummaryAnswer(SummaryBytes(summary), |summary|, r)
    ensures r == Some(summary)
  {
    if r.Some? {
      SummaryBytesOnce(summary, r.value);
    }
  }

  // ---------------------------------------------------------------- repair packets

  function Flat(entries: seq<Pair>): (ws: seq<uint32>)
    ensures |ws| == 2 * |entries|
  {
    if entries == [] then [] else [entries[0].0, entries[0].1] + Flat(entries[1..])
  }

  function Paired(ws: seq<uint32>): (entries: seq<Pair>)
    requires |ws| % 2 == 0
    ensures |entries| == |ws| / 2
  {
    if ws == [] then [] else [(ws[0], ws[1])] + Paired(ws[2..])
  }

  lemma {:induction false} FlatSnoc(entries: seq<Pair>, e: Pair)
    ensures Flat(entries + [e]) == Flat(entries) + [e.0, e.1]
  {
    if entries == [] {
      assert (entries + [e])[1..] == [];
    } else {
      assert (entries + [e])[1..] == entries[1..] + [e];
      FlatSnoc(entries[1..], e);
    }
  }

  lemma {:induction false} PairedFlat(entries: seq<Pair>)
    ensures Paired(Flat(entries)) == entries
  {
    if entries != [] {
      PairedFlat(entries[1..]);
      assert Flat(entries)[2..] == Flat(entries[1..]);
    }
  }

  lemma {:induction false} FlatPaired(ws: seq<uint32>)
    requires |ws| % 2 == 0
    ensures Flat(Paired(ws)) == ws
  {
    if ws != [] {
      FlatPaired(ws[2..]);
      assert Paired(ws)[1..] == Paired(ws[2..]);
      assert ws == [ws[0], ws[1]] + ws[2..];
    }
  }

  lemma {:induction false} PairedAt(ws: seq<uint32>, i: nat)
    requires |ws| % 2 == 0 && 2 * i + 1 < |ws|
    ensures Paired(ws)[i] == (ws[2 * i], ws[2 * i + 1])
  {
    if i > 0 {
      PairedAt(ws[2..], i - 1);
    }
  }

  function RepairBytes(entries: seq<Pair>): seq<byte> {
    [MT_REPAIR] + LE(|entries|, 4) + Words(Flat(entries))
  }

  lemma RepairSnoc(entries: seq<Pair>, e: Pair)
    ensures Words(Flat(entries + [e])) == Words(Flat(entries)) + LE(e.0, 4) + LE(e.1, 4)
  {
    FlatSnoc(entries, e);
    WordsSnoc(Flat(entries), e.0);
    WordsSnoc(Flat(entries) + [e.0], e.1);
    assert Flat(entries) + [e.0] + [e.1] == Flat(entries) + [e.0, e.1];
  }

  method BuildRepairPacket(entries: seq<Pair>) returns (out: seq<byte>)
    requires |entries| < 0x1_0000_0000
    ensures out == RepairBytes(entries)
  {
    out := [MT_REPAIR];
    out := AppendUint32(out, |entries|);
    ghost var head := out;
    for i := 0 to |entries|
      invariant out == head + Words(Flat(entries[..i]))
    {
      ghost var e := entries[i];
      assert entries[..i + 1] == entries[..i] + [e];
      RepairSnoc(entries[..i], e);
      Assoc(head, Words(Flat(entries[..i])), LE(e.0, 4), LE(e.1, 4));
      out := AppendUint32(out, entries[i].0);
      out := AppendUint32(out, entries[i].1);
    }
    assert entries[..|entries|] == entries;
  }

  lemma RepairShape(entries: seq<Pair>, data: seq<byte>)
    requires |entries| < 0x1_0000_0000 && data != []
    requires data[1..] == RepairBytes(entries)[1..]
    ensures |data| == 5 + 8 * |entries|
    ensures FromLE(data[1..][..4]) == |entries|
  {
    var body := RepairBytes(entries)[1..];
    assert body[..4] == LE(|entries|, 4) && body[4..] == Words(Flat(entries));
    WordReadBack(|entries|);
  }

  ghost predicate NoRepair(data: seq<byte>) {
    forall entries: seq<Pair> | |entries| < 0x1_0000_0000 && data != [] :: data[1..] != RepairBytes(entries)[1..]
  }

  lemma RepairRejected(data: seq<byte>)
    requires |data| < 5 || |data| != 5 + 8 * FromLE(data[1..][..4])
    ensures NoRepair(data)
  {
    forall entries: seq<Pair> | |entries| < 0x1_0000_0000 && data != [] && data[1..] == RepairBytes(entries)[1..]
      ensures false
    {
      RepairShape(entries, data);
    }
  }

  // The i-th pair sits at offset 5 + 8 * i.
  lemma PairBytes(data: seq<byte>, count: nat, ws: seq<uint32>, i: nat)
    requires |data| == 5 + 8 * count && |ws| == 2 * count && data[5..] == Words(ws) && i < count
    ensures FromLE(data[5 + 8 * i..][..4]) == Paired(ws)[i].0
    ensures FromLE(data[5 + 8 * i + 4..][..4]) == Paired(ws)[i].1
  {
    hide LE, FromLE, Words, Paired;
    PairedAt(ws, i);
    WordBytes(data[5..], ws, 2 * i);
    WordBytes(data[5..], ws, 2 * i + 1);
    assert data[5 + 8 * i..][..4] == data[5..][4 * (2 * i)..][..4];
    assert data[5 + 8 * i + 4..][..4] == data[5..][4 * (2 * i + 1)..][..4];
  }

  lemma NextPair(data: seq<byte>, count: nat, ws: seq<uint32>, i: nat, idx: uint32, value: uint32)
    requires |data| == 5 + 8 * count && |ws| == 2 * count && data[5..] == Words(ws) && i < count
    requires idx == FromLE(data[5 + 8 * i..][..4]) && value == FromLE(data[5 + 8 * i + 4..][..4])
    ensures Paired(ws)[..i + 1] == Paired(ws)[..i] + [(idx, value)]
  {
    hide FromLE, Words, Paired;
    PairBytes(data, count, ws, i);
    assert Paired(ws)[i] == (idx, value);
  }

  // Reads count (index, value) pairs starting at offset 5.
  method ReadPairs(data: seq<byte>, count: nat) returns (out: seq<Pair>)
    requires |data| == 5 + 8 * count
    ensures |out| == count && Words(Flat(out)) == data[5..]
  {
    ghost var ws := WordsOf(data[5..]);
    WordsWritten(data[5..]);
    FlatPaired(ws);
    ghost var all := Paired(ws);
    assert |all| == count && Words(Flat(all)) == data[5..];
    hide LE, FromLE, Words, WordsOf, Flat, Paired;
    out := [];
    var p := 5;
    for i := 0 to count
      invariant p == 5 + 8 * i
      invariant out == all[..i]
    {
      var idx := ReadUint32(data[p..]);
      p := p + 4;
      var value := ReadUint32(data[p..]);
      p := p + 4;
      NextPair(data, count, ws, i, idx, value);
      out := out + [(idx, value)];
    }
    assert out == all;
  }

  ghost predicate RepairAnswer(data: seq<byte>, r: Option<seq<Pair>>) {
    match r
    case Some(entries) => |entries| < 0x1_0000_0000 && data != [] && data[1..] == RepairBytes(entries)[1..]
    case None => NoRepair(data)
  }

  method ParseRepairPacket(data: seq<byte>) returns (r: Option<seq<Pair>>)
    ensures RepairAnswer(data, r)
  {
    if |data| < 1 + 4 {
      RepairRejected(data);
      return None;
    }
    var count: nat := ReadUint32(data[1..]);
    if |data| != 1 + 4 + count * 8 {
      RepairRejected(data);
      return None;
    }
    var out := ReadPairs(data, count);
    CountField(data);
    assert data[1..] == data[1..5] + data[5..];
    assert RepairBytes(out)[1..] == LE(|out|, 4) + Words(Flat(out));
    r := Some(out);
  }

  lemma WordBytes(s: seq<byte>, ws: seq<uint32>, i: nat)
    requires s == Words(ws) && i < |ws|
    ensures FromLE(s[4 * i..][..4]) == ws[i]
  {
    hide Words, LE, FromLE;
    WordAt(ws, i);
    assert s[4 * i..][..4] == s[4 * i..4 * i + 4];
    WordReadBack(ws[i]);
  }

  lemma RepairBytesOnce(x: seq<Pair>, y: seq<Pair>)
    requires |x| < 0x1_0000_0000 && |y| < 0x1_0000_0000
    requires RepairBytes(x)[1..] == RepairBytes(y)[1..]
    ensures x == y
  {
    Fields(MT_REPAIR, LE(|x|, 4), Words(Flat(x)));
    Fields(MT_REPAIR, LE(|y|, 4), Words(Flat(y)));
    WordsRead(Flat(x));
    WordsRead(Flat(y));
    PairedFlat(x);
    PairedFlat(y);
  }

  // What the parser answers for a built packet is what it was built from.
  lemma RepairRoundTrip(entries: seq<Pair>, r: Option<seq<Pair>>)
    requires |entries| < 0x1_0000_0000
    requires RepairAnswer(RepairBytes(entries), r)
    ensures r == Some(entries)
  {
    if r.Some? {
      RepairBytesOnce(entries, r.value);
    }
  }

  // ---------------------------------------------------------------- the layout on the wire

  lemma SliceAt<T>(s: seq<T>, from: nat, at: nat, n: nat)
    requires from + at + n <= |s|
    ensures s[from..][at..][..n] == s[from + at..from + at + n]
  {
  }

  // A summary packet: 1, the number of counts, and the counts in order, each in four bytes.
  lemma SummaryLayout(summary: Summary, i: nat)
    requires i < |summary| < 0x1_0000_0000
    ensures var out := SummaryBytes(summary);
            && out[0] == 1 && |out| == 5 + 4 * |summary| && FromLE(out[1..5]) == |summary|
            && FromLE(out[5 + 4 * i..9 + 4 * i]) == summary[i]
  {
    var out := SummaryBytes(summary);
    SummaryShape(summary, out);
    hide LE, FromLE, Words;
    WordBytes(Words(summary), summary, i);
    assert out[1..5] == out[1..][..4];
    SliceAt(out, 5, 4 * i, 4);
  }

  lemma {:induction false} FlatAt(entries: seq<Pair>, i: nat)
    requires i < |entries|
    ensures Flat(entries)[2 * i] == entries[i].0 && Flat(entries)[2 * i + 1] == entries[i].1
  {
    if i > 0 {
      FlatAt(entries[1..], i - 1);
    }
  }

  // A repair packet: 2, the number of pairs, and the pairs in order, index before count.
  lemma RepairLayout(entries: seq<Pair>, i: nat)
    requires i < |entries| < 0x1_0000_0000
    ensures var out := RepairBytes(entries);
            && out[0] == 2 && |out| == 5 + 8 * |entries| && FromLE(out[1..5]) == |entries|
            && FromLE(out[5 + 8 * i..9 + 8 * i]) == entries[i].0
            && FromLE(out[9 + 8 * i..13 + 8 * i]) == entries[i].1
  {
    var out, ws := RepairBytes(entries), Flat(entries);
    RepairShape(entries, out);
    FlatAt(entries, i);
    hide LE, FromLE, Flat;
    WordBytes(Words(ws), ws, 2 * i);
    WordBytes(Words(ws), ws, 2 * i + 1);
    assert out[5..] == Words(ws);
    assert out[1..5] == out[1..][..4];
    SliceAt(out, 5, 4 * (2 * i), 4);
    SliceAt(out, 5, 4 * (2 * i + 1), 4);
  }

  // ---------------------------------------------------------------- dispatch

  // What the receiver makes of a packet.
  datatype Content = Ignored | SummaryOf(summary: Summary) | RepairOf(entries: seq<Pair>)

  ghost predicate Understood(data: seq<byte>, expectedCount: uint32, r: Content) {
    match r
    case SummaryOf(summary) => data != [] && data[0] == 1 && SummaryAnswer(data, expectedCount, Some(summary))
    case RepairOf(entries) => data != [] && data[0] == 2 && entries != [] && RepairAnswer(data, Some(entries))
    case Ignored =>
      && (data != [] && data[0] == 1 ==> SummaryAnswer(data, expectedCount, None))
      && (data != [] && data[0] == 2 ==> RepairAnswer(data, None) || RepairAnswer(data, Some([])))
  }

  // The first byte picks the parser; a repair without entries is dropped.
  method Understand(data: seq<byte>, expectedCount: uint32) returns (r: Content)
    ensures Understood(data, expectedCount, r)
  {
    hide SummaryAnswer, RepairAnswer;
    r := Ignored;
    if |data| <= 0 {
      return;
    }
    if data[0] == MT_SUMMARY {
      var summary := ParseSummaryPacket(data, expectedCount);
      if summary.Some? {
        r := SummaryOf(summary.value);
      }
    } else if data[0] == MT_REPAIR {
      var entries := ParseRepairPacket(data);
      if entries.Some? && entries.value != [] {
        r := RepairOf(entries.value);
      }
    }
  }

  // So a built packet is taken for what it is, and for what was put into it.
  lemma SummaryUnderstood(summary: Summary, r: Content)
    requires |summary| < 0x1_0000_0000 && Understood(SummaryBytes(summary), |summary|, r)
    ensures r == SummaryOf(summary)
  {
    hide SummaryAnswer, RepairAnswer;
    var answer := if r.SummaryOf? then Some(r.summary) else None;
    SummaryRoundTrip(summary, answer);
  }

  lemma RepairUnderstood(entries: seq<Pair>, expectedCount: uint32, r: Content)
    requires |entries| < 0x1_0000_0000 && Understood(RepairBytes(entries), expectedCount, r)
    ensures r == if entries == [] then Ignored else RepairOf(entries)
  {
    hide SummaryAnswer, RepairAnswer;
    var data := RepairBytes(entries);
    if r.RepairOf? {
      RepairRoundTrip(entries, Some(r.entries));
    } else if RepairAnswer(data, None) {
      RepairRoundTrip(entries, None);
    } else {
      RepairRoundTrip(entries, Some([]));
    }
  }
}
