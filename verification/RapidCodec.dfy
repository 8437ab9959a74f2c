// The packets of the RAPID application: messages, lists of message ids, requests and heartbeats.
module RapidCodec {
  import opened Basics
  import opened Bytes

  const MT_DATA: byte := 1
  const MT_GOSSIP: byte := 2
  const MT_REQUEST: byte := 3
  const MT_HEARTBEAT: byte := 4

  type uint64 = x: int | 0 <= x < 0x1_0000_0000_0000_0000

  // ---------------------------------------------------------------- numbers

  lemma Wide(v: uint64)
    ensures FromLE(LE(v, 8)) == v
  {
    PowersOf256();
    ReadWritten(v, 8);
  }

  // ---------------------------------------------------------------- data packets

  function DataBody(msgid: uint64, payload: seq<byte>): seq<byte> {
    LE(msgid, 8) + LE(|payload| % 0x1_0000_0000, 4) + payload
  }

  function DataBytes(msgid: uint64, payload: seq<byte>): seq<byte> {
    [MT_DATA] + DataBody(msgid, payload)
  }

  method BuildDataPacket(msgid: uint64, payload: seq<byte>) returns (out: seq<byte>)
    ensures out == DataBytes(msgid, payload)
  {
    out := [MT_DATA];
    out := AppendBytes(out, msgid, 8);
    out := AppendBytes(out, |payload| % 0x1_0000_0000, 4);
    out := out + payload;
    Assoc([MT_DATA], LE(msgid, 8), LE(|payload| % 0x1_0000_0000, 4), payload);
  }

  // A payload of ordinary length is found again at the front of anything that begins like its packet.
  lemma DataShape(msgid: uint64, payload: seq<byte>, rest: seq<byte>)
    requires |payload| < 0x1_0000_0000 && DataBody(msgid, payload) <= rest
    ensures |rest| >= 12 + |payload|
    ensures FromLE(rest[..8]) == msgid && FromLE(rest[8..][..4]) == |payload|
    ensures rest[12..12 + |payload|] == payload
  {
    hide LE, FromLE;
    var body := DataBody(msgid, payload);
    assert |payload| % 0x1_0000_0000 == |payload|;
    assert body[..8] == LE(msgid, 8) && body[8..][..4] == LE(|payload|, 4);
    assert body[12..12 + |payload|] == payload;
    assert rest[..8] == body[..8] && rest[8..][..4] == body[8..][..4];
    Wide(msgid);
    WordReadBack(|payload|);
  }

  ghost predicate NoData(buf: seq<byte>) {
    forall msgid: uint64, payload: seq<byte> {:trigger DataBody(msgid, payload)} |
      |payload| < 0x1_0000_0000 && buf != [] :: !(DataBody(msgid, payload) <= buf[1..])
  }

  ghost predicate DataAnswer(buf: seq<byte>, r: Option<(uint64, seq<byte>)>) {
    match r
    case Some((msgid, payload)) =>
      buf != [] && |payload| < 0x1_0000_0000 && DataBody(msgid, payload) <= buf[1..]
    case None => NoData(buf)
  }

  // A packet is taken exactly when, after its type byte, it begins like a built packet; bytes after
  // the payload are ignored.
  method ParseData(buf: seq<byte>) returns (r: Option<(uint64, seq<byte>)>)
    ensures DataAnswer(buf, r)
  {
    if |buf| < 1 + 8 + 4 {
      NotData(buf);
      return None;
    }
    PowersOf256();
    hide LE, FromLE, DataBody, Pow256;
    var rest := buf[1..];
    var msgid := ReadBytes(rest, 8);
    var len := ReadBytes(rest[8..], 4);
    if 1 + 8 + 4 + len > |buf| {
      NotData(buf);
      return None;
    }
    WriteRead(rest[..8]);
    WriteRead(rest[8..][..4]);
    FoundData(rest, msgid, len);
    r := Some((msgid, rest[12..12 + len]));
  }

  lemma FoundData(rest: seq<byte>, msgid: uint64, len: uint32)
    requires |rest| >= 12 + len
    requires rest[..8] == LE(msgid, 8) && rest[8..][..4] == LE(len, 4)
    ensures DataBody(msgid, rest[12..12 + len]) <= rest
  {
    hide LE;
    var payload := rest[12..12 + len];
    assert |payload| % 0x1_0000_0000 == len;
    assert rest[..12 + len] == rest[..8] + rest[8..][..4] + payload;
  }

  lemma NotData(buf: seq<byte>)
    requires |buf| < 13 || FromLE(buf[1..][8..][..4]) > |buf| - 13
    ensures NoData(buf)
  {
    forall msgid: uint64, payload: seq<byte> |
      |payload| < 0x1_0000_0000 && buf != [] && DataBody(msgid, payload) <= buf[1..]
      ensures false
    {
      DataShape(msgid, payload, buf[1..]);
    }
  }

  // What the parser answers for a built packet, whatever bytes follow it, is what it was built from.
  lemma DataRoundTrip(msgid: uint64, payload: seq<byte>, rest: seq<byte>, r: Option<(uint64, seq<byte>)>)
    requires |payload| < 0x1_0000_0000
    requires DataAnswer(DataBytes(msgid, payload) + rest, r)
    ensures r == Some((msgid, payload))
  {
    hide LE, FromLE, DataBody;
    var buf := DataBytes(msgid, payload) + rest;
    assert buf[1..] == DataBody(msgid, payload) + rest;
    DataShape(msgid, payload, buf[1..]);
    if r.Some? {
      DataShape(r.value.0, r.value.1, buf[1..]);
    }
  }

  // ---------------------------------------------------------------- gossip packets

  function Headers(ids: seq<uint64>): (s: seq<byte>)
    ensures |s| == 8 * |ids|
  {
    if ids == [] then [] else Headers(ids[..|ids| - 1]) + LE(ids[|ids| - 1], 8)
  }

  function GossipBytes(ids: seq<uint64>): seq<byte> {
    [MT_GOSSIP] + LE(|ids| % 0x1_0000, 2) + Headers(ids)
  }

  method BuildGossipPacket(ids: seq<uint64>) returns (out: seq<byte>)
    ensures out == GossipBytes(ids)
  {
    var n := |ids| % 0x1_0000;
    out := [MT_GOSSIP, n % 256, n / 256 % 256];
    assert LE(n, 2) == [n % 256] + LE(n / 256, 1) && LE(n / 256, 1) == [n / 256 % 256] + LE(n / 256 / 256, 0);
    ghost var head := out;
    for i := 0 to |ids|
      invariant out == head + Headers(ids[..i])
    {
      assert ids[..i + 1][..i] == ids[..i];
      Assoc(head, Headers(ids[..i]), LE(ids[i], 8), []);
      out := AppendBytes(out, ids[i], 8);
    }
    assert ids[..|ids|] == ids;
  }

  ghost predicate GossipAnswer(buf: seq<byte>, r: Option<seq<uint64>>) {
    && (r.None? <==> |buf| < 3)
    && (r.Some? ==> |r.value| == Min(FromLE(buf[1..3]), (|buf| - 3) / 8) && Headers(r.value) <= buf[3..])
  }

  // As many whole ids as the packet announces and holds.
  method ParseGossip(buf: seq<byte>) returns (r: Option<seq<uint64>>)
    ensures GossipAnswer(buf, r)
  {
    if |buf| < 1 + 2 {
      return None;
    }
    var announced := ReadBytes(buf[1..3], 2);
    assert buf[1..3][..2] == buf[1..3];
    PowersOf256();
    hide LE, FromLE, Headers, Pow256;
    var ids: seq<uint64> := [];
    NoHeaders();
    var p := 3;
    for i := 0 to announced
      invariant |ids| == i && p == 3 + 8 * i <= |buf|
      invariant Headers(ids) == buf[3..p]
    {
      if p + 8 > |buf| {
        break;
      }
      var id := ReadBytes(buf[p..], 8);
      OneMoreHeader(buf, ids, p, id);
      ids := ids + [id];
      p := p + 8;
    }
    assert buf[3..p] <= buf[3..];
    r := Some(ids);
  }

  lemma NoHeaders()
    ensures Headers([]) == []
  {
  }

  lemma OneMoreHeader(buf: seq<byte>, ids: seq<uint64>, p: nat, id: uint64)
    requires 3 <= p && p + 8 <= |buf| && Headers(ids) == buf[3..p] && id == FromLE(buf[p..][..8])
    ensures Headers(ids + [id]) == buf[3..p + 8]
  {
    hide LE, FromLE;
    WriteRead(buf[p..][..8]);
    assert (ids + [id])[..|ids|] == ids;
    assert buf[3..p + 8] == buf[3..p] + buf[p..][..8];
  }

  lemma {:induction false} HeadersOnce(x: seq<uint64>, y: seq<uint64>)
    requires Headers(x) == Headers(y)
    ensures x == y
  {
    if x != [] {
      var n := |x| - 1;
      assert Headers(x)[..8 * n] == Headers(x[..n]) && Headers(y)[..8 * n] == Headers(y[..n]);
      assert Headers(x)[8 * n..] == LE(x[n], 8) && Headers(y)[8 * n..] == LE(y[n], 8);
      HeadersOnce(x[..n], y[..n]);
      Wide(x[n]);
      Wide(y[n]);
      assert x == x[..n] + [x[n]] && y == y[..n] + [y[n]];
    }
  }

  // What the parser answers for a built packet is the list it was built from, as long as the count
  // fits its two bytes; a longer list loses all but its first |ids| mod 65536 ids.
  lemma GossipRoundTrip(ids: seq<uint64>, r: Option<seq<uint64>>)
    requires GossipAnswer(GossipBytes(ids), r)
    ensures r == Some(ids[..|ids| % 0x1_0000])
    ensures r == Some(ids) <==> |ids| < 0x1_0000
  {
    hide LE, FromLE, Headers;
    var parsed := r.value;
    var n := |ids| % 0x1_0000;
    TwoBytes(n);
    assert GossipBytes(ids)[1..3] == LE(n, 2) && GossipBytes(ids)[3..] == Headers(ids);
    HeadersPrefix(ids, n);
    assert Headers(parsed) == Headers(ids)[..8 * n];
    HeadersOnce(parsed, ids[..n]);
    assert n == |ids| ==> ids[..n] == ids;
  }

  lemma TwoBytes(n: nat)
    requires n < 0x1_0000
    ensures FromLE(LE(n, 2)) == n
  {
    assert Pow256(2) == 256 * Pow256(1) && Pow256(1) == 256 * Pow256(0);
    ReadWritten(n, 2);
  }

  lemma {:induction false} HeadersPrefix(ids: seq<uint64>, n: nat)
    requires n <= |ids|
    ensures Headers(ids)[..8 * n] == Headers(ids[..n])
  {
    if n == |ids| {
      assert ids[..n] == ids;
    } else {
      var last := |ids| - 1;
      HeadersPrefix(ids[..last], n);
      assert ids[..last][..n] == ids[..n];
      assert Headers(ids)[..8 * n] == Headers(ids[..last])[..8 * n];
    }
  }

  // ---------------------------------------------------------------- requests and heartbeats

  // A packet that carries one number: the id asked for, or the peer that is alive.
  method BuildNumberPacket(tag: byte, v: uint64) returns (out: seq<byte>)
    ensures out == [tag] + LE(v, 8)
  {
    out := AppendBytes([tag], v, 8);
  }

  // Bytes beyond the number are ignored.
  method ParseNumber(buf: seq<byte>) returns (r: Option<uint64>)
    ensures NumberAnswer(buf, r)
  {
    if |buf| < 1 + 8 {
      return None;
    }
    PowersOf256();
    var v := ReadBytes(buf[1..], 8);
    WriteRead(buf[1..][..8]);
    assert buf[1..9] == buf[1..][..8];
    r := Some(v);
  }

  ghost predicate NumberAnswer(buf: seq<byte>, r: Option<uint64>) {
    match r
    case Some(v) => |buf| >= 9 && buf[1..9] == LE(v, 8)
    case None => |buf| < 9
  }

  // ---------------------------------------------------------------- dispatch

  // What the receiver makes of a packet.
  datatype Content =
    | Ignored
    | DataOf(msgid: uint64, payload: seq<byte>)
    | GossipOf(ids: seq<uint64>)
    | RequestOf(msgid: uint64)
    | HeartbeatOf(peer: uint64)

  ghost predicate Understood(buf: seq<byte>, r: Content) {
    match r
    case DataOf(msgid, payload) => buf != [] && buf[0] == 1 && DataAnswer(buf, Some((msgid, payload)))
    case GossipOf(ids) => buf != [] && buf[0] == 2 && GossipAnswer(buf, Some(ids))
    case RequestOf(msgid) => buf != [] && buf[0] == 3 && NumberAnswer(buf, Some(msgid))
    case HeartbeatOf(peer) => buf != [] && buf[0] == 4 && NumberAnswer(buf, Some(peer))
    case Ignored => buf != [] ==>
      && (buf[0] == 1 ==> DataAnswer(buf, None))
      && (buf[0] == 2 ==> GossipAnswer(buf, None))
      && (buf[0] == 3 || buf[0] == 4 ==> NumberAnswer(buf, None))
  }

  // The first byte picks the parser.
  method Understand(buf: seq<byte>) returns (r: Content)
    ensures Understood(buf, r)
  {
    hide DataAnswer, GossipAnswer, NumberAnswer;
    r := Ignored;
    if |buf| <= 0 {
      return;
    }
    if buf[0] == MT_DATA {
      var data := ParseData(buf);
      if data.Some? {
        r := DataOf(data.value.0, data.value.1);
      }
    } else if buf[0] == MT_GOSSIP {
      var ids := ParseGossip(buf);
      if ids.Some? {
        r := GossipOf(ids.value);
      }
    } else if buf[0] == MT_REQUEST {
      var msgid := ParseNumber(buf);
      if msgid.Some? {
        r := RequestOf(msgid.value);
      }
    } else if buf[0] == MT_HEARTBEAT {
      var peer := ParseNumber(buf);
      if peer.Some? {
        r := HeartbeatOf(peer.value);
      }
    }
  }

  // So a built packet is taken for what it is, and for what was put into it.
  lemma DataUnderstood(msgid: uint64, payload: seq<byte>, r: Content)
    requires |payload| < 0x1_0000_0000 && Understood(DataBytes(msgid, payload), r)
    ensures r == DataOf(msgid, payload)
  {
    hide DataAnswer, GossipAnswer, NumberAnswer;
    assert DataBytes(msgid, payload) + [] == DataBytes(msgid, payload);
    DataRoundTrip(msgid, payload, [], if r.DataOf? then Some((r.msgid, r.payload)) else None);
  }

  lemma GossipUnderstood(ids: seq<uint64>, r: Content)
    requires Understood(GossipBytes(ids), r)
    ensures r == GossipOf(ids[..|ids| % 0x1_0000])
  {
    hide DataAnswer, GossipAnswer, NumberAnswer;
    GossipRoundTrip(ids, if r.GossipOf? then Some(r.ids) else None);
  }

  lemma NumberUnderstood(v: uint64, rest: seq<byte>, asked: Content, alive: Content)
    requires Understood([MT_REQUEST] + LE(v, 8) + rest, asked) && Understood([MT_HEARTBEAT] + LE(v, 8) + rest, alive)
    ensures asked == RequestOf(v) && alive == HeartbeatOf(v)
  {
    hide DataAnswer, GossipAnswer, LE, FromLE;
    var request, heartbeat := [MT_REQUEST] + LE(v, 8) + rest, [MT_HEARTBEAT] + LE(v, 8) + rest;
    assert request[1..9] == LE(v, 8) && heartbeat[1..9] == LE(v, 8);
    Wide(v);
    if asked.RequestOf? {
      Wide(asked.msgid);
    }
    if alive.HeartbeatOf? {
      Wide(alive.peer);
    }
  }

  // ---------------------------------------------------------------- the layout on the wire

  // A data packet: 1, the id in eight bytes, the length modulo 2^32 in four, the payload.
  lemma DataLayout(msgid: uint64, payload: seq<byte>)
    ensures var out := DataBytes(msgid, payload);
            && out[0] == 1 && |out| == 13 + |payload| && FromLE(out[1..9]) == msgid
            && FromLE(out[9..13]) == |payload| % 0x1_0000_0000 && out[13..] == payload
  {
    hide LE, FromLE;
    var out, len := DataBytes(msgid, payload), |payload| % 0x1_0000_0000;
    assert out[1..9] == LE(msgid, 8) && out[9..13] == LE(len, 4) && out[13..] == payload;
    Wide(msgid);
    WordReadBack(len);
  }

  lemma {:induction false} HeaderAt(ids: seq<uint64>, i: nat)
    requires i < |ids|
    ensures Headers(ids)[8 * i..8 * i + 8] == LE(ids[i], 8)
  {
    HeadersPrefix(ids, i + 1);
    assert ids[..i + 1][..i] == ids[..i];
    assert Headers(ids)[8 * i..8 * i + 8] == Headers(ids)[..8 * (i + 1)][8 * i..];
  }

  // A gossip packet: 2, the count modulo 2^16 in two bytes, the ids in order, each in eight.
  lemma GossipLayout(ids: seq<uint64>, i: nat)
    requires i < |ids|
    ensures var out := GossipBytes(ids);
            && out[0] == 2 && |out| == 3 + 8 * |ids| && FromLE(out[1..3]) == |ids| % 0x1_0000
            && FromLE(out[3 + 8 * i..11 + 8 * i]) == ids[i]
  {
    hide LE, FromLE, Headers;
    var out := GossipBytes(ids);
    TwoBytes(|ids| % 0x1_0000);
    HeaderAt(ids, i);
    Wide(ids[i]);
    assert out[1..3] == LE(|ids| % 0x1_0000, 2) && out[3..] == Headers(ids);
    assert out[3 + 8 * i..11 + 8 * i] == out[3..][8 * i..8 * i + 8];
  }
}
