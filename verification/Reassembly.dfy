/** A receiver of the video stream, as the design intends it: decode each datagram, group by frame id,
    order by chunk index, and judge a frame complete when every index below totalChunks is there. */
module Reassembly {
  import opened Wrappers
  import opened Bytes
  import opened VideoCodec
  import opened UdpServer
  import opened SenderSystem

  const MAX_FRAME: nat := 0xFFFF * MAX_CHUNK

  datatype Chunk = Chunk(total: nat, payload: seq<byte>)

  /** What has arrived, by frame id and chunk index. */
  type Table = map<(nat, nat), Chunk>

  function Store(t: Table, p: seq<byte>): Table {
    match DecodeHeader(p)
    case None => t
    case Some(h) => t[(h.frameId, h.chunkIndex) := Chunk(h.totalChunks, p[VIDEO_HEADER..VIDEO_HEADER + h.payloadSize])]
  }

  function Receive(packets: seq<seq<byte>>): Table {
    if packets == [] then map[]
    else Store(Receive(packets[..|packets| - 1]), packets[|packets| - 1])
  }

  predicate Complete(t: Table, id: nat) {
    (id, 0) in t && forall i :: 0 <= i < t[(id, 0)].total ==> (id, i) in t
  }

  /** The payloads stored for chunks 0 to n - 1. */
  function Stored(t: Table, id: nat, n: nat): (ps: seq<seq<byte>>)
    requires forall i :: 0 <= i < n ==> (id, i) in t
    ensures |ps| == n
  {
    seq(n, i requires 0 <= i < n => t[(id, i)].payload)
  }

  function Assemble(t: Table, id: nat): Option<seq<byte>> {
    if Complete(t, id) then Some(Flatten(Stored(t, id, t[(id, 0)].total))) else None
  }

  predicate IsChunk(p: seq<byte>, id: nat, i: nat) {
    var h := DecodeHeader(p);
    h.Some? && h.value.frameId == id && h.value.chunkIndex == i
  }

  predicate Arrived(packets: seq<seq<byte>>, id: nat, i: nat) {
    exists k :: 0 <= k < |packets| && IsChunk(packets[k], id, i)
  }

  lemma {:induction false} ArrivedKeys(packets: seq<seq<byte>>, id: nat, i: nat)
    ensures (id, i) in Receive(packets) <==> Arrived(packets, id, i)
  {
    hide DecodeHeader;
    if packets != [] {
      var n := |packets| - 1;
      ArrivedKeys(packets[..n], id, i);
      if Arrived(packets, id, i) && !IsChunk(packets[n], id, i) {
        var k :| 0 <= k < |packets| && IsChunk(packets[k], id, i);
        assert packets[..n][k] == packets[k];
      }
      if Arrived(packets[..n], id, i) {
        var k :| 0 <= k < n && IsChunk(packets[..n][k], id, i);
        assert packets[k] == packets[..n][k];
      }
    }
  }

  // ---------- soundness under reordering, duplication and loss ----------

  ghost predicate Reassemblable(frames: seq<Frame>) {
    && (forall j :: 0 <= j < |frames| ==> |frames[j].data| <= MAX_FRAME)
    && (forall j, k :: 0 <= j < k < |frames| ==> frames[j].frameId != frames[k].frameId)
  }

  /** p is a packet of frame j. */
  ghost predicate IsPacketOf(frames: seq<Frame>, p: seq<byte>, j: nat) {
    && j < |frames|
    && exists q: uint32, i: nat :: i < ChunkCount(|frames[j].data|) && p == Packet(frames[j], q, i)
  }

  ghost predicate Genuine(frames: seq<Frame>, p: seq<byte>) {
    exists j: nat :: IsPacketOf(frames, p, j)
  }

  /** The entry under key holds the chunk of frame j that the key names. */
  ghost predicate Right(frames: seq<Frame>, key: (nat, nat), c: Chunk, j: nat) {
    && j < |frames|
    && key.0 == frames[j].frameId
    && key.1 < ChunkCount(|frames[j].data|)
    && c == Chunk(ChunkCount(|frames[j].data|), Payload(frames[j].data, key.1))
  }

  ghost predicate Faithful(frames: seq<Frame>, t: Table) {
    forall key :: key in t ==> exists j: nat :: Right(frames, key, t[key], j)
  }

  lemma CountBound(size: nat)
    requires size <= MAX_FRAME
    ensures ChunkCount(size) <= 0xFFFF
  {
  }

  lemma StoreFaithful(frames: seq<Frame>, t: Table, p: seq<byte>)
    requires Reassemblable(frames) && Faithful(frames, t) && Genuine(frames, p)
    ensures Faithful(frames, Store(t, p))
  {
    hide Packet, Payload, ChunkCount, DecodeHeader;
    var j: nat :| IsPacketOf(frames, p, j);
    var q: uint32, i: nat :| i < ChunkCount(|frames[j].data|) && p == Packet(frames[j], q, i);
    CountBound(|frames[j].data|);
    PacketDecodes(frames[j], q, i);
    PacketLength(frames[j], q, i);
    assert Right(frames, (frames[j].frameId, i), Store(t, p)[(frames[j].frameId, i)], j);
    forall key | key in Store(t, p) ensures exists k: nat :: Right(frames, key, Store(t, p)[key], k) {
      if key != (frames[j].frameId, i) {
        assert key in t;
      }
    }
  }

  lemma PacketLength(f: Frame, q: uint32, i: nat)
    ensures |Packet(f, q, i)| == VIDEO_HEADER + |Payload(f.data, i)|
  {
  }

  lemma {:induction false} ReceiveFaithful(frames: seq<Frame>, packets: seq<seq<byte>>)
    requires Reassemblable(frames)
    requires forall p :: p in packets ==> Genuine(frames, p)
    ensures Faithful(frames, Receive(packets))
  {
    if packets != [] {
      ReceiveFaithful(frames, packets[..|packets| - 1]);
      StoreFaithful(frames, Receive(packets[..|packets| - 1]), packets[|packets| - 1]);
    }
  }

  lemma FrameEntry(frames: seq<Frame>, t: Table, j: nat, i: nat)
    requires Reassemblable(frames) && Faithful(frames, t) && j < |frames|
    requires (frames[j].frameId, i) in t
    ensures Right(frames, (frames[j].frameId, i), t[(frames[j].frameId, i)], j)
  {
    var key := (frames[j].frameId, i);
    assert key in t;
    var k: nat :| Right(frames, key, t[key], k);
    assert k == j;
  }

  /** Whatever the network reorders, repeats or loses: a frame comes out as exactly its own bytes when
      every one of its chunks arrived, and is reported incomplete otherwise. */
  lemma ReassemblyExact(frames: seq<Frame>, received: seq<seq<byte>>, j: nat)
    requires Reassemblable(frames) && j < |frames|
    requires forall p :: p in received ==> Genuine(frames, p)
    ensures Assemble(Receive(received), frames[j].frameId)
         == if forall i :: 0 <= i < ChunkCount(|frames[j].data|) ==> Arrived(received, frames[j].frameId, i)
            then Some(frames[j].data)
            else None
  {
    hide Receive, Arrived, ChunkCount, Payload, DecodeHeader;
    var t := Receive(received);
    var id := frames[j].frameId;
    var n := ChunkCount(|frames[j].data|);
    ReceiveFaithful(frames, received);
    forall i: nat ensures (id, i) in t <==> Arrived(received, id, i) {
      ArrivedKeys(received, id, i);
    }
    if (id, 0) in t {
      FrameEntry(frames, t, j, 0);
      assert t[(id, 0)].total == n;
      if Complete(t, id) {
        forall i | 0 <= i < n ensures t[(id, i)].payload == Payload(frames[j].data, i) {
          FrameEntry(frames, t, j, i);
        }
        JoinsToFrame(frames[j].data, Stored(t, id, n));
      }
    }
  }

  lemma JoinsToFrame(data: seq<byte>, payloads: seq<seq<byte>>)
    requires |payloads| == ChunkCount(|data|)
    requires forall i :: 0 <= i < |payloads| ==> payloads[i] == Payload(data, i)
    ensures Flatten(payloads) == data
  {
    PayloadPrefix(data, payloads);
    ChunkSizes(|data|);
  }

  /** The frames of a run, in the order in which they took the mutex. */
  function SentFrames(calls: seq<Call>, order: seq<Entry>): seq<Frame>
    requires Entries(calls, order)
  {
    seq(|order|, j requires 0 <= j < |order| => FrameOf(calls, order[j].call, order[j].ticket))
  }

  /** End to end: in every interleaving of concurrent senders, and for every way the network reorders,
      repeats or loses what was handed to it, each frame is reassembled exactly or seen to be incomplete. */
  lemma EndToEnd(calls: seq<Call>, socketOpen: bool, schedule: seq<nat>, received: seq<seq<byte>>, j: nat)
    requires Run(calls, socketOpen, schedule).numbered <= TWO_32
    requires forall c :: c in calls && c.SendCall? ==> |c.data| <= MAX_FRAME
    requires forall p :: p in received ==> exists a :: a in Run(calls, socketOpen, schedule).wire && a.packet == p
    requires j < |Run(calls, socketOpen, schedule).order|
    ensures Entries(calls, Run(calls, socketOpen, schedule).order)
    ensures var e := Run(calls, socketOpen, schedule).order[j];
            var id := e.ticket % TWO_32;
            Assemble(Receive(received), id)
            == if forall i :: 0 <= i < Count(calls, e.call) ==> Arrived(received, id, i)
               then Some(calls[e.call].data)
               else None
  {
    hide Run, Packet, Assemble, Receive, Arrived, Wire;
    var s := Run(calls, socketOpen, schedule);
    WireIsChunkedFrames(calls, socketOpen, schedule);
    IdsDistinct(calls, socketOpen, schedule);
    var frames := SentFrames(calls, s.order);
    forall p | p in received ensures Genuine(frames, p) {
      var a :| a in s.wire && a.packet == p;
      var k :| 0 <= k < |s.wire| && s.wire[k] == a;
      var m, i := Locate(calls, s.order, k);
      assert p == Packet(frames[m], k % TWO_32, i);
      assert IsPacketOf(frames, p, m);
    }
    SentReassemblable(calls, s.order);
    ReassemblyExact(frames, received, j);
  }

  lemma SentReassemblable(calls: seq<Call>, order: seq<Entry>)
    requires Entries(calls, order) && DistinctIds(order)
    requires forall c :: c in calls && c.SendCall? ==> |c.data| <= MAX_FRAME
    ensures Reassemblable(SentFrames(calls, order))
  {
    var frames := SentFrames(calls, order);
    forall j | 0 <= j < |frames| ensures |frames[j].data| <= MAX_FRAME {
      assert order[j] in order;
      assert calls[order[j].call] in calls;
    }
  }

  // ---------- the frame size limit ----------

  ghost predicate Bounded(t: Table) {
    forall key :: key in t ==> t[key].total <= 0xFFFF && |t[key].payload| <= MAX_CHUNK
  }

  lemma {:induction false} ReceiveBounded(packets: seq<seq<byte>>)
    ensures Bounded(Receive(packets))
  {
    if packets != [] {
      ReceiveBounded(packets[..|packets| - 1]);
    }
  }

  lemma {:induction false} FlattenBound(ss: seq<seq<byte>>)
    requires forall s :: s in ss ==> |s| <= MAX_CHUNK
    ensures |Flatten(ss)| <= |ss| * MAX_CHUNK
  {
    if ss != [] {
      var init, last := ss[..|ss| - 1], ss[|ss| - 1];
      FlattenBound(init);
      assert last in ss;
      assert |Flatten(ss)| == |Flatten(init)| + |last|;
    }
  }

  lemma StoredBound(t: Table, id: nat, n: nat)
    requires Bounded(t) && n <= 0xFFFF
    requires forall i :: 0 <= i < n ==> (id, i) in t
    ensures |Flatten(Stored(t, id, n))| <= MAX_FRAME
  {
    hide Flatten;
    var ps := Stored(t, id, n);
    forall p | p in ps ensures |p| <= MAX_CHUNK {
      var i :| 0 <= i < n && ps[i] == p;
      assert (id, i) in t;
    }
    FlattenBound(ps);
  }

  /** No datagrams at all, genuine or not, make a receiver deliver more than MAX_FRAME bytes. */
  lemma DeliveryBound(packets: seq<seq<byte>>, id: nat)
    ensures var r := Assemble(Receive(packets), id); r.Some? ==> |r.value| <= MAX_FRAME
  {
    hide Receive, Stored;
    ReceiveBounded(packets);
    var t := Receive(packets);
    if Complete(t, id) {
      assert (id, 0) in t;
      StoredBound(t, id, t[(id, 0)].total);
    }
  }

  /** A frame delivered in full and in order is reassembled if and only if it has at most 65535 chunks:
      the 16-bit totalChunks and chunkIndex fields are the limit. */
  lemma FrameSizeLimit(f: Frame, seqStart: uint32)
    ensures Assemble(Receive(Packets(f, seqStart)), f.frameId) == Some(f.data) <==> |f.data| <= 65535 * 1371
  {
    hide Receive, Packet, Assemble, Arrived;
    var ps := Packets(f, seqStart);
    DeliveryBound(ps, f.frameId);
    if |f.data| <= MAX_FRAME {
      var frames := [f];
      CountBound(|f.data|);
      forall i | 0 <= i < |ps| ensures Arrived(ps, f.frameId, i) && Genuine(frames, ps[i]) {
        PacketArrives(f, seqStart, i);
        assert ps[i] == Packet(frames[0], (seqStart + i) % TWO_32, i);
        assert IsPacketOf(frames, ps[i], 0);
      }
      ReassemblyExact(frames, ps, 0);
    }
  }

  lemma SmallIndex(i: nat)
    requires i < 0xFFFF
    ensures i % 0x1_0000 == i
  {
  }

  lemma PacketArrives(f: Frame, seqStart: uint32, i: nat)
    requires i < ChunkCount(|f.data|) <= 0xFFFF
    ensures Arrived(Packets(f, seqStart), f.frameId, i)
  {
    hide DecodeHeader, Packet, Packets;
    PacketAt(f, seqStart, i);
    SmallIndex(i);
    assert IsChunk(Packets(f, seqStart)[i], f.frameId, i);
  }
}
