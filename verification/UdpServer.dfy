/** UdpServer of src/network/udp_server.cpp, one call at a time: sendFrame chunks in place into one
    stack buffer.  The interleavings of several calls are in SenderSystem. */
module UdpServer {
  import opened Wrappers
  import opened Bytes
  import opened VideoCodec

  datatype Endpoint = Endpoint(ip: string, port: uint16)

  /** One sendto: where it went and the bytes handed over. */
  datatype Attempt = Attempt(endpoint: Endpoint, packet: seq<byte>)

  /** The attempts that send the given packets to one endpoint. */
  function Attempts(endpoint: Endpoint, packets: seq<seq<byte>>): (a: seq<Attempt>)
    ensures |a| == |packets|
  {
    seq(|packets|, i requires 0 <= i < |packets| => Attempt(endpoint, packets[i]))
  }

  lemma AttemptAt(endpoint: Endpoint, f: Frame, seqStart: uint32, i: nat)
    requires i < ChunkCount(|f.data|)
    ensures Attempts(endpoint, Packets(f, seqStart))[i] == Attempt(endpoint, Packet(f, (seqStart + i) % TWO_32, i))
  {
  }

  lemma PrefixStep<T>(done: seq<T>, all: seq<T>, i: nat)
    requires i < |all|
    ensures done + all[..i] + [all[i]] == done + all[..i + 1]
  {
  }

  lemma NextSeqNum(start: nat, i: nat)
    ensures ((start + i) % TWO_32 + 1) % TWO_32 == (start + (i + 1)) % TWO_32
  {
  }

  /** Every sendto from the lo-th up to the hi-th is accepted. */
  predicate AllAccepted(accepts: nat -> bool, lo: nat, hi: nat) {
    forall k :: lo <= k < hi ==> accepts(k)
  }

  lemma AcceptStep(accepts: nat -> bool, lo: nat, hi: nat)
    requires lo <= hi
    ensures AllAccepted(accepts, lo, lo)
    ensures AllAccepted(accepts, lo, hi + 1) <==> AllAccepted(accepts, lo, hi) && accepts(hi)
  {
  }

  class UdpServer {
    const socketOpen: bool
    /** Whether the network stack accepts the k-th sendto. */
    const accepts: nat -> bool
    var hasClient: bool
    var clientAddr: Endpoint
    var nextSeq: uint32
    var nextFrameId: uint32
    /** Every sendto so far, failed ones included. */
    var wire: seq<Attempt>

    constructor (socketOpen: bool, accepts: nat -> bool)
      ensures this.socketOpen == socketOpen && this.accepts == accepts
      ensures !hasClient && nextSeq == 0 && nextFrameId == 0 && wire == []
    {
      this.socketOpen := socketOpen;
      this.accepts := accepts;
      hasClient := false;
      clientAddr := Endpoint("", 0);
      nextSeq := 0;
      nextFrameId := 0;
      wire := [];
    }

    method SetClientEndpoint(ip: string, port: uint16)
      modifies this
      ensures hasClient && clientAddr == Endpoint(ip, port)
      ensures nextSeq == old(nextSeq) && nextFrameId == old(nextFrameId) && wire == old(wire)
    {
      clientAddr := Endpoint(ip, port);
      hasClient := true;
    }

    method SendTo(packet: seq<byte>) returns (sent: bool)
      modifies this`wire
      ensures wire == old(wire) + [Attempt(clientAddr, packet)]
      ensures sent == accepts(|old(wire)|)
    {
      sent := accepts(|wire|);
      wire := wire + [Attempt(clientAddr, packet)];
    }

    /** One round of the chunk loop. */
    method SendChunk(pkt: array<byte>, f: Frame, chunks: nat, i: nat) returns (sent: bool)
      requires pkt.Length == MAX_PACKET
      requires chunks == ChunkCount(|f.data|) && i < chunks
      modifies `nextSeq, `wire, pkt
      ensures nextSeq == (old(nextSeq) + 1) % TWO_32
      ensures wire == old(wire) + [Attempt(clientAddr, Packet(f, old(nextSeq), i))]
      ensures sent == accepts(|old(wire)|)
    {
      hide Packet;
      var seqNum := nextSeq;
      nextSeq := (nextSeq + 1) % TWO_32;
      var len := BuildPacket(pkt, f, chunks, seqNum, i);
      sent := SendTo(pkt[..VIDEO_HEADER + len]);
    }

    /** The chunk loop, with the mutex held. */
    method SendChunks(f: Frame, chunks: nat) returns (ok: bool)
      requires chunks == ChunkCount(|f.data|)
      modifies `nextSeq, `wire
      ensures wire == old(wire) + Attempts(clientAddr, Packets(f, old(nextSeq)))
      ensures nextSeq == (old(nextSeq) + chunks) % TWO_32
      ensures ok <==> AllAccepted(accepts, |old(wire)|, |wire|)
    {
      hide Packet, Packets, Attempts, AllAccepted;
      ghost var all := Attempts(clientAddr, Packets(f, nextSeq));
      var pkt := new byte[MAX_PACKET];
      ok := true;
      AcceptStep(accepts, |wire|, |wire|);
      for i := 0 to chunks
        invariant nextSeq == (old(nextSeq) + i) % TWO_32
        invariant wire == old(wire) + all[..i]
        invariant ok <==> AllAccepted(accepts, |old(wire)|, |old(wire)| + i)
      {
        AttemptAt(clientAddr, f, old(nextSeq), i);
        PrefixStep(old(wire), all, i);
        NextSeqNum(old(nextSeq), i);
        AcceptStep(accepts, |old(wire)|, |wire|);
        var sent := SendChunk(pkt, f, chunks, i);
        if !sent {
          ok := false;
        }
      }
    }

    /** The in-place chunker hands the network exactly the packets of ChunkFrame, in order and to one
        endpoint, whatever the reused buffer held before. */
    method SendFrame(data: seq<byte>, isKeyFrame: bool, timestampUs: uint64) returns (ok: bool)
      modifies this
      ensures hasClient == old(hasClient) && clientAddr == old(clientAddr)
      ensures !(hasClient && socketOpen) ==>
                && !ok
                && wire == old(wire) && nextSeq == old(nextSeq) && nextFrameId == old(nextFrameId)
      ensures hasClient && socketOpen ==>
                var f := Frame(data, old(nextFrameId), timestampUs, isKeyFrame);
                && wire == old(wire) + Attempts(clientAddr, Packets(f, old(nextSeq)))
                && nextSeq == (old(nextSeq) + ChunkCount(|data|)) % TWO_32
                && nextFrameId == (old(nextFrameId) + 1) % TWO_32
                && (ok <==> AllAccepted(accepts, |old(wire)|, |wire|))
    {
      hide Packets, Attempts, AllAccepted;
      if !hasClient || !socketOpen {
        return false;
      }
      var chunks := if |data| == 0 then 1 else (|data| + MAX_CHUNK - 1) / MAX_CHUNK;
      var frameId := nextFrameId;
      nextFrameId := (nextFrameId + 1) % TWO_32;
      ok := SendChunks(Frame(data, frameId, timestampUs, isKeyFrame), chunks);
    }
  }
}
