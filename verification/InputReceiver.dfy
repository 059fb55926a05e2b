/** InputReceiver::loop of src/network/input_receiver.cpp: one 2048-byte buffer, the LAN gate, the parser
    and the callback. */
module InputReceiver {
  import opened Wrappers
  import opened Bytes
  import opened InputCodec
  import opened Lan

  const BUFFER: nat := 2048

  datatype Datagram = Datagram(peer: uint32, bytes: seq<byte>)

  /** What one datagram makes the callback see. */
  function Accepted(d: Datagram): Option<InputPacket> {
    if 0 < |d.bytes| <= BUFFER && IsPrivateIPv4(d.peer) then DecodeInput(d.bytes) else None
  }

  function Deliveries(ds: seq<Datagram>): seq<InputPacket> {
    if ds == [] then []
    else
      var before := Deliveries(ds[..|ds| - 1]);
      match Accepted(ds[|ds| - 1])
      case Some(ev) => before + [ev]
      case None => before
  }

  function CountAccepted(ds: seq<Datagram>): nat {
    if ds == [] then 0
    else CountAccepted(ds[..|ds| - 1]) + if Accepted(ds[|ds| - 1]).Some? then 1 else 0
  }

  /** Datagram k is delivered at the place that counts the accepted ones before it. */
  predicate Placed(ds: seq<Datagram>, k: nat)
    requires k < |ds|
  {
    var at := CountAccepted(ds[..k]);
    Accepted(ds[k]).Some? ==> at < |Deliveries(ds)| && Deliveries(ds)[at] == Accepted(ds[k]).value
  }

  lemma PlacedEarlier(ds: seq<Datagram>, k: nat)
    requires ds != [] && k < |ds| - 1 && Placed(ds[..|ds| - 1], k)
    ensures Placed(ds, k)
  {
    hide Accepted;
    assert ds[..|ds| - 1][..k] == ds[..k];
  }

  /** Each accepted datagram is delivered, in its place, and nothing else is. */
  lemma {:induction false} DeliveredInOrder(ds: seq<Datagram>)
    ensures |Deliveries(ds)| == CountAccepted(ds)
    ensures forall k :: 0 <= k < |ds| ==> Placed(ds, k)
  {
    hide Accepted, Placed;
    if ds != [] {
      var n := |ds| - 1;
      DeliveredInOrder(ds[..n]);
      forall k | 0 <= k < |ds| ensures Placed(ds, k) {
        if k < n {
          PlacedEarlier(ds, k);
        } else {
          PlacedLast(ds);
        }
      }
    }
  }

  lemma PlacedLast(ds: seq<Datagram>)
    requires ds != [] && |Deliveries(ds[..|ds| - 1])| == CountAccepted(ds[..|ds| - 1])
    ensures Placed(ds, |ds| - 1)
  {
    hide Accepted;
  }

  /** A datagram is accepted exactly if it is not empty, fits the 2048-byte buffer, comes from a LAN peer and
      begins with the encoding of a packet, which is then what is delivered. */
  lemma AcceptedExactly(d: Datagram, ev: InputPacket)
    ensures Accepted(d) == Some(ev) <==>
            && 0 < |d.bytes| <= 2048
            && IsPrivateIPv4(d.peer)
            && |ev.touches| <= 255
            && EncodeInput(ev) <= d.bytes
  {
    hide EncodeInput, DecodeInput, IsPrivateIPv4;
    InputCodecExact(d.bytes, ev);
  }

  class InputReceiver {
    /** The packets the callback was given. */
    var delivered: seq<InputPacket>

    constructor ()
      ensures delivered == []
    {
      delivered := [];
    }

    /** recvfrom: a datagram that does not fit fills the buffer and is an error; an empty one reads as 0. */
    method RecvFrom(buf: array<byte>, d: Datagram) returns (n: int)
      modifies buf
      ensures n == if |d.bytes| <= buf.Length then |d.bytes| else -1
      ensures n >= 0 ==> buf[..n] == d.bytes
    {
      forall k | 0 <= k < buf.Length && k < |d.bytes| {
        buf[k] := d.bytes[k];
      }
      n := if |d.bytes| <= buf.Length then |d.bytes| else -1;
    }

    /** The callback sees exactly what each datagram on its own would deliver, in order: nothing that an
        earlier datagram left in the buffer is ever parsed. */
    method Loop(datagrams: seq<Datagram>)
      modifies this
      ensures delivered == old(delivered) + Deliveries(datagrams)
    {
      hide DecodeInput, IsPrivateIPv4;
      var buf := new byte[BUFFER];
      for i := 0 to |datagrams|
        invariant delivered == old(delivered) + Deliveries(datagrams[..i])
      {
        var d := datagrams[i];
        assert datagrams[..i + 1][..i] == datagrams[..i];
        var n := RecvFrom(buf, d);
        if n <= 0 {
          continue;
        }
        if !IsPrivateIPv4(d.peer) {
          continue;
        }
        var pkt := ReadInputPacket(buf[..n]);
        if pkt.Some? {
          delivered := delivered + [pkt.value];
        }
      }
      assert datagrams[..|datagrams|] == datagrams;
    }
  }

  /** A written packet reaches the callback unchanged if and only if it comes from a LAN peer and has at
      most 226 touches; with 227 to 255 the writer produces a datagram that the buffer cannot take. */
  lemma DeliveryLimit(peer: uint32, ev: InputPacket)
    requires |ev.touches| <= 255
    ensures Accepted(Datagram(peer, EncodeInput(ev))) == Some(ev) <==> IsPrivateIPv4(peer) && |ev.touches| <= 226
  {
    hide EncodeInput, DecodeInput, IsPrivateIPv4;
    InputCodecExact(EncodeInput(ev), ev);
  }
}
