/** The IDSP video packet: header codec and the frame chunker of src/network/protocol.hpp. */
module VideoCodec {
  import opened Wrappers
  import opened Bits
  import opened Bytes

  const VIDEO_MAGIC: uint32 := 0x4944_5350
  const VIDEO_HEADER: nat := 29
  const FLAG_KEYFRAME: byte := 1
  const FLAG_LAST_CHUNK: byte := 2
  const MAX_PACKET: nat := 1400
  const MAX_CHUNK: nat := MAX_PACKET - VIDEO_HEADER

  datatype VideoHeader = VideoHeader(
    seqNum: uint32,
    timestampUs: uint64,
    frameId: uint32,
    totalChunks: uint16,
    chunkIndex: uint16,
    isKeyFrame: bool,
    isLastChunk: bool,
    payloadSize: uint32
  )

  function Flags(isKeyFrame: bool, isLastChunk: bool): byte {
    (if isKeyFrame then 1 else 0) + (if isLastChunk then 2 else 0)
  }

  /** The six numbers in front of the flags. */
  function Numbers(h: VideoHeader): (s: seq<byte>)
    ensures |s| == 24
  {
    ToBE(VIDEO_MAGIC, 4) + ToBE(h.seqNum, 4) + ToBE(h.timestampUs, 8) + ToBE(h.frameId, 4)
    + ToBE(h.totalChunks, 2) + ToBE(h.chunkIndex, 2)
  }

  /** The 29 bytes a header occupies on the wire. */
  function EncodeHeader(h: VideoHeader): (s: seq<byte>)
    ensures |s| == VIDEO_HEADER
  {
    Numbers(h) + [Flags(h.isKeyFrame, h.isLastChunk)] + ToBE(h.payloadSize, 4)
  }

  /** The header fields found in the first 29 bytes of s, whatever they are. */
  function HeaderFields(s: seq<byte>): VideoHeader
    requires |s| >= VIDEO_HEADER
  {
    Pow256Values();
    ToBEBE(s[8..16]);
    VideoHeader(
      GetU32(s, 4), BE(s[8..16]), GetU32(s, 16), GetU16(s, 20), GetU16(s, 22),
      s[24] % 2 == 1, s[24] / 2 % 2 == 1, GetU32(s, 25))
  }

  function DecodeHeader(s: seq<byte>): Option<VideoHeader> {
    if |s| < VIDEO_HEADER || GetU32(s, 0) != VIDEO_MAGIC then None
    else
      var h := HeaderFields(s);
      if h.payloadSize > MAX_CHUNK || |s| < VIDEO_HEADER + h.payloadSize then None else Some(h)
  }

  method WriteNumbers(out: array<byte>, h: VideoHeader)
    requires out.Length >= VIDEO_HEADER
    modifies out
    ensures out[..] == Splice(old(out[..]), 0, Numbers(h))
  {
    hide ToBE, Splice;
    ghost var was := out[..];
    PutU32(out, 0, VIDEO_MAGIC);
    ghost var w := ToBE(VIDEO_MAGIC, 4);
    PutU32(out, 4, h.seqNum);
    w := Extend(was, w, ToBE(h.seqNum, 4));
    PutU64(out, 8, h.timestampUs);
    w := Extend(was, w, ToBE(h.timestampUs, 8));
    PutU32(out, 16, h.frameId);
    w := Extend(was, w, ToBE(h.frameId, 4));
    PutU16(out, 20, h.totalChunks);
    w := Extend(was, w, ToBE(h.totalChunks, 2));
    PutU16(out, 22, h.chunkIndex);
    w := Extend(was, w, ToBE(h.chunkIndex, 2));
  }

  method WriteVideoHeader(out: array<byte>, h: VideoHeader) returns (ok: bool)
    modifies out
    ensures ok <==> out.Length >= VIDEO_HEADER
    ensures out[..] == if ok then Splice(old(out[..]), 0, EncodeHeader(h)) else old(out[..])
  {
    if out.Length < VIDEO_HEADER {
      return false;
    }
    hide ToBE, Splice, Or, Numbers;
    ghost var was := out[..];
    WriteNumbers(out, h);
    FlagsOf(0);
    var flags := 0;
    if h.isKeyFrame {
      flags := Or(flags, FLAG_KEYFRAME);
    }
    if h.isLastChunk {
      flags := Or(flags, FLAG_LAST_CHUNK);
    }
    ghost var before := out[..];
    out[24] := flags;
    SpliceOne(before, 24, flags);
    ghost var w := Extend(was, Numbers(h), [Flags(h.isKeyFrame, h.isLastChunk)]);
    PutU32(out, 25, h.payloadSize);
    w := Extend(was, w, ToBE(h.payloadSize, 4));
    return true;
  }

  lemma SpliceOne(a: seq<byte>, o: nat, x: byte)
    requires o < |a|
    ensures Splice(a, o, [x]) == a[o := x]
  {
  }

  /** Two writes at adjacent offsets are one longer write. */
  lemma Extend(was: seq<byte>, w: seq<byte>, u: seq<byte>) returns (r: seq<byte>)
    requires |w| + |u| <= |was|
    ensures r == w + u
    ensures Splice(Splice(was, 0, w), |w|, u) == Splice(was, 0, r)
  {
    r := w + u;
    SpliceSplice(was, 0, w, u);
  }

  method ReadVideoHeader(s: seq<byte>) returns (r: Option<VideoHeader>)
    ensures r == DecodeHeader(s)
  {
    if |s| < VIDEO_HEADER || GetU32(s, 0) != VIDEO_MAGIC {
      return None;
    }
    var timestampUs := GetU64(s, 8);
    hide And;
    var flags := s[24];
    FlagsOf(flags);
    var h := VideoHeader(
      GetU32(s, 4), timestampUs, GetU32(s, 16), GetU16(s, 20), GetU16(s, 22),
      And(flags, FLAG_KEYFRAME) != 0, And(flags, FLAG_LAST_CHUNK) != 0, GetU32(s, 25));
    if h.payloadSize > MAX_CHUNK || |s| < VIDEO_HEADER + h.payloadSize {
      return None;
    }
    return Some(h);
  }

  /** The header bytes of s with the six flag bits that carry no meaning cleared. */
  function Normalized(s: seq<byte>): (r: seq<byte>)
    requires |s| >= VIDEO_HEADER
  {
    s[..24] + [s[24] % 4] + s[25..29]
  }

  /** Field by field, s carries the header h. */
  predicate Carries(s: seq<byte>, h: VideoHeader)
    requires |s| >= VIDEO_HEADER
  {
    && s[0..4] == ToBE(VIDEO_MAGIC, 4) && s[4..8] == ToBE(h.seqNum, 4)
    && s[8..16] == ToBE(h.timestampUs, 8) && s[16..20] == ToBE(h.frameId, 4)
    && s[20..22] == ToBE(h.totalChunks, 2) && s[22..24] == ToBE(h.chunkIndex, 2)
    && s[24] % 4 == Flags(h.isKeyFrame, h.isLastChunk) && s[25..29] == ToBE(h.payloadSize, 4)
  }

  lemma CarriesEncoding(s: seq<byte>, h: VideoHeader)
    requires |s| >= VIDEO_HEADER
    ensures Carries(s, h) <==> Normalized(s) == EncodeHeader(h)
  {
    var s2 := s[0..4] + s[4..8];
    var s3 := s2 + s[8..16];
    var s4 := s3 + s[16..20];
    var s5 := s4 + s[20..22];
    var s6 := s5 + s[22..24];
    var s7 := s6 + [s[24] % 4];
    assert s[..24] == s6;
    var e2 := ToBE(VIDEO_MAGIC, 4) + ToBE(h.seqNum, 4);
    var e3 := e2 + ToBE(h.timestampUs, 8);
    var e4 := e3 + ToBE(h.frameId, 4);
    var e5 := e4 + ToBE(h.totalChunks, 2);
    var e6 := e5 + ToBE(h.chunkIndex, 2);
    var e7 := e6 + [Flags(h.isKeyFrame, h.isLastChunk)];
    PeelLast(s7, s[25..29], e7, ToBE(h.payloadSize, 4));
    PeelLast(s6, [s[24] % 4], e6, [Flags(h.isKeyFrame, h.isLastChunk)]);
    PeelLast(s5, s[22..24], e5, ToBE(h.chunkIndex, 2));
    PeelLast(s4, s[20..22], e4, ToBE(h.totalChunks, 2));
    PeelLast(s3, s[16..20], e3, ToBE(h.frameId, 4));
    PeelLast(s2, s[8..16], e2, ToBE(h.timestampUs, 8));
    PeelLast(s[0..4], s[4..8], ToBE(VIDEO_MAGIC, 4), ToBE(h.seqNum, 4));
  }

  lemma FlagBits(x: byte, k: bool, l: bool)
    ensures (x % 2 == 1) == k && (x / 2 % 2 == 1) == l <==> x % 4 == Flags(k, l)
  {
  }

  lemma CarriesFields(s: seq<byte>, h: VideoHeader)
    requires |s| >= VIDEO_HEADER
    ensures Carries(s, h) <==> GetU32(s, 0) == VIDEO_MAGIC && HeaderFields(s) == h
  {
    Pow256Values();
    SameValue(s[0..4], VIDEO_MAGIC);
    SameValue(s[4..8], h.seqNum);
    SameValue(s[8..16], h.timestampUs);
    SameValue(s[16..20], h.frameId);
    SameValue(s[20..22], h.totalChunks);
    SameValue(s[22..24], h.chunkIndex);
    SameValue(s[25..29], h.payloadSize);
    FlagBits(s[24], h.isKeyFrame, h.isLastChunk);
  }

  /** Exactly which byte strings decode, and to what: those that start with the encoding of h up to
      the six ignored flag bits, name at most MAX_CHUNK payload bytes and hold all of them. */
  lemma HeaderCodec(s: seq<byte>, h: VideoHeader)
    ensures DecodeHeader(s) == Some(h) <==>
            && h.payloadSize <= MAX_CHUNK
            && |s| >= VIDEO_HEADER + h.payloadSize
            && Normalized(s) == EncodeHeader(h)
  {
    if |s| >= VIDEO_HEADER {
      CarriesEncoding(s, h);
      CarriesFields(s, h);
    }
  }

  /** Reading what was written gives it back, with any payload behind it. */
  lemma HeaderRoundTrip(h: VideoHeader, rest: seq<byte>)
    requires h.payloadSize <= MAX_CHUNK && |rest| >= h.payloadSize
    ensures DecodeHeader(EncodeHeader(h) + rest) == Some(h)
  {
    var e := EncodeHeader(h);
    assert e[24] == Flags(h.isKeyFrame, h.isLastChunk);
    SameNormal(e, rest);
    HeaderCodec(e + rest, h);
  }

  lemma SameNormal(e: seq<byte>, rest: seq<byte>)
    requires |e| == VIDEO_HEADER && e[24] < 4
    ensures Normalized(e + rest) == e
  {
  }

  lemma FieldOf(v: nat, n: nat)
    requires v < Pow256(n)
    ensures BE(ToBE(v, n)) == v
  {
    BEToBE(v, n);
  }

  /** What Carries means byte by byte, with the constants of the wire format. */
  lemma CarriesBytes(s: seq<byte>, h: VideoHeader)
    requires |s| >= 29 && Carries(s, h)
    ensures s[0..4] == [0x49, 0x44, 0x53, 0x50]
    ensures BE(s[4..8]) == h.seqNum && BE(s[8..16]) == h.timestampUs && BE(s[16..20]) == h.frameId
    ensures BE(s[20..22]) == h.totalChunks && BE(s[22..24]) == h.chunkIndex && BE(s[25..29]) == h.payloadSize
    ensures (s[24] % 2 == 1 <==> h.isKeyFrame) && (s[24] / 2 % 2 == 1 <==> h.isLastChunk)
  {
    hide BE, ToBE;
    Pow256Values();
    FieldOf(h.seqNum, 4);
    FieldOf(h.timestampUs, 8);
    FieldOf(h.frameId, 4);
    FieldOf(h.totalChunks, 2);
    FieldOf(h.chunkIndex, 2);
    FieldOf(h.payloadSize, 4);
    FlagBits(s[24], h.isKeyFrame, h.isLastChunk);
    MagicBytes();
  }

  lemma MagicBytes()
    ensures ToBE(VIDEO_MAGIC, 4) == [0x49, 0x44, 0x53, 0x50]
  {
    hide ToBE;
    ToBE4(VIDEO_MAGIC);
  }

  /** Where each field of a written header is: the byte offsets, the magic "IDSP", and flag bits 0 and 1. */
  lemma HeaderLayout(h: VideoHeader)
    ensures var s := EncodeHeader(h);
            && |s| == 29
            && s[0..4] == [0x49, 0x44, 0x53, 0x50]
            && BE(s[4..8]) == h.seqNum && BE(s[8..16]) == h.timestampUs && BE(s[16..20]) == h.frameId
            && BE(s[20..22]) == h.totalChunks && BE(s[22..24]) == h.chunkIndex && BE(s[25..29]) == h.payloadSize
            && s[24] as int == (if h.isKeyFrame then 1 else 0) + (if h.isLastChunk then 2 else 0)
  {
    var s := EncodeHeader(h);
    FlagByte(h);
    SameNormal(s, []);
    assert s + [] == s;
    hide EncodeHeader;
    CarriesEncoding(s, h);
    CarriesBytes(s, h);
  }

  lemma FlagByte(h: VideoHeader)
    ensures EncodeHeader(h)[24] == Flags(h.isKeyFrame, h.isLastChunk) < 4
  {
  }

  /** Which byte strings are read as a header, and as what, in bytes. */
  lemma ReadLayout(s: seq<byte>)
    ensures DecodeHeader(s).Some? <==>
            && |s| >= 29
            && s[0..4] == [0x49, 0x44, 0x53, 0x50]
            && BE(s[25..29]) <= 1371
            && |s| >= 29 + BE(s[25..29])
    ensures DecodeHeader(s).Some? ==>
              var h := DecodeHeader(s).value;
              && h.seqNum == BE(s[4..8]) && h.timestampUs == BE(s[8..16]) && h.frameId == BE(s[16..20])
              && h.totalChunks == BE(s[20..22]) && h.chunkIndex == BE(s[22..24]) && h.payloadSize == BE(s[25..29])
              && (h.isKeyFrame <==> s[24] % 2 == 1) && (h.isLastChunk <==> s[24] / 2 % 2 == 1)
  {
    if |s| >= 29 {
      hide BE, ToBE;
      Pow256Values();
      SameValue(s[0..4], VIDEO_MAGIC);
      MagicBytes();
    }
  }

  // ---------- the chunker ----------

  datatype Frame = Frame(data: seq<byte>, frameId: uint32, timestampUs: uint64, isKeyFrame: bool)

  function ChunkCount(size: nat): (n: nat)
    ensures n > 0
  {
    if size == 0 then 1 else (size + MAX_CHUNK - 1) / MAX_CHUNK
  }

  function Min(a: nat, b: nat): nat { if a < b then a else b }

  /** The bytes of chunk i. */
  function Payload(data: seq<byte>, i: nat): (p: seq<byte>)
    ensures |p| <= MAX_CHUNK
  {
    var off := Min(i * MAX_CHUNK, |data|);
    data[off..off + Min(MAX_CHUNK, |data| - off)]
  }

  function ChunkHeader(f: Frame, seqNum: uint32, i: nat): VideoHeader {
    var n := ChunkCount(|f.data|);
    VideoHeader(
      seqNum, f.timestampUs, f.frameId, n % 0x1_0000, i % 0x1_0000,
      f.isKeyFrame, i + 1 == n, |Payload(f.data, i)|)
  }

  /** Chunk i of frame f, carrying sequence number seqNum. */
  function Packet(f: Frame, seqNum: uint32, i: nat): seq<byte> {
    EncodeHeader(ChunkHeader(f, seqNum, i)) + Payload(f.data, i)
  }

  /** The packets of a whole frame, numbered from seqStart and wrapping after 32 bits. */
  function Packets(f: Frame, seqStart: nat): (ps: seq<seq<byte>>)
    ensures |ps| == ChunkCount(|f.data|)
  {
    seq(ChunkCount(|f.data|), i requires i >= 0 => Packet(f, (seqStart + i) % TWO_32, i))
  }

  /** The bounds the chunk loops compute delimit the payload of chunk i. */
  lemma PayloadSlice(data: seq<byte>, i: nat)
    requires i < ChunkCount(|data|)
    ensures var off := i * MAX_CHUNK;
            var len := Min(MAX_CHUNK, |data| - Min(off, |data|));
            && off <= |data|
            && off + len <= |data|
            && Payload(data, i) == data[off..off + len]
  {
  }

  /** Puts a header and len payload bytes into pkt, leaving whatever is behind them. */
  method FillPacket(pkt: array<byte>, h: VideoHeader, data: seq<byte>, off: nat, len: nat)
    requires VIDEO_HEADER + len <= pkt.Length
    requires off + len <= |data|
    modifies pkt
    ensures pkt[..VIDEO_HEADER + len] == EncodeHeader(h) + data[off..off + len]
  {
    hide EncodeHeader;
    var ok := WriteVideoHeader(pkt, h);
    SpliceHead(old(pkt[..]), EncodeHeader(h));
    assert pkt[..VIDEO_HEADER] == EncodeHeader(h);
    CopyInto(pkt, data, off, len);
    TwoParts(pkt[..], VIDEO_HEADER, len);
  }

  lemma SpliceHead(a: seq<byte>, w: seq<byte>)
    requires |w| <= |a|
    ensures Splice(a, 0, w)[..|w|] == w
  {
  }

  lemma TwoParts(a: seq<byte>, m: nat, n: nat)
    requires m + n <= |a|
    ensures a[..m + n] == a[..m] + a[m..m + n]
  {
  }

  lemma SameSlice(p: seq<byte>, a: nat, q: seq<byte>, b: nat, n: nat)
    requires a + n <= |p| && b + n <= |q|
    requires forall m :: a <= m < a + n ==> p[m] == q[b + (m - a)]
    ensures p[a..a + n] == q[b..b + n]
  {
    var s, t := p[a..a + n], q[b..b + n];
    forall k | 0 <= k < n ensures s[k] == t[k] {
      assert p[a + k] == q[b + (a + k - a)];
    }
  }

  /** memcpy of len bytes behind the header. */
  method CopyInto(pkt: array<byte>, data: seq<byte>, off: nat, len: nat)
    requires VIDEO_HEADER + len <= pkt.Length
    requires off + len <= |data|
    modifies pkt
    ensures pkt[..VIDEO_HEADER] == old(pkt[..VIDEO_HEADER])
    ensures pkt[VIDEO_HEADER..VIDEO_HEADER + len] == data[off..off + len]
  {
    if len > 0 {
      forall k | 0 <= k < len {
        pkt[VIDEO_HEADER + k] := data[off + k];
      }
    }
    assert forall k | 0 <= k < VIDEO_HEADER :: pkt[..VIDEO_HEADER][k] == old(pkt[..VIDEO_HEADER])[k];
    forall m | VIDEO_HEADER <= m < VIDEO_HEADER + len ensures pkt[m] == data[off + (m - VIDEO_HEADER)] {
      assert pkt[VIDEO_HEADER + (m - VIDEO_HEADER)] == data[off + (m - VIDEO_HEADER)];
    }
    SameSlice(pkt[..], VIDEO_HEADER, data, off, len);
  }

  /** The loop body the two chunkers share: builds chunk i of n in pkt and tells its payload length. */
  method BuildPacket(pkt: array<byte>, f: Frame, n: nat, seqNum: uint32, i: nat) returns (len: nat)
    requires n == ChunkCount(|f.data|) && i < n
    requires VIDEO_HEADER + Min(MAX_CHUNK, |f.data| - Min(i * MAX_CHUNK, |f.data|)) <= pkt.Length
    modifies pkt
    ensures len == |Payload(f.data, i)| && VIDEO_HEADER + len <= pkt.Length
    ensures pkt[..VIDEO_HEADER + len] == Packet(f, seqNum, i)
  {
    PayloadSlice(f.data, i);
    var off := i * MAX_CHUNK;
    len := Min(MAX_CHUNK, |f.data| - Min(off, |f.data|));
    var h := VideoHeader(
      seqNum, f.timestampUs, f.frameId, n % 0x1_0000, i % 0x1_0000, f.isKeyFrame, i + 1 == n, len);
    FillPacket(pkt, h, f.data, off, len);
  }

  method ChunkFrame(nal: seq<byte>, seqStart: uint32, frameId: uint32, timestampUs: uint64, isKeyFrame: bool)
    returns (out: seq<seq<byte>>)
    ensures out == Packets(Frame(nal, frameId, timestampUs, isKeyFrame), seqStart)
  {
    hide EncodeHeader;
    var total := (|nal| + MAX_CHUNK - 1) / MAX_CHUNK;
    var chunks := if total == 0 then 1 else total;
    var f := Frame(nal, frameId, timestampUs, isKeyFrame);
    out := [];
    for i := 0 to chunks
      invariant chunks == ChunkCount(|nal|)
      invariant |out| == i
      invariant forall k :: 0 <= k < i ==> out[k] == Packet(f, (seqStart + k) % TWO_32, k)
    {
      var len := Min(MAX_CHUNK, |nal| - Min(i * MAX_CHUNK, |nal|));
      var pkt := new byte[VIDEO_HEADER + len](_ => 0);
      var seqNum := (seqStart + i) % TWO_32;
      var _ := BuildPacket(pkt, f, chunks, seqNum, i);
      assert pkt[..] == pkt[..VIDEO_HEADER + len];
      out := out + [pkt[..]];
    }
  }

  // ---------- what the packets of a frame carry ----------

  lemma PacketDecodes(f: Frame, seqNum: uint32, i: nat)
    ensures DecodeHeader(Packet(f, seqNum, i)) == Some(ChunkHeader(f, seqNum, i))
    ensures Packet(f, seqNum, i)[VIDEO_HEADER..] == Payload(f.data, i)
  {
    hide EncodeHeader, DecodeHeader;
    HeaderRoundTrip(ChunkHeader(f, seqNum, i), Payload(f.data, i));
  }

  function Flatten(ss: seq<seq<byte>>): seq<byte> {
    if ss == [] then [] else Flatten(ss[..|ss| - 1]) + ss[|ss| - 1]
  }

  lemma ChunkSizes(size: nat)
    ensures var n := ChunkCount(size);
            && (n - 1) * MAX_CHUNK <= size <= n * MAX_CHUNK
            && ((n - 1) * MAX_CHUNK == size <==> size == 0)
  {
  }

  /** The payloads of the first n chunks are a prefix of the frame, in order. */
  lemma {:induction false} PayloadPrefix(data: seq<byte>, payloads: seq<seq<byte>>)
    requires forall i :: 0 <= i < |payloads| ==> payloads[i] == Payload(data, i)
    ensures Flatten(payloads) == data[..Min(|payloads| * MAX_CHUNK, |data|)]
  {
    if payloads != [] {
      PayloadPrefix(data, payloads[..|payloads| - 1]);
    }
  }

  function PayloadsOf(packets: seq<seq<byte>>): (ps: seq<seq<byte>>)
    requires forall p :: p in packets ==> |p| >= VIDEO_HEADER
    ensures |ps| == |packets|
  {
    seq(|packets|, i requires 0 <= i < |packets| => packets[i][VIDEO_HEADER..])
  }

  lemma PacketAt(f: Frame, seqStart: uint32, i: nat)
    requires i < ChunkCount(|f.data|)
    ensures var p := Packets(f, seqStart)[i];
            && |p| == VIDEO_HEADER + |Payload(f.data, i)|
            && p[VIDEO_HEADER..] == Payload(f.data, i)
            && DecodeHeader(p) == Some(ChunkHeader(f, (seqStart + i) % TWO_32, i))
  {
    hide EncodeHeader, DecodeHeader;
    PacketDecodes(f, (seqStart + i) % TWO_32, i);
  }

  /** Nothing is lost, duplicated or reordered by chunking: the payloads concatenate to the frame. */
  lemma ChunkConservation(f: Frame, seqStart: uint32)
    ensures forall p :: p in Packets(f, seqStart) ==> |p| >= VIDEO_HEADER
    ensures Flatten(PayloadsOf(Packets(f, seqStart))) == f.data
  {
    hide Packet, DecodeHeader;
    var ps := Packets(f, seqStart);
    forall i | 0 <= i < |ps|
      ensures |ps[i]| >= VIDEO_HEADER && ps[i][VIDEO_HEADER..] == Payload(f.data, i)
    {
      PacketAt(f, seqStart, i);
    }
    PayloadPrefix(f.data, PayloadsOf(ps));
    ChunkSizes(|f.data|);
  }

  /** Every packet fits MAX_PACKET and all but the last fill it; the last one is without payload only for
      an empty frame; consecutive sequence numbers; exactly the last one carries the last-chunk flag. */
  lemma ChunkShape(f: Frame, seqStart: uint32, i: nat)
    requires i < ChunkCount(|f.data|)
    ensures var ps := Packets(f, seqStart);
            && 29 <= |ps[i]| <= 1400
            && (i < |ps| - 1 ==> |ps[i]| == 1400)
            && (i == |ps| - 1 ==> (|ps[i]| == 29 <==> f.data == []))
            && DecodeHeader(ps[i]).Some?
            && var h := DecodeHeader(ps[i]).value;
               && h.seqNum == (seqStart + i) % TWO_32
               && 29 + h.payloadSize == |ps[i]|
               && (h.isLastChunk <==> i == |ps| - 1)
  {
    hide Packet, DecodeHeader;
    ChunkSizes(|f.data|);
    PacketAt(f, seqStart, i);
  }

  lemma ChunkOfBytes(data: seq<byte>, i: nat)
    requires i < ChunkCount(|data|)
    ensures 1371 * i <= |data|
    ensures Payload(data, i) == data[1371 * i..Min(1371 * i + 1371, |data|)]
  {
    PayloadSlice(data, i);
  }

  /** p reads as chunk i of n of this frame: the caller's id, time stamp and key flag, the place of the
      chunk, and the 1371 bytes, or for the last chunk the rest, that belong there. */
  predicate Reads(p: seq<byte>, f: Frame, n: nat, i: nat) {
    && DecodeHeader(p).Some?
    && var h := DecodeHeader(p).value;
       && h.frameId == f.frameId && h.timestampUs == f.timestampUs && h.isKeyFrame == f.isKeyFrame
       && h.totalChunks == n % 0x1_0000 && h.chunkIndex == i % 0x1_0000
       && (h.isLastChunk <==> i + 1 == n)
       && 1371 * i <= |f.data|
       && p[29..29 + h.payloadSize] == p[29..] == f.data[1371 * i..Min(1371 * i + 1371, |f.data|)]
  }

  lemma PacketReads(f: Frame, seqNum: uint32, i: nat)
    requires i < ChunkCount(|f.data|)
    ensures Reads(Packet(f, seqNum, i), f, ChunkCount(|f.data|), i)
    ensures DecodeHeader(Packet(f, seqNum, i)).value.seqNum == seqNum
  {
    PacketDecodes(f, seqNum, i);
    ChunkOfBytes(f.data, i);
    hide EncodeHeader, DecodeHeader, Payload;
    var p := Packet(f, seqNum, i);
    assert p[29..|p|] == p[29..];
  }

  /** Every packet of a frame reads as what it is. */
  lemma PacketCarries(f: Frame, seqStart: uint32, i: nat)
    requires i < |Packets(f, seqStart)|
    ensures Reads(Packets(f, seqStart)[i], f, |Packets(f, seqStart)|, i)
    ensures DecodeHeader(Packets(f, seqStart)[i]).value.seqNum == (seqStart + i) % TWO_32
  {
    hide Packet, DecodeHeader, Reads;
    PacketReads(f, (seqStart + i) % TWO_32, i);
  }

  /** p says that it is chunk i of n. */
  predicate Says(p: seq<byte>, n: nat, i: nat) {
    DecodeHeader(p).Some? && DecodeHeader(p).value.totalChunks == n && DecodeHeader(p).value.chunkIndex == i
  }

  /** The 16-bit chunk fields say what they should for exactly the frames of at most 65535 chunks. */
  lemma ChunkFieldsExact(f: Frame, seqStart: uint32)
    ensures (forall i | 0 <= i < |Packets(f, seqStart)| :: Says(Packets(f, seqStart)[i], |Packets(f, seqStart)|, i))
            <==> |f.data| <= 65535 * 1371
  {
    hide Packets, DecodeHeader;
    var ps := Packets(f, seqStart);
    ChunkSizes(|f.data|);
    forall i | 0 <= i < |ps| ensures Says(ps[i], |ps|, i) <==> |ps| % 0x1_0000 == |ps| && i % 0x1_0000 == i {
      PacketCarries(f, seqStart, i);
    }
    if |ps| > 0xFFFF {
      assert !Says(ps[0], |ps|, 0);
    }
  }
}
