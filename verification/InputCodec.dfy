/** The IDIP input packet of src/network/protocol.hpp.  Floats are carried as their 32-bit patterns, and
    the touch type as its byte, since the reader casts any byte to the enumeration. */
module InputCodec {
  import opened Wrappers
  import opened Bytes

  const INPUT_MAGIC: uint32 := 0x4944_4950
  const INPUT_HEADER: nat := 14
  const TOUCH_SIZE: nat := 9

  datatype TouchPoint = TouchPoint(id: byte, x: uint32, y: uint32)
  datatype InputPacket = InputPacket(timestampUs: uint64, kind: byte, touches: seq<TouchPoint>)

  function InputPacketSize(touchCount: nat): nat { INPUT_HEADER + TOUCH_SIZE * touchCount }

  function EncodeTouch(t: TouchPoint): (s: seq<byte>)
    ensures |s| == TOUCH_SIZE
  {
    [t.id] + ToBE(t.x, 4) + ToBE(t.y, 4)
  }

  function EncodeTouches(ts: seq<TouchPoint>): (s: seq<byte>)
    ensures |s| == TOUCH_SIZE * |ts|
  {
    if ts == [] then [] else EncodeTouches(ts[..|ts| - 1]) + EncodeTouch(ts[|ts| - 1])
  }

  function EncodeHead(timestampUs: uint64, kind: byte, count: byte): (s: seq<byte>)
    ensures |s| == INPUT_HEADER
  {
    ToBE(INPUT_MAGIC, 4) + ToBE(timestampUs, 8) + [kind] + [count]
  }

  function EncodeInput(ev: InputPacket): (s: seq<byte>)
    requires |ev.touches| <= 255
    ensures |s| == InputPacketSize(|ev.touches|)
  {
    EncodeHead(ev.timestampUs, ev.kind, |ev.touches|) + EncodeTouches(ev.touches)
  }

  function DecodeTouch(s: seq<byte>): TouchPoint
    requires |s| == TOUCH_SIZE
  {
    TouchPoint(s[0], GetU32(s, 1), GetU32(s, 5))
  }

  function DecodeTouches(s: seq<byte>, count: nat): (ts: seq<TouchPoint>)
    requires |s| >= TOUCH_SIZE * count
    ensures |ts| == count
  {
    if count == 0 then []
    else
      var o := TOUCH_SIZE * (count - 1);
      DecodeTouches(s, count - 1) + [DecodeTouch(s[o..o + TOUCH_SIZE])]
  }

  function DecodeInput(s: seq<byte>): Option<InputPacket> {
    if |s| < INPUT_HEADER || GetU32(s, 0) != INPUT_MAGIC || |s| < InputPacketSize(s[13]) then None
    else
      Pow256Values();
      ToBEBE(s[4..12]);
      Some(InputPacket(BE(s[4..12]), s[12], DecodeTouches(s[INPUT_HEADER..], s[13])))
  }

  lemma TouchCodec(s: seq<byte>, t: TouchPoint)
    requires |s| == TOUCH_SIZE
    ensures DecodeTouch(s) == t <==> s == EncodeTouch(t)
  {
    Pow256Values();
    SameValue(s[1..5], t.x);
    SameValue(s[5..9], t.y);
    hide ToBE;
    assert s == [s[0]] + s[1..5] + s[5..9];
    if s == EncodeTouch(t) {
      var e := EncodeTouch(t);
      assert s[1..5] == e[1..5] == ToBE(t.x, 4);
      assert s[5..9] == e[5..9] == ToBE(t.y, 4);
    }
  }

  lemma {:induction false} TouchesCodec(s: seq<byte>, ts: seq<TouchPoint>)
    requires |s| >= TOUCH_SIZE * |ts|
    ensures DecodeTouches(s, |ts|) == ts <==> EncodeTouches(ts) == s[..TOUCH_SIZE * |ts|]
  {
    hide EncodeTouch, DecodeTouch;
    if ts != [] {
      var n := |ts| - 1;
      var o := TOUCH_SIZE * n;
      TouchesCodec(s, ts[..n]);
      TouchCodec(s[o..o + TOUCH_SIZE], ts[n]);
      assert ts == ts[..n] + [ts[n]];
      assert s[..TOUCH_SIZE * |ts|] == s[..o] + s[o..o + TOUCH_SIZE];
      PeelLast(DecodeTouches(s, n), [DecodeTouch(s[o..o + TOUCH_SIZE])], ts[..n], [ts[n]]);
      PeelLast(EncodeTouches(ts[..n]), EncodeTouch(ts[n]), s[..o], s[o..o + TOUCH_SIZE]);
    }
  }

  lemma HeadCodec(s: seq<byte>, timestampUs: uint64, kind: byte, count: byte)
    requires |s| >= INPUT_HEADER
    ensures s[..INPUT_HEADER] == EncodeHead(timestampUs, kind, count) <==>
            && GetU32(s, 0) == INPUT_MAGIC
            && BE(s[4..12]) == timestampUs
            && s[12] == kind
            && s[13] == count
  {
    hide ToBE, BE, GetU32;
    Pow256Values();
    SameValue(s[0..4], INPUT_MAGIC);
    SameValue(s[4..12], timestampUs);
    assert s[..INPUT_HEADER] == s[0..4] + s[4..12] + [s[12]] + [s[13]];
    PeelLast(s[0..4] + s[4..12] + [s[12]], [s[13]], ToBE(INPUT_MAGIC, 4) + ToBE(timestampUs, 8) + [kind], [count]);
    PeelLast(s[0..4] + s[4..12], [s[12]], ToBE(INPUT_MAGIC, 4) + ToBE(timestampUs, 8), [kind]);
    PeelLast(s[0..4], s[4..12], ToBE(INPUT_MAGIC, 4), ToBE(timestampUs, 8));
  }

  /** The parser accepts exactly the byte strings that begin with the encoding of a packet of at most
      255 touches, and returns that packet bit for bit. */
  lemma InputCodecExact(s: seq<byte>, ev: InputPacket)
    ensures DecodeInput(s) == Some(ev) <==> |ev.touches| <= 255 && EncodeInput(ev) <= s
  {
    hide EncodeHead, EncodeTouches, DecodeTouches;
    if |s| >= INPUT_HEADER && |ev.touches| <= 255 {
      HeadCodec(s, ev.timestampUs, ev.kind, |ev.touches|);
      if |s| >= InputPacketSize(|ev.touches|) {
        var n := InputPacketSize(|ev.touches|);
        TouchesCodec(s[INPUT_HEADER..], ev.touches);
        assert s[..n] == s[..INPUT_HEADER] + s[INPUT_HEADER..][..TOUCH_SIZE * |ev.touches|];
        PeelLast(EncodeHead(ev.timestampUs, ev.kind, |ev.touches|), EncodeTouches(ev.touches),
              s[..INPUT_HEADER], s[INPUT_HEADER..][..TOUCH_SIZE * |ev.touches|]);
      }
    }
  }

  lemma TouchBytes(t: TouchPoint)
    ensures var s := EncodeTouch(t);
            |s| == 9 && s[0] == t.id && BE(s[1..5]) == t.x && BE(s[5..9]) == t.y
  {
    Pow256Values();
    BEToBE(t.x, 4);
    BEToBE(t.y, 4);
    hide ToBE, BE;
    var s := EncodeTouch(t);
    assert s[1..5] == ToBE(t.x, 4) && s[5..9] == ToBE(t.y, 4);
  }

  lemma HeadBytes(timestampUs: uint64, kind: byte, count: byte)
    ensures var s := EncodeHead(timestampUs, kind, count);
            && |s| == 14
            && s[0..4] == [0x49, 0x44, 0x49, 0x50]
            && BE(s[4..12]) == timestampUs && s[12] == kind && s[13] == count
  {
    Pow256Values();
    BEToBE(timestampUs, 8);
    hide ToBE, BE;
    ToBE4(INPUT_MAGIC);
    var s := EncodeHead(timestampUs, kind, count);
    assert s[0..4] == ToBE(INPUT_MAGIC, 4) && s[4..12] == ToBE(timestampUs, 8);
  }

  lemma {:induction false} TouchAt(ts: seq<TouchPoint>, k: nat)
    requires k < |ts|
    ensures EncodeTouches(ts)[9 * k..9 * k + 9] == EncodeTouch(ts[k])
  {
    hide EncodeTouch;
    var n := |ts| - 1;
    if k < n {
      TouchAt(ts[..n], k);
      assert EncodeTouches(ts)[9 * k..9 * k + 9] == EncodeTouches(ts[..n])[9 * k..9 * k + 9];
    }
  }

  /** The head of a written packet: the magic "IDIP", the time stamp, the type and the number of touches. */
  lemma InputLayout(ev: InputPacket)
    requires |ev.touches| <= 255
    ensures var s := EncodeInput(ev);
            && |s| == 14 + 9 * |ev.touches|
            && s[0..4] == [0x49, 0x44, 0x49, 0x50]
            && BE(s[4..12]) == ev.timestampUs && s[12] == ev.kind && s[13] as int == |ev.touches|
  {
    HeadBytes(ev.timestampUs, ev.kind, |ev.touches|);
    hide EncodeHead, EncodeTouches, BE;
    var s := EncodeInput(ev);
    var head := EncodeHead(ev.timestampUs, ev.kind, |ev.touches|);
    assert s[0..4] == head[0..4] && s[4..12] == head[4..12];
  }

  /** Behind it, id, x and y of touch k in nine bytes. */
  lemma TouchLayout(ev: InputPacket, k: nat, o: nat)
    requires |ev.touches| <= 255 && k < |ev.touches| && o == 14 + 9 * k
    ensures o + 9 <= |EncodeInput(ev)|
    ensures var s := EncodeInput(ev);
            && s[o] == ev.touches[k].id
            && BE(s[o + 1..o + 5]) == ev.touches[k].x
            && BE(s[o + 5..o + 9]) == ev.touches[k].y
  {
    TouchAt(ev.touches, k);
    TouchBytes(ev.touches[k]);
    hide EncodeHead, EncodeTouches, EncodeTouch, BE;
    var s := EncodeInput(ev);
    var t := EncodeTouch(ev.touches[k]);
    assert s[o..o + 9] == EncodeTouches(ev.touches)[9 * k..9 * k + 9];
    InTouch(s, o, t);
  }

  lemma InTouch(s: seq<byte>, o: nat, t: seq<byte>)
    requires o + 9 <= |s| && s[o..o + 9] == t
    ensures s[o] == t[0] && s[o + 1..o + 5] == t[1..5] && s[o + 5..o + 9] == t[5..9]
  {
    Subslice(s, o, 9, 1, 5);
    Subslice(s, o, 9, 5, 9);
  }

  lemma Subslice(s: seq<byte>, o: nat, n: nat, i: nat, j: nat)
    requires o + n <= |s| && i <= j <= n
    ensures s[o..o + n][i..j] == s[o + i..o + j]
  {
    var t := s[o..o + n];
    assert |t[i..j]| == |s[o + i..o + j]|;
    forall k | 0 <= k < j - i ensures t[i..j][k] == s[o + i..o + j][k] {
      assert t[i + k] == s[o + (i + k)];
    }
  }

  /** Every strict prefix of an encoded packet is rejected, and bytes behind it change nothing. */
  lemma InputFraming(ev: InputPacket, rest: seq<byte>, n: nat)
    requires |ev.touches| <= 255 && n < |EncodeInput(ev)|
    ensures DecodeInput(EncodeInput(ev) + rest) == Some(ev)
    ensures DecodeInput(EncodeInput(ev)[..n]).None?
  {
    hide EncodeInput, DecodeInput;
    InputCodecExact(EncodeInput(ev) + rest, ev);
    var p := EncodeInput(ev)[..n];
    if DecodeInput(p).Some? {
      var other := DecodeInput(p).value;
      InputCodecExact(p, other);
      InputCodecExact(EncodeInput(ev), other);
      InputCodecExact(EncodeInput(ev), ev);
      assert false;
    }
  }

  lemma NoTouches(head: seq<byte>, ts: seq<TouchPoint>)
    ensures head + EncodeTouches(ts[..0]) == head
    ensures ts[..|ts|] == ts
  {
  }

  lemma OneMoreTouch(was: seq<byte>, head: seq<byte>, ts: seq<TouchPoint>, i: nat)
    requires i < |ts| && |head| + TOUCH_SIZE * (i + 1) <= |was|
    ensures Splice(Splice(was, 0, head + EncodeTouches(ts[..i])), |head| + TOUCH_SIZE * i, EncodeTouch(ts[i]))
         == Splice(was, 0, head + EncodeTouches(ts[..i + 1]))
  {
    hide EncodeTouch, Splice;
    var done := EncodeTouches(ts[..i]);
    assert ts[..i + 1][..i] == ts[..i];
    assert head + (done + EncodeTouch(ts[i])) == (head + done) + EncodeTouch(ts[i]);
    SpliceSplice(was, 0, head + done, EncodeTouch(ts[i]));
  }

  method WriteInputPacket(out: array<byte>, ev: InputPacket) returns (n: nat)
    modifies out
    ensures |ev.touches| <= 255 && InputPacketSize(|ev.touches|) <= out.Length ==>
              && n == InputPacketSize(|ev.touches|)
              && out[..] == Splice(old(out[..]), 0, EncodeInput(ev))
    ensures !(|ev.touches| <= 255 && InputPacketSize(|ev.touches|) <= out.Length) ==>
              n == 0 && out[..] == old(out[..])
  {
    if |ev.touches| > 255 {
      return 0;
    }
    var need := InputPacketSize(|ev.touches|);
    if out.Length < need {
      return 0;
    }
    ghost var was := out[..];
    WriteHead(out, ev.timestampUs, ev.kind, |ev.touches|);
    ghost var head := EncodeHead(ev.timestampUs, ev.kind, |ev.touches|);
    hide EncodeHead, EncodeTouch, EncodeTouches, Splice;
    var o := INPUT_HEADER;
    NoTouches(head, ev.touches);
    for i := 0 to |ev.touches|
      invariant o == InputPacketSize(i)
      invariant out[..] == Splice(was, 0, head + EncodeTouches(ev.touches[..i]))
    {
      WriteTouch(out, o, ev.touches[i]);
      OneMoreTouch(was, head, ev.touches, i);
      o := o + TOUCH_SIZE;
    }
    return need;
  }

  method WriteHead(out: array<byte>, timestampUs: uint64, kind: byte, count: byte)
    requires out.Length >= INPUT_HEADER
    modifies out
    ensures out[..] == Splice(old(out[..]), 0, EncodeHead(timestampUs, kind, count))
  {
    hide ToBE;
    ghost var was := out[..];
    PutU32(out, 0, INPUT_MAGIC);
    PutU64(out, 4, timestampUs);
    SpliceSplice(was, 0, ToBE(INPUT_MAGIC, 4), ToBE(timestampUs, 8));
    ghost var w := ToBE(INPUT_MAGIC, 4) + ToBE(timestampUs, 8);
    ghost var before := out[..];
    out[12] := kind;
    assert out[..] == Splice(before, 12, [kind]);
    SpliceSplice(was, 0, w, [kind]);
    before := out[..];
    out[13] := count;
    assert out[..] == Splice(before, 13, [count]);
    SpliceSplice(was, 0, w + [kind], [count]);
  }

  method WriteTouch(out: array<byte>, o: nat, t: TouchPoint)
    requires o + TOUCH_SIZE <= out.Length
    modifies out
    ensures out[..] == Splice(old(out[..]), o, EncodeTouch(t))
  {
    hide ToBE;
    ghost var was := out[..];
    out[o] := t.id;
    assert out[..] == Splice(was, o, [t.id]);
    PutU32(out, o + 1, t.x);
    SpliceSplice(was, o, [t.id], ToBE(t.x, 4));
    PutU32(out, o + 5, t.y);
    SpliceSplice(was, o, [t.id] + ToBE(t.x, 4), ToBE(t.y, 4));
  }

  method ReadInputPacket(s: seq<byte>) returns (r: Option<InputPacket>)
    ensures r == DecodeInput(s)
  {
    hide GetU32, DecodeTouch, BE;
    if |s| < INPUT_HEADER || GetU32(s, 0) != INPUT_MAGIC {
      return None;
    }
    var timestampUs := GetU64(s, 4);
    var kind := s[12];
    var count := s[13];
    if |s| < InputPacketSize(count) {
      return None;
    }
    var touches: seq<TouchPoint> := [];
    var o := INPUT_HEADER;
    for i := 0 to count as int
      invariant o == InputPacketSize(i)
      invariant touches == DecodeTouches(s[INPUT_HEADER..], i)
    {
      ghost var rest := s[INPUT_HEADER..];
      assert rest[TOUCH_SIZE * i..TOUCH_SIZE * i + TOUCH_SIZE] == s[o..o + TOUCH_SIZE];
      TouchInPlace(s, o);
      touches := touches + [TouchPoint(s[o], GetU32(s, o + 1), GetU32(s, o + 5))];
      o := o + TOUCH_SIZE;
    }
    return Some(InputPacket(timestampUs, kind, touches));
  }

  lemma TouchInPlace(s: seq<byte>, o: nat)
    requires o + TOUCH_SIZE <= |s|
    ensures DecodeTouch(s[o..o + TOUCH_SIZE]) == TouchPoint(s[o], GetU32(s, o + 1), GetU32(s, o + 5))
  {
    var t := s[o..o + TOUCH_SIZE];
    assert t[1..5] == s[o + 1..o + 5] && t[5..9] == s[o + 5..o + 9];
  }
}
