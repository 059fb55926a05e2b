/** Concurrent calls of UdpServer::sendFrame and UdpServer::setClientEndpoint.

    Every shared access is a step of its own: the m_hasClient load, the m_frameId fetch_add that comes
    before the mutex, taking and releasing the mutex, each m_seqNum fetch_add, each sendto, and the
    three writes of setClientEndpoint.  A run is an arbitrary schedule of the calls; scheduling a call
    that waits for the mutex, or is over, changes nothing. */
module SenderSystem {
  import opened Wrappers
  import opened Bytes
  import opened VideoCodec
  import opened UdpServer

  datatype Call =
    | SendCall(data: seq<byte>, isKeyFrame: bool, timestampUs: uint64)
    | EndpointCall(endpoint: Endpoint)

  datatype Phase =
    | Start
    | Checked                                        // m_hasClient was set
    | Numbered(ticket: nat)                          // drew m_frameId, needs the mutex
    | Chunking(ticket: nat, i: nat)                  // holds the mutex, chunk i is next
    | Stamped(ticket: nat, i: nat, seqNum: uint32)   // drew m_seqNum, sendto is next
    | Storing                                        // setClientEndpoint holds the mutex
    | Cleared
    | Filled
    | Published
    | Done

  /** A sendFrame call that got the mutex: which call, the how-many-th to draw m_frameId, and the
      endpoint it found. */
  datatype Entry = Entry(call: nat, ticket: nat, endpoint: Endpoint)

  /** The 32-bit counters m_frameId and m_seqNum hold numbered and stamped modulo 2^32.  order is the
      history of sendFrame calls in the order they took the mutex, and turns that of all calls. */
  datatype State = State(
    phases: seq<Phase>,
    hasClient: bool,
    clientAddr: Endpoint,
    holder: Option<nat>,
    numbered: nat,
    stamped: nat,
    wire: seq<Attempt>,
    order: seq<Entry>,
    turns: seq<nat>
  )

  function Init(calls: seq<Call>): State {
    State(seq(|calls|, _ => Start), false, Endpoint("", 0), None, 0, 0, [], [], [])
  }

  function FrameOf(calls: seq<Call>, t: nat, ticket: nat): Frame
    requires t < |calls| && calls[t].SendCall?
  {
    Frame(calls[t].data, ticket % TWO_32, calls[t].timestampUs, calls[t].isKeyFrame)
  }

  function Count(calls: seq<Call>, t: nat): nat
    requires t < |calls| && calls[t].SendCall?
  {
    ChunkCount(|calls[t].data|)
  }

  predicate NeedsMutex(call: Call, p: Phase) {
    p.Numbered? || (p.Start? && call.EndpointCall?)
  }

  predicate HoldsMutex(p: Phase) {
    p.Chunking? || p.Stamped? || p.Storing? || p.Cleared? || p.Filled? || p.Published?
  }

  /** A call is in a phase of its own function. */
  predicate Fits(calls: seq<Call>, t: nat, p: Phase)
    requires t < |calls|
  {
    match p
    case Start | Done => true
    case Checked | Numbered(_) => calls[t].SendCall?
    case Chunking(_, i) => calls[t].SendCall? && i <= Count(calls, t)
    case Stamped(_, i, _) => calls[t].SendCall? && i < Count(calls, t)
    case Storing | Cleared | Filled | Published => calls[t].EndpointCall?
  }

  predicate Typed(calls: seq<Call>, s: State) {
    && |s.phases| == |calls|
    && forall t :: 0 <= t < |calls| ==> Fits(calls, t, s.phases[t])
  }

  predicate Enabled(calls: seq<Call>, s: State, t: nat)
    requires Typed(calls, s)
  {
    && t < |calls|
    && !s.phases[t].Done?
    && (NeedsMutex(calls[t], s.phases[t]) ==> s.holder.None?)
  }

  /** One step of call t; socketOpen is whether bind succeeded. */
  function Step(calls: seq<Call>, socketOpen: bool, s: State, t: nat): (s': State)
    requires Typed(calls, s)
    ensures Typed(calls, s')
  {
    if !Enabled(calls, s, t) then s
    else
      match s.phases[t]
      case Start =>
        if calls[t].EndpointCall? then
          s.(phases := s.phases[t := Storing], holder := Some(t), turns := s.turns + [t])
        else s.(phases := s.phases[t := if s.hasClient && socketOpen then Checked else Done])
      case Checked =>
        s.(phases := s.phases[t := Numbered(s.numbered)], numbered := s.numbered + 1)
      case Numbered(ticket) =>
        s.(phases := s.phases[t := Chunking(ticket, 0)], holder := Some(t),
           order := s.order + [Entry(t, ticket, s.clientAddr)], turns := s.turns + [t])
      case Chunking(ticket, i) =>
        if i < Count(calls, t) then
          s.(phases := s.phases[t := Stamped(ticket, i, s.stamped % TWO_32)], stamped := s.stamped + 1)
        else
          s.(phases := s.phases[t := Done], holder := None)
      case Stamped(ticket, i, seqNum) =>
        s.(phases := s.phases[t := Chunking(ticket, i + 1)],
           wire := s.wire + [Attempt(s.clientAddr, Packet(FrameOf(calls, t, ticket), seqNum, i))])
      case Storing => s.(phases := s.phases[t := Cleared], clientAddr := Endpoint("", 0))
      case Cleared => s.(phases := s.phases[t := Filled], clientAddr := calls[t].endpoint)
      case Filled => s.(phases := s.phases[t := Published], hasClient := true)
      case Published => s.(phases := s.phases[t := Done], holder := None)
      case Done => s
  }

  function Run(calls: seq<Call>, socketOpen: bool, schedule: seq<nat>): (s: State)
    ensures Typed(calls, s)
  {
    if schedule == [] then Init(calls)
    else
      Step(calls, socketOpen, Run(calls, socketOpen, schedule[..|schedule| - 1]), schedule[|schedule| - 1])
  }

  // ---------- the wire in terms of chunkFrame ----------

  predicate Entries(calls: seq<Call>, order: seq<Entry>) {
    forall e :: e in order ==> e.call < |calls| && calls[e.call].SendCall?
  }

  /** What one frame puts on the wire when `sent` attempts precede it. */
  function Block(calls: seq<Call>, e: Entry, sent: nat): seq<Attempt>
    requires e.call < |calls| && calls[e.call].SendCall?
  {
    Attempts(e.endpoint, Packets(FrameOf(calls, e.call, e.ticket), sent % TWO_32))
  }

  /** The chunkFrame packets of the given frames one frame after the other, numbered through. */
  function Wire(calls: seq<Call>, order: seq<Entry>): seq<Attempt>
    requires Entries(calls, order)
  {
    if order == [] then []
    else
      var before := Wire(calls, order[..|order| - 1]);
      before + Block(calls, order[|order| - 1], |before|)
  }

  // ---------- the invariant ----------

  predicate MutexInv(calls: seq<Call>, s: State)
    requires Typed(calls, s)
  {
    && (s.holder.Some? ==> s.holder.value < |calls|)
    && forall t :: 0 <= t < |calls| ==> (HoldsMutex(s.phases[t]) <==> s.holder == Some(t))
  }

  predicate TicketInv(calls: seq<Call>, s: State)
    requires Typed(calls, s)
  {
    && Entries(calls, s.order)
    && (forall e :: e in s.order ==> e.ticket < s.numbered)
    && (forall j, k :: 0 <= j < k < |s.order| ==> s.order[j].ticket != s.order[k].ticket)
    && (forall t :: 0 <= t < |calls| && s.phases[t].Numbered? ==>
          && s.phases[t].ticket < s.numbered
          && forall e :: e in s.order ==> e.ticket != s.phases[t].ticket)
    && (forall t, u :: 0 <= t < u < |calls| && s.phases[t].Numbered? && s.phases[u].Numbered? ==>
          s.phases[t].ticket != s.phases[u].ticket)
  }

  /** Is some call inside the chunk loop? */
  predicate Sending(calls: seq<Call>, s: State)
    requires Typed(calls, s)
  {
    s.holder.Some? && s.holder.value < |calls| && calls[s.holder.value].SendCall?
  }

  predicate WireInv(calls: seq<Call>, s: State)
    requires Typed(calls, s) && Entries(calls, s.order)
  {
    if Sending(calls, s) then
      var t := s.holder.value;
      var p := s.phases[t];
      && (p.Chunking? || p.Stamped?)
      && s.order != []
      && s.order[|s.order| - 1] == Entry(t, p.ticket, s.clientAddr)
      && (var before := Wire(calls, s.order[..|s.order| - 1]);
          s.wire == before + Block(calls, s.order[|s.order| - 1], |before|)[..p.i])
      && (p.Stamped? ==> p.seqNum == |s.wire| % TWO_32)
      && s.stamped == |s.wire| + if p.Stamped? then 1 else 0
    else
      && s.wire == Wire(calls, s.order)
      && s.stamped == |s.wire|
  }

  predicate Inv(calls: seq<Call>, s: State)
    requires Typed(calls, s)
  {
    MutexInv(calls, s) && TicketInv(calls, s) && WireInv(calls, s)
  }

  lemma MutexStep(calls: seq<Call>, socketOpen: bool, s: State, t: nat)
    requires Typed(calls, s) && MutexInv(calls, s)
    ensures MutexInv(calls, Step(calls, socketOpen, s, t))
  {
    hide Packet, FrameOf;
  }

  lemma TicketDraw(calls: seq<Call>, socketOpen: bool, s: State, t: nat)
    requires Typed(calls, s) && TicketInv(calls, s) && t < |calls| && s.phases[t].Checked?
    ensures TicketInv(calls, Step(calls, socketOpen, s, t))
  {
    hide Packet, FrameOf;
    var s' := Step(calls, socketOpen, s, t);
    assert s'.order == s.order && s'.numbered == s.numbered + 1;
    assert forall u | 0 <= u < |calls| && u != t :: s'.phases[u] == s.phases[u];
  }

  lemma TicketUse(calls: seq<Call>, socketOpen: bool, s: State, t: nat)
    requires Typed(calls, s) && TicketInv(calls, s) && Enabled(calls, s, t) && s.phases[t].Numbered?
    ensures TicketInv(calls, Step(calls, socketOpen, s, t))
  {
    hide Packet, FrameOf;
    var s' := Step(calls, socketOpen, s, t);
    assert forall e | e in s'.order :: e in s.order || e == Entry(t, s.phases[t].ticket, s.clientAddr);
    assert forall j | 0 <= j < |s.order| :: s'.order[j] == s.order[j] && s.order[j] in s.order;
  }

  lemma TicketStep(calls: seq<Call>, socketOpen: bool, s: State, t: nat)
    requires Typed(calls, s) && TicketInv(calls, s)
    ensures TicketInv(calls, Step(calls, socketOpen, s, t))
  {
    hide Packet, FrameOf;
    if Enabled(calls, s, t) {
      if s.phases[t].Checked? {
        TicketDraw(calls, socketOpen, s, t);
      } else if s.phases[t].Numbered? {
        TicketUse(calls, socketOpen, s, t);
      } else {
        var s' := Step(calls, socketOpen, s, t);
        assert s'.order == s.order && s'.numbered == s.numbered;
        assert forall u | 0 <= u < |calls| && s'.phases[u].Numbered? :: s'.phases[u] == s.phases[u];
      }
    }
  }

  lemma BlockAt(calls: seq<Call>, e: Entry, sent: nat, i: nat)
    requires e.call < |calls| && calls[e.call].SendCall? && i < Count(calls, e.call)
    ensures |Block(calls, e, sent)| == Count(calls, e.call)
    ensures Block(calls, e, sent)[i]
         == Attempt(e.endpoint, Packet(FrameOf(calls, e.call, e.ticket), (sent + i) % TWO_32, i))
  {
    hide Packet, Packets;
    AttemptAt(e.endpoint, FrameOf(calls, e.call, e.ticket), sent % TWO_32, i);
    ModSum(sent, i);
  }

  /** Taking the mutex starts a new block at the end of the finished ones. */
  lemma WireLock(calls: seq<Call>, socketOpen: bool, s: State, t: nat)
    requires Typed(calls, s) && Inv(calls, s) && Enabled(calls, s, t) && s.phases[t].Numbered?
    ensures Entries(calls, Step(calls, socketOpen, s, t).order)
    ensures WireInv(calls, Step(calls, socketOpen, s, t))
  {
    hide Packet, FrameOf, Block;
    var order' := s.order + [Entry(t, s.phases[t].ticket, s.clientAddr)];
    assert order'[..|order'| - 1] == s.order;
  }

  /** One sendto extends the unfinished block by its next packet. */
  lemma WireSend(calls: seq<Call>, socketOpen: bool, s: State, t: nat)
    requires Typed(calls, s) && Inv(calls, s) && Enabled(calls, s, t) && s.phases[t].Stamped?
    ensures Entries(calls, Step(calls, socketOpen, s, t).order)
    ensures WireInv(calls, Step(calls, socketOpen, s, t))
  {
    hide Packet, FrameOf, Block;
    assert s.holder == Some(t);
    var before := Wire(calls, s.order[..|s.order| - 1]);
    var e := s.order[|s.order| - 1];
    BlockAt(calls, e, |before|, s.phases[t].i);
    PrefixStep(before, Block(calls, e, |before|), s.phases[t].i);
    NextSeqNum(|before|, s.phases[t].i);
  }

  /** Leaving the chunk loop finishes the block. */
  lemma WireChunk(calls: seq<Call>, socketOpen: bool, s: State, t: nat)
    requires Typed(calls, s) && Inv(calls, s) && Enabled(calls, s, t) && s.phases[t].Chunking?
    ensures WireInv(calls, Step(calls, socketOpen, s, t))
  {
    hide Packet, FrameOf, Block;
    assert s.holder == Some(t);
    var before := Wire(calls, s.order[..|s.order| - 1]);
    var b := Block(calls, s.order[|s.order| - 1], |before|);
    BlockAt(calls, s.order[|s.order| - 1], |before|, 0);
    if s.phases[t].i == Count(calls, t) {
      assert b[..|b|] == b;
    }
  }

  lemma WireOther(calls: seq<Call>, socketOpen: bool, s: State, t: nat)
    requires Typed(calls, s) && Inv(calls, s) && Enabled(calls, s, t)
    requires !s.phases[t].Numbered? && !s.phases[t].Stamped? && !s.phases[t].Chunking?
    ensures Entries(calls, Step(calls, socketOpen, s, t).order)
    ensures WireInv(calls, Step(calls, socketOpen, s, t))
  {
    hide Packet, FrameOf, Block;
    assert HoldsMutex(s.phases[t]) <==> s.holder == Some(t);
  }

  lemma WireStep(calls: seq<Call>, socketOpen: bool, s: State, t: nat)
    requires Typed(calls, s) && Inv(calls, s)
    ensures Entries(calls, Step(calls, socketOpen, s, t).order)
    ensures WireInv(calls, Step(calls, socketOpen, s, t))
  {
    if Enabled(calls, s, t) {
      match s.phases[t]
      case Numbered(_) => WireLock(calls, socketOpen, s, t);
      case Chunking(_, _) => WireChunk(calls, socketOpen, s, t);
      case Stamped(_, _, _) => WireSend(calls, socketOpen, s, t);
      case _ => WireOther(calls, socketOpen, s, t);
    }
  }

  /** The invariant holds after every schedule. */
  lemma {:induction false} AlwaysInv(calls: seq<Call>, socketOpen: bool, schedule: seq<nat>)
    ensures Inv(calls, Run(calls, socketOpen, schedule))
  {
    if schedule != [] {
      var s := Run(calls, socketOpen, schedule[..|schedule| - 1]);
      var t := schedule[|schedule| - 1];
      AlwaysInv(calls, socketOpen, schedule[..|schedule| - 1]);
      MutexStep(calls, socketOpen, s, t);
      TicketStep(calls, socketOpen, s, t);
      WireStep(calls, socketOpen, s, t);
    }
  }

  // ---------- what every interleaving puts on the wire ----------

  lemma PartialBlock<T>(before: seq<T>, b: seq<T>, i: nat)
    requires i <= |b|
    ensures before <= before + b[..i] <= before + b
  {
  }

  /** In every interleaving the wire is the chunkFrame output of whole frames in the order in which
      their calls took the mutex, with only the last of them possibly unfinished. */
  lemma WireIsChunkedFrames(calls: seq<Call>, socketOpen: bool, schedule: seq<nat>)
    ensures var s := Run(calls, socketOpen, schedule);
            && Entries(calls, s.order)
            && s.wire <= Wire(calls, s.order)
            && (s.order != [] ==> Wire(calls, s.order[..|s.order| - 1]) <= s.wire)
            && (s.holder.None? ==> s.wire == Wire(calls, s.order))
  {
    hide Packet, FrameOf, Block;
    AlwaysInv(calls, socketOpen, schedule);
    var s := Run(calls, socketOpen, schedule);
    if Sending(calls, s) {
      var before := Wire(calls, s.order[..|s.order| - 1]);
      var b := Block(calls, s.order[|s.order| - 1], |before|);
      var e := s.order[|s.order| - 1];
      BlockAt(calls, e, |before|, 0);
      var i := s.phases[s.holder.value].i;
      PartialBlock(before, b, i);
    }
  }

  /** Attempt k of the wire is chunk i of the frame at position j, carrying sequence number k. */
  lemma {:induction false} Locate(calls: seq<Call>, order: seq<Entry>, k: nat) returns (j: nat, i: nat)
    requires Entries(calls, order) && k < |Wire(calls, order)|
    ensures j < |order| && i < Count(calls, order[j].call)
    ensures Wire(calls, order)[k]
         == Attempt(order[j].endpoint, Packet(FrameOf(calls, order[j].call, order[j].ticket), k % TWO_32, i))
  {
    hide Packet, FrameOf, Block;
    var n := |order| - 1;
    var before := Wire(calls, order[..n]);
    if k < |before| {
      j, i := Locate(calls, order[..n], k);
    } else {
      j, i := n, k - |before|;
      BlockAt(calls, order[n], |before|, 0);
      BlockAt(calls, order[n], |before|, i);
    }
  }

  /** The k-th attempt carries sequence number k modulo 2^32, failed sends included. */
  lemma SequenceNumbers(calls: seq<Call>, socketOpen: bool, schedule: seq<nat>, k: nat)
    requires k < |Run(calls, socketOpen, schedule).wire|
    ensures var h := DecodeHeader(Run(calls, socketOpen, schedule).wire[k].packet);
            h.Some? && h.value.seqNum == k % TWO_32
  {
    hide Packet, FrameOf, Block, DecodeHeader, Run, Wire;
    WireIsChunkedFrames(calls, socketOpen, schedule);
    var s := Run(calls, socketOpen, schedule);
    var j, i := Locate(calls, s.order, k);
    PacketDecodes(FrameOf(calls, s.order[j].call, s.order[j].ticket), k % TWO_32, i);
  }

  function FrameIdOf(a: Attempt): Option<uint32> {
    match DecodeHeader(a.packet)
    case Some(h) => Some(h.frameId)
    case None => None
  }

  lemma LocateId(calls: seq<Call>, order: seq<Entry>, k: nat) returns (j: nat)
    requires Entries(calls, order) && k < |Wire(calls, order)|
    ensures j < |order|
    ensures FrameIdOf(Wire(calls, order)[k]) == Some(order[j].ticket % TWO_32)
    ensures Wire(calls, order)[k].endpoint == order[j].endpoint
  {
    hide Packet, DecodeHeader, Wire;
    var i;
    j, i := Locate(calls, order, k);
    PacketDecodes(FrameOf(calls, order[j].call, order[j].ticket), k % TWO_32, i);
  }

  lemma BlockId(calls: seq<Call>, order: seq<Entry>, k: nat)
    requires Entries(calls, order) && order != []
    requires |Wire(calls, order[..|order| - 1])| <= k < |Wire(calls, order)|
    ensures FrameIdOf(Wire(calls, order)[k]) == Some(order[|order| - 1].ticket % TWO_32)
    ensures Wire(calls, order)[k].endpoint == order[|order| - 1].endpoint
  {
    hide Packet, Block, DecodeHeader;
    var e := order[|order| - 1];
    var before := Wire(calls, order[..|order| - 1]);
    var i := k - |before|;
    BlockAt(calls, e, |before|, 0);
    BlockAt(calls, e, |before|, i);
    PacketDecodes(FrameOf(calls, e.call, e.ticket), (|before| + i) % TWO_32, i);
  }

  predicate DistinctIds(order: seq<Entry>) {
    forall j, k :: 0 <= j < k < |order| ==> order[j].ticket % TWO_32 != order[k].ticket % TWO_32
  }

  lemma {:induction false} ContiguousBlocks(calls: seq<Call>, order: seq<Entry>, a: nat, b: nat, c: nat)
    requires Entries(calls, order) && DistinctIds(order)
    requires a <= b <= c < |Wire(calls, order)|
    requires FrameIdOf(Wire(calls, order)[a]) == FrameIdOf(Wire(calls, order)[c])
    ensures FrameIdOf(Wire(calls, order)[b]) == FrameIdOf(Wire(calls, order)[a])
    ensures Wire(calls, order)[a].endpoint == Wire(calls, order)[b].endpoint
  {
    hide Block, FrameIdOf;
    var n := |order| - 1;
    var before := Wire(calls, order[..n]);
    if c < |before| {
      ContiguousBlocks(calls, order[..n], a, b, c);
    } else {
      BlockId(calls, order, c);
      if a < |before| {
        var j := LocateId(calls, order[..n], a);
        assert false;
      } else {
        BlockId(calls, order, a);
        BlockId(calls, order, b);
      }
    }
  }

  lemma IdsDistinct(calls: seq<Call>, socketOpen: bool, schedule: seq<nat>)
    requires Run(calls, socketOpen, schedule).numbered <= TWO_32
    ensures DistinctIds(Run(calls, socketOpen, schedule).order)
  {
    hide Run, WireInv;
    AlwaysInv(calls, socketOpen, schedule);
    var s := Run(calls, socketOpen, schedule);
    forall j, k | 0 <= j < k < |s.order| ensures s.order[j].ticket % TWO_32 != s.order[k].ticket % TWO_32 {
      assert s.order[j] in s.order && s.order[k] in s.order;
      SmallMod(s.order[j].ticket);
      SmallMod(s.order[k].ticket);
    }
  }

  /** While at most 2^32 frames were numbered, the attempts that carry one frame id are one contiguous
      stretch of the wire, all to one endpoint. */
  lemma FramesContiguous(calls: seq<Call>, socketOpen: bool, schedule: seq<nat>, a: nat, b: nat, c: nat)
    requires Run(calls, socketOpen, schedule).numbered <= TWO_32
    requires a <= b <= c < |Run(calls, socketOpen, schedule).wire|
    requires FrameIdOf(Run(calls, socketOpen, schedule).wire[a]) == FrameIdOf(Run(calls, socketOpen, schedule).wire[c])
    ensures var w := Run(calls, socketOpen, schedule).wire;
            && FrameIdOf(w[a]) == FrameIdOf(w[b])
            && w[a].endpoint == w[b].endpoint == w[c].endpoint
  {
    hide Run, FrameIdOf, Wire;
    WireIsChunkedFrames(calls, socketOpen, schedule);
    IdsDistinct(calls, socketOpen, schedule);
    var s := Run(calls, socketOpen, schedule);
    ContiguousBlocks(calls, s.order, a, b, c);
    ContiguousBlocks(calls, s.order, a, c, c);
  }

  /** No deadlock: while a call is unfinished, some call can take a step. */
  lemma SenderProgress(calls: seq<Call>, socketOpen: bool, schedule: seq<nat>, t: nat)
    requires t < |calls| && !Run(calls, socketOpen, schedule).phases[t].Done?
    ensures exists u :: 0 <= u < |calls| && Enabled(calls, Run(calls, socketOpen, schedule), u)
  {
    hide Run;
    AlwaysInv(calls, socketOpen, schedule);
    var s := Run(calls, socketOpen, schedule);
    if !Enabled(calls, s, t) {
      var u := s.holder.value;
      assert Enabled(calls, s, u);
    } else {
      assert Enabled(calls, s, t);
    }
  }
}
