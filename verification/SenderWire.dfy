/** Where every attempt on the wire goes and what it carries, in terms of the calls themselves. */
module SenderWire {
  import opened Wrappers
  import opened Bytes
  import opened VideoCodec
  import opened UdpServer
  import opened SenderSystem

  // ---------- the endpoint of a frame ----------

  predicate SetsEndpoint(calls: seq<Call>, t: nat) {
    t < |calls| && calls[t].EndpointCall?
  }

  /** The endpoint of the last setClientEndpoint call among these turns at the mutex. */
  function Current(calls: seq<Call>, turns: seq<nat>): Option<Endpoint> {
    if turns == [] then None
    else
      var t := turns[|turns| - 1];
      if SetsEndpoint(calls, t) then Some(calls[t].endpoint) else Current(calls, turns[..|turns| - 1])
  }

  /** The sendFrame calls among these turns, each with the endpoint it should find. */
  function Due(calls: seq<Call>, turns: seq<nat>): seq<(nat, Option<Endpoint>)> {
    if turns == [] then []
    else
      var before, t := turns[..|turns| - 1], turns[|turns| - 1];
      if SetsEndpoint(calls, t) then Due(calls, before) else Due(calls, before) + [(t, Current(calls, before))]
  }

  lemma TurnGrows(calls: seq<Call>, turns: seq<nat>, t: nat)
    ensures Current(calls, turns + [t])
         == if SetsEndpoint(calls, t) then Some(calls[t].endpoint) else Current(calls, turns)
    ensures Due(calls, turns + [t])
         == if SetsEndpoint(calls, t) then Due(calls, turns) else Due(calls, turns) + [(t, Current(calls, turns))]
  {
    assert (turns + [t])[..|turns|] == turns;
  }

  predicate PastCheck(p: Phase) {
    p.Checked? || p.Numbered? || p.Chunking? || p.Stamped?
  }

  predicate Stored(calls: seq<Call>, s: State, t: nat) {
    SetsEndpoint(calls, t) && t < |s.phases| && (s.phases[t].Published? || s.phases[t].Done?)
  }

  /** m_hasClient is set once a setClientEndpoint call is over, and was set for every call past its check. */
  predicate ClientInv(calls: seq<Call>, s: State)
    requires Typed(calls, s)
  {
    forall t :: 0 <= t < |calls| && (PastCheck(s.phases[t]) || Stored(calls, s, t)) ==>
      s.hasClient
  }

  /** Every setClientEndpoint call takes its turn when it starts. */
  predicate TurnInv(calls: seq<Call>, s: State)
    requires Typed(calls, s)
  {
    && (forall t :: t in s.turns ==> t < |calls|)
    && (forall t :: 0 <= t < |calls| && calls[t].EndpointCall? ==> (t in s.turns <==> !s.phases[t].Start?))
    && (s.holder.Some? ==> s.turns != [] && s.turns[|s.turns| - 1] == s.holder.value)
  }

  /** clientAddr is the endpoint of the last turn, except while it is being stored. */
  predicate AddrInv(calls: seq<Call>, s: State)
    requires Typed(calls, s)
  {
    if s.holder.Some? && s.holder.value < |calls| && calls[s.holder.value].EndpointCall? then
      var p := s.phases[s.holder.value];
      p.Filled? || p.Published? ==> s.clientAddr == calls[s.holder.value].endpoint
    else
      s.hasClient ==> Current(calls, s.turns) == Some(s.clientAddr)
  }

  predicate DueInv(calls: seq<Call>, s: State) {
    && |s.order| == |Due(calls, s.turns)|
    && forall j :: 0 <= j < |s.order| ==>
         Due(calls, s.turns)[j] == (s.order[j].call, Some(s.order[j].endpoint))
  }

  lemma ClientStep(calls: seq<Call>, socketOpen: bool, s: State, t: nat)
    requires Typed(calls, s) && ClientInv(calls, s)
    ensures ClientInv(calls, Step(calls, socketOpen, s, t))
  {
    hide Packet, FrameOf;
  }

  lemma TurnStep(calls: seq<Call>, socketOpen: bool, s: State, t: nat)
    requires Typed(calls, s) && TurnInv(calls, s)
    ensures TurnInv(calls, Step(calls, socketOpen, s, t))
  {
    hide Packet, FrameOf;
    var s' := Step(calls, socketOpen, s, t);
    assert forall u | u in s'.turns :: u in s.turns || u == t;
    assert s'.turns == s.turns || s'.turns == s.turns + [t];
  }

  lemma AddrStep(calls: seq<Call>, socketOpen: bool, s: State, t: nat)
    requires Typed(calls, s) && MutexInv(calls, s) && ClientInv(calls, s) && TurnInv(calls, s) && AddrInv(calls, s)
    requires DueInv(calls, s)
    ensures AddrInv(calls, Step(calls, socketOpen, s, t))
    ensures DueInv(calls, Step(calls, socketOpen, s, t))
  {
    hide Packet, FrameOf, Current, Due;
    if Enabled(calls, s, t) {
      assert Fits(calls, t, s.phases[t]);
      assert HoldsMutex(s.phases[t]) <==> s.holder == Some(t);
      TurnGrows(calls, s.turns, t);
      if s.holder == Some(t) && s.turns != [] {
        TurnGrows(calls, s.turns[..|s.turns| - 1], t);
        assert s.turns == s.turns[..|s.turns| - 1] + [t];
      }
    }
  }

  predicate EndpointInv(calls: seq<Call>, s: State)
    requires Typed(calls, s)
  {
    ClientInv(calls, s) && TurnInv(calls, s) && AddrInv(calls, s) && DueInv(calls, s)
  }

  lemma {:induction false} AlwaysEndpoint(calls: seq<Call>, socketOpen: bool, schedule: seq<nat>)
    ensures EndpointInv(calls, Run(calls, socketOpen, schedule))
  {
    if schedule != [] {
      hide ClientInv, TurnInv, AddrInv, DueInv, MutexInv, TicketInv, WireInv;
      var before, t := schedule[..|schedule| - 1], schedule[|schedule| - 1];
      AlwaysEndpoint(calls, socketOpen, before);
      AlwaysInv(calls, socketOpen, before);
      var s := Run(calls, socketOpen, before);
      ClientStep(calls, socketOpen, s, t);
      TurnStep(calls, socketOpen, s, t);
      AddrStep(calls, socketOpen, s, t);
    }
  }

  /** Turn e sets the endpoint that turn m finds: no other turn between the two sets one. */
  predicate LastEndpoint(calls: seq<Call>, turns: seq<nat>, e: nat, m: nat) {
    && e < m < |turns|
    && SetsEndpoint(calls, turns[e])
    && forall x :: e < x < m ==> !SetsEndpoint(calls, turns[x])
  }

  lemma {:induction false} CurrentAt(calls: seq<Call>, turns: seq<nat>) returns (e: nat)
    requires Current(calls, turns).Some?
    ensures e < |turns| && SetsEndpoint(calls, turns[e])
    ensures forall x :: e < x < |turns| ==> !SetsEndpoint(calls, turns[x])
    ensures Current(calls, turns) == Some(calls[turns[e]].endpoint)
  {
    var n := |turns| - 1;
    if SetsEndpoint(calls, turns[n]) {
      e := n;
    } else {
      e := CurrentAt(calls, turns[..n]);
    }
  }

  lemma {:induction false} DueAt(calls: seq<Call>, turns: seq<nat>, j: nat) returns (m: nat, e: nat)
    requires j < |Due(calls, turns)| && Due(calls, turns)[j].1.Some?
    ensures LastEndpoint(calls, turns, e, m)
    ensures Due(calls, turns)[j] == (turns[m], Some(calls[turns[e]].endpoint))
  {
    var n := |turns| - 1;
    if j < |Due(calls, turns[..n])| {
      m, e := DueAt(calls, turns[..n], j);
    } else {
      m := n;
      e := CurrentAt(calls, turns[..n]);
    }
  }

  /** m_hasClient is set exactly from the moment some setClientEndpoint call has stored its address. */
  lemma {:induction false} ClientExactly(calls: seq<Call>, socketOpen: bool, schedule: seq<nat>)
    ensures var s := Run(calls, socketOpen, schedule);
            s.hasClient <==> exists e: nat :: Stored(calls, s, e)
  {
    if schedule != [] {
      hide Run;
      var before, t := schedule[..|schedule| - 1], schedule[|schedule| - 1];
      ClientExactly(calls, socketOpen, before);
      StoredStep(calls, socketOpen, Run(calls, socketOpen, before), t);
      RunStep(calls, socketOpen, schedule);
    }
  }

  lemma RunStep(calls: seq<Call>, socketOpen: bool, schedule: seq<nat>)
    requires schedule != []
    ensures Run(calls, socketOpen, schedule)
         == Step(calls, socketOpen, Run(calls, socketOpen, schedule[..|schedule| - 1]), schedule[|schedule| - 1])
  {
    hide Step;
  }

  lemma StoredStep(calls: seq<Call>, socketOpen: bool, s: State, t: nat)
    requires Typed(calls, s) && (s.hasClient <==> exists e: nat :: Stored(calls, s, e))
    ensures var s' := Step(calls, socketOpen, s, t); s'.hasClient <==> exists e: nat :: Stored(calls, s', e)
  {
    hide Packet, FrameOf;
    var s' := Step(calls, socketOpen, s, t);
    if e: nat :| Stored(calls, s, e) {
      assert Stored(calls, s', e);
    } else if s'.hasClient {
      assert Stored(calls, s', t);
    } else {
      forall e: nat ensures !Stored(calls, s', e) {
        assert !Stored(calls, s, e);
        assert e < |calls| ==> Fits(calls, e, s.phases[e]);
      }
    }
  }

  // ---------- what an attempt carries ----------

  /** The attempt is chunk i of the frame that this call was given. */
  predicate CarriesChunk(call: Call, p: seq<byte>, i: nat) {
    && call.SendCall?
    && i < ChunkCount(|call.data|)
    && DecodeHeader(p).Some?
    && var h := DecodeHeader(p).value;
       && h.isKeyFrame == call.isKeyFrame && h.timestampUs == call.timestampUs
       && h.totalChunks == ChunkCount(|call.data|) % 0x1_0000 && h.chunkIndex == i % 0x1_0000
       && (h.isLastChunk <==> i + 1 == ChunkCount(|call.data|))
       && 1371 * i <= |call.data|
       && p[29..] == call.data[1371 * i..Min(1371 * i + 1371, |call.data|)]
  }

  lemma PacketIsChunk(calls: seq<Call>, t: nat, ticket: nat, seqNum: uint32, i: nat)
    requires t < |calls| && calls[t].SendCall? && i < Count(calls, t)
    ensures CarriesChunk(calls[t], Packet(FrameOf(calls, t, ticket), seqNum, i), i)
  {
    hide Packet, DecodeHeader;
    PacketReads(FrameOf(calls, t, ticket), seqNum, i);
  }

  /** In every interleaving, attempt k carries a chunk of one sendFrame call, with that call's key flag, time
      stamp and bytes, and goes to the endpoint of the last setClientEndpoint call that took the mutex
      before that call did. */
  lemma AttemptOfCall(calls: seq<Call>, socketOpen: bool, schedule: seq<nat>, k: nat)
    returns (m: nat, e: nat, i: nat)
    requires k < |Run(calls, socketOpen, schedule).wire|
    ensures var s := Run(calls, socketOpen, schedule);
            && LastEndpoint(calls, s.turns, e, m)
            && s.wire[k].endpoint == calls[s.turns[e]].endpoint
            && s.turns[m] < |calls|
            && CarriesChunk(calls[s.turns[m]], s.wire[k].packet, i)
  {
    hide Run, Packet, FrameOf, Wire, ClientInv, TurnInv, AddrInv, CarriesChunk, Due, LastEndpoint;
    WireIsChunkedFrames(calls, socketOpen, schedule);
    AlwaysEndpoint(calls, socketOpen, schedule);
    var s := Run(calls, socketOpen, schedule);
    var j;
    j, i := Locate(calls, s.order, k);
    PacketIsChunk(calls, s.order[j].call, s.order[j].ticket, k % TWO_32, i);
    m, e := DueAt(calls, s.turns, j);
  }

  /** With a single setClientEndpoint call everything goes to its endpoint. */
  lemma OneEndpoint(calls: seq<Call>, socketOpen: bool, schedule: seq<nat>, e: nat, k: nat)
    requires e < |calls| && calls[e].EndpointCall?
    requires forall t :: 0 <= t < |calls| && t != e ==> calls[t].SendCall?
    requires k < |Run(calls, socketOpen, schedule).wire|
    ensures Run(calls, socketOpen, schedule).wire[k].endpoint == calls[e].endpoint
  {
    hide Run, CarriesChunk;
    var m, e', i := AttemptOfCall(calls, socketOpen, schedule, k);
  }

  // ---------- every frame is sent ----------

  /** The call is on its way to the mutex, or has been there. */
  ghost predicate Underway(s: State, t: nat) {
    && s.hasClient
    && t < |s.phases|
    && (s.phases[t].Start? || s.phases[t].Checked? || s.phases[t].Numbered? || exists j: nat :: TookTurn(s, t, j))
  }

  predicate TookTurn(s: State, t: nat, j: nat) {
    j < |s.order| && s.order[j].call == t
  }

  lemma UnderwayStep(calls: seq<Call>, s: State, t: nat, u: nat)
    requires Typed(calls, s) && Underway(s, t) && t < |calls| && calls[t].SendCall?
    ensures Underway(Step(calls, true, s, u), t)
  {
    hide Packet, FrameOf;
    var s' := Step(calls, true, s, u);
    if j: nat :| TookTurn(s, t, j) {
      assert TookTurn(s', t, j);
    } else if Enabled(calls, s, u) && u == t && s.phases[t].Numbered? {
      assert TookTurn(s', t, |s.order|);
    }
  }

  lemma {:induction false} UnderwayRun(calls: seq<Call>, before: seq<nat>, after: seq<nat>, t: nat)
    requires t < |calls| && calls[t].SendCall? && Underway(Run(calls, true, before), t)
    ensures Underway(Run(calls, true, before + after), t)
  {
    hide Underway;
    if after == [] {
      assert before + after == before;
    } else {
      var n := |after| - 1;
      UnderwayRun(calls, before, after[..n], t);
      assert (before + after)[..|before + after| - 1] == before + after[..n];
      UnderwayStep(calls, Run(calls, true, before + after[..n]), t, after[n]);
    }
  }

  lemma {:induction false} WirePrefix(calls: seq<Call>, order: seq<Entry>, n: nat)
    requires Entries(calls, order) && n <= |order|
    ensures Wire(calls, order[..n]) <= Wire(calls, order)
  {
    hide Block;
    if n == |order| {
      assert order[..n] == order;
    } else {
      assert order[..|order| - 1][..n] == order[..n];
      WirePrefix(calls, order[..|order| - 1], n);
    }
  }

  /** The finished block of entry j is on the wire. */
  lemma BlockSent(calls: seq<Call>, order: seq<Entry>, j: nat, wire: seq<Attempt>) returns (pos: nat)
    requires Entries(calls, order) && j < |order| && Wire(calls, order[..j + 1]) <= wire
    ensures pos + Count(calls, order[j].call) <= |wire|
    ensures forall k :: pos <= k < pos + Count(calls, order[j].call) ==>
              CarriesChunk(calls[order[j].call], wire[k].packet, k - pos)
  {
    hide Block, CarriesChunk, Packet, FrameOf;
    assert order[j] in order;
    assert order[..j + 1][..j] == order[..j];
    pos := |Wire(calls, order[..j])|;
    var e := order[j];
    BlockAt(calls, e, pos, 0);
    forall k | pos <= k < pos + Count(calls, e.call) ensures CarriesChunk(calls[e.call], wire[k].packet, k - pos) {
      BlockAt(calls, e, pos, k - pos);
      PacketIsChunk(calls, e.call, e.ticket, k % TWO_32, k - pos);
      assert wire[k] == Wire(calls, order[..j + 1])[k];
    }
  }

  /** With the socket open, a sendFrame call that starts after some setClientEndpoint call is over has, when
      it returns, put every chunk of its frame on the wire, one right behind the other. */
  lemma FrameSent(calls: seq<Call>, before: seq<nat>, after: seq<nat>, e: nat, t: nat) returns (pos: nat)
    requires e < |calls| && calls[e].EndpointCall? && Run(calls, true, before).phases[e].Done?
    requires t < |calls| && calls[t].SendCall? && Run(calls, true, before).phases[t].Start?
    requires Run(calls, true, before + after).phases[t].Done?
    ensures var wire := Run(calls, true, before + after).wire;
            && pos + Count(calls, t) <= |wire|
            && forall k :: pos <= k < pos + Count(calls, t) ==> CarriesChunk(calls[t], wire[k].packet, k - pos)
  {
    hide Run, Wire, Block, CarriesChunk, TurnInv, AddrInv, DueInv;
    AlwaysEndpoint(calls, true, before);
    UnderwayRun(calls, before, after, t);
    var s := Run(calls, true, before + after);
    AlwaysInv(calls, true, before + after);
    WireIsChunkedFrames(calls, true, before + after);
    var j: nat :| TookTurn(s, t, j);
    if s.holder.None? {
      WirePrefix(calls, s.order, j + 1);
    } else {
      assert HoldsMutex(s.phases[s.holder.value]);
      TurnBefore(calls, s, j);
    }
    pos := BlockSent(calls, s.order, j, s.wire);
  }

  lemma TurnBefore(calls: seq<Call>, s: State, j: nat)
    requires Typed(calls, s) && Inv(calls, s) && s.holder.Some? && j < |s.order|
    requires s.order[j].call < |calls| && s.phases[s.order[j].call].Done?
    ensures Wire(calls, s.order[..j + 1]) <= s.wire
  {
    hide Block, Wire;
    assert HoldsMutex(s.phases[s.holder.value]);
    if Sending(calls, s) {
      var n := |s.order| - 1;
      assert s.order[..n][..j + 1] == s.order[..j + 1];
      WirePrefix(calls, s.order[..n], j + 1);
    } else {
      WirePrefix(calls, s.order, j + 1);
    }
  }
}
