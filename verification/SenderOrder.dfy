/** In which order frame ids reach the wire.  UdpServer::sendFrame draws m_frameId before it takes the
    mutex, so a call can be overtaken between the two. */
module SenderOrder {
  import opened Wrappers
  import opened Bytes
  import opened VideoCodec
  import opened UdpServer
  import opened SenderSystem

  predicate AtMost(a: Option<uint32>, b: Option<uint32>) {
    a.Some? && b.Some? && a.value <= b.value
  }

  /** Along the wire frame ids never go down. */
  ghost predicate InIdOrder(wire: seq<Attempt>) {
    forall a, b :: 0 <= a <= b < |wire| ==> AtMost(FrameIdOf(wire[a]), FrameIdOf(wire[b]))
  }

  predicate Increasing(order: seq<Entry>) {
    forall j, k :: 0 <= j < k < |order| ==> order[j].ticket < order[k].ticket
  }

  // ---------- ids in order ----------

  /** Two calls are between the m_frameId draw and the mutex. */
  predicate BothWait(s: State, t: nat, u: nat) {
    t < u < |s.phases| && s.phases[t].Numbered? && s.phases[u].Numbered?
  }

  /** At no moment of the run do two calls wait for the mutex with their ids drawn. */
  ghost predicate NeverTwoWait(calls: seq<Call>, socketOpen: bool, schedule: seq<nat>) {
    && (forall t: nat, u: nat :: !BothWait(Run(calls, socketOpen, schedule), t, u))
    && (schedule != [] ==> NeverTwoWait(calls, socketOpen, schedule[..|schedule| - 1]))
  }

  predicate OrderInv(s: State) {
    && Increasing(s.order)
    && forall t, e :: 0 <= t < |s.phases| && s.phases[t].Numbered? && e in s.order ==>
         e.ticket < s.phases[t].ticket
  }

  lemma OrderStep(calls: seq<Call>, socketOpen: bool, s: State, t: nat)
    requires Typed(calls, s) && TicketInv(calls, s) && OrderInv(s)
    requires forall t: nat, u: nat :: !BothWait(s, t, u)
    ensures OrderInv(Step(calls, socketOpen, s, t))
  {
    hide Packet, FrameOf;
    var s' := Step(calls, socketOpen, s, t);
    if Enabled(calls, s, t) {
      if s.phases[t].Numbered? {
        forall u | 0 <= u < |calls| ensures !s'.phases[u].Numbered? {
          assert !BothWait(s, t, u) && !BothWait(s, u, t);
        }
        assert forall j | 0 <= j < |s.order| :: s'.order[j] == s.order[j] && s.order[j] in s.order;
      } else {
        assert s'.order == s.order;
        assert forall u | 0 <= u < |calls| && u != t :: s'.phases[u] == s.phases[u];
      }
    }
  }

  lemma {:induction false} AlwaysOrdered(calls: seq<Call>, socketOpen: bool, schedule: seq<nat>)
    requires NeverTwoWait(calls, socketOpen, schedule)
    ensures OrderInv(Run(calls, socketOpen, schedule))
  {
    hide WireInv, MutexInv;
    if schedule != [] {
      var before := schedule[..|schedule| - 1];
      AlwaysOrdered(calls, socketOpen, before);
      AlwaysInv(calls, socketOpen, before);
      OrderStep(calls, socketOpen, Run(calls, socketOpen, before), schedule[|schedule| - 1]);
    }
  }

  lemma WireBefore(calls: seq<Call>, order: seq<Entry>)
    requires Entries(calls, order) && Wire(calls, order) != []
    ensures order != []
    ensures Wire(calls, order[..|order| - 1]) <= Wire(calls, order)
  {
    hide Block;
  }

  lemma {:induction false} BlocksAscend(calls: seq<Call>, order: seq<Entry>, a: nat, b: nat)
    requires Entries(calls, order) && Increasing(order)
    requires forall e :: e in order ==> e.ticket < TWO_32
    requires a <= b < |Wire(calls, order)|
    ensures AtMost(FrameIdOf(Wire(calls, order)[a]), FrameIdOf(Wire(calls, order)[b]))
  {
    hide Wire, FrameIdOf;
    WireBefore(calls, order);
    var n := |order| - 1;
    var before := Wire(calls, order[..n]);
    if b < |before| {
      BlocksAscend(calls, order[..n], a, b);
    } else {
      BlockId(calls, order, b);
      if a < |before| {
        var j := LocateId(calls, order[..n], a);
      } else {
        BlockId(calls, order, a);
      }
    }
  }

  /** Ids reach the wire in order in every run in which no two calls ever wait for the mutex at once, for
      up to 2^32 frames. */
  lemma OrderedWithoutContention(calls: seq<Call>, socketOpen: bool, schedule: seq<nat>)
    requires NeverTwoWait(calls, socketOpen, schedule)
    requires Run(calls, socketOpen, schedule).numbered <= TWO_32
    ensures Increasing(Run(calls, socketOpen, schedule).order)
    ensures InIdOrder(Run(calls, socketOpen, schedule).wire)
  {
    hide Run, Wire, FrameIdOf, WireInv, MutexInv, AtMost, Increasing, NeverTwoWait;
    var s := Run(calls, socketOpen, schedule);
    AlwaysInv(calls, socketOpen, schedule);
    AlwaysOrdered(calls, socketOpen, schedule);
    WireIsChunkedFrames(calls, socketOpen, schedule);
    forall a, b | 0 <= a <= b < |s.wire| ensures AtMost(FrameIdOf(s.wire[a]), FrameIdOf(s.wire[b])) {
      BlocksAscend(calls, s.order, a, b);
    }
  }

  // ---------- which callers get that ----------

  predicate OneSender(calls: seq<Call>) {
    forall t, u :: 0 <= t < u < |calls| ==> calls[t].EndpointCall? || calls[u].EndpointCall?
  }

  predicate NoEndpoint(calls: seq<Call>) {
    forall t :: 0 <= t < |calls| ==> calls[t].SendCall?
  }

  /** The one sender draws one id. */
  predicate OneTicket(calls: seq<Call>, s: State)
    requires Typed(calls, s)
  {
    && s.numbered <= 1
    && forall t :: 0 <= t < |calls| && calls[t].SendCall? && (s.phases[t].Start? || s.phases[t].Checked?) ==>
         s.numbered == 0
  }

  lemma {:induction false} OneSenderRun(calls: seq<Call>, socketOpen: bool, schedule: seq<nat>)
    requires OneSender(calls)
    ensures OneTicket(calls, Run(calls, socketOpen, schedule))
    ensures NeverTwoWait(calls, socketOpen, schedule)
  {
    hide Packet, FrameOf;
    if schedule != [] {
      OneSenderRun(calls, socketOpen, schedule[..|schedule| - 1]);
      var s := Run(calls, socketOpen, schedule[..|schedule| - 1]);
      OneTicketStep(calls, socketOpen, s, schedule[|schedule| - 1]);
    }
    var s := Run(calls, socketOpen, schedule);
    OneWaits(calls, s);
  }

  lemma OneWaits(calls: seq<Call>, s: State)
    requires OneSender(calls) && Typed(calls, s)
    ensures forall t: nat, u: nat :: !BothWait(s, t, u)
  {
  }

  lemma OneTicketStep(calls: seq<Call>, socketOpen: bool, s: State, t: nat)
    requires OneSender(calls) && Typed(calls, s) && OneTicket(calls, s)
    ensures OneTicket(calls, Step(calls, socketOpen, s, t))
  {
    hide Packet, FrameOf;
    if Enabled(calls, s, t) && s.phases[t].Checked? {
      assert Fits(calls, t, s.phases[t]);
    }
  }

  /** Without a socket or a client every sendFrame call gives up at its first check. */
  predicate Unsent(calls: seq<Call>, socketOpen: bool, s: State)
    requires Typed(calls, s)
  {
    && s.order == []
    && !(s.hasClient && socketOpen)
    && forall t :: 0 <= t < |calls| && calls[t].SendCall? ==> s.phases[t].Start? || s.phases[t].Done?
  }

  lemma {:induction false} UnsentRun(calls: seq<Call>, socketOpen: bool, schedule: seq<nat>)
    requires !socketOpen || NoEndpoint(calls)
    ensures Unsent(calls, socketOpen, Run(calls, socketOpen, schedule))
  {
    hide Packet, FrameOf;
    if schedule != [] {
      UnsentRun(calls, socketOpen, schedule[..|schedule| - 1]);
      var s := Run(calls, socketOpen, schedule[..|schedule| - 1]);
      var t := schedule[|schedule| - 1];
      if t < |calls| {
        assert Fits(calls, t, s.phases[t]);
      }
    }
  }

  // ---------- the overtaking run ----------

  lemma Then(calls: seq<Call>, schedule: seq<nat>, t: nat) returns (schedule': seq<nat>, s': State)
    ensures schedule' == schedule + [t]
    ensures s' == Run(calls, true, schedule') == Step(calls, true, Run(calls, true, schedule), t)
  {
    schedule' := schedule + [t];
    s' := Run(calls, true, schedule');
    assert schedule'[..|schedule|] == schedule;
  }

  lemma RunNone(calls: seq<Call>)
    ensures Run(calls, true, []) == Init(calls)
  {
  }

  /** Some setClientEndpoint call runs first. */
  lemma EndpointFirst(calls: seq<Call>, e: nat) returns (schedule: seq<nat>, s: State)
    requires e < |calls| && calls[e].EndpointCall?
    ensures s == Run(calls, true, schedule)
    ensures s.hasClient && s.holder.None? && s.numbered == 0 && s.order == []
    ensures forall t :: 0 <= t < |calls| && t != e ==> s.phases[t].Start?
  {
    hide Run, Packet, FrameOf, Count;
    schedule := [];
    s := Init(calls);
    RunNone(calls);
    schedule, s := Then(calls, schedule, e);
    schedule, s := Then(calls, schedule, e);
    schedule, s := Then(calls, schedule, e);
    schedule, s := Then(calls, schedule, e);
    schedule, s := Then(calls, schedule, e);
  }

  /** A call that is alone sends the rest of its frame and releases the mutex. */
  lemma {:induction false} Finishes(calls: seq<Call>, schedule: seq<nat>, t: nat)
    returns (schedule': seq<nat>, s': State)
    requires t < |calls| && Run(calls, true, schedule).phases[t].Chunking?
    ensures s' == Run(calls, true, schedule')
    ensures s'.holder.None?
    ensures s'.order == Run(calls, true, schedule).order
    ensures forall u :: 0 <= u < |calls| && u != t ==> s'.phases[u] == Run(calls, true, schedule).phases[u]
    decreases if calls[t].SendCall? then Count(calls, t) - Run(calls, true, schedule).phases[t].i else 0
  {
    hide Run, Packet, FrameOf, Count;
    var s := Run(calls, true, schedule);
    assert Fits(calls, t, s.phases[t]);
    schedule', s' := Then(calls, schedule, t);
    if s.phases[t].i < Count(calls, t) {
      schedule', s' := Then(calls, schedule', t);
      schedule', s' := Finishes(calls, schedule', t);
    }
  }

  /** The later call takes the mutex and sends its whole frame while the earlier one waits. */
  lemma Overtakes(calls: seq<Call>, e: nat, t: nat, u: nat) returns (schedule: seq<nat>, s: State)
    requires e < |calls| && calls[e].EndpointCall?
    requires t < |calls| && calls[t].SendCall?
    requires u < |calls| && calls[u].SendCall? && t != u
    ensures s == Run(calls, true, schedule) && s.holder.None?
    ensures |s.order| == 2 && s.order[0].ticket == 1 && s.order[1].ticket == 0
  {
    hide Run, Packet, FrameOf, Count;
    schedule, s := EndpointFirst(calls, e);
    schedule, s := Then(calls, schedule, t);
    schedule, s := Then(calls, schedule, t);
    schedule, s := Then(calls, schedule, u);
    schedule, s := Then(calls, schedule, u);
    schedule, s := Then(calls, schedule, u);
    schedule, s := Finishes(calls, schedule, u);
    schedule, s := Then(calls, schedule, t);
    schedule, s := Finishes(calls, schedule, t);
  }

  lemma BlocksNonEmpty(calls: seq<Call>, order: seq<Entry>)
    requires Entries(calls, order) && order != []
    ensures |Wire(calls, order[..|order| - 1])| < |Wire(calls, order)|
  {
    hide Packet, FrameOf, Block;
    var before := Wire(calls, order[..|order| - 1]);
    BlockAt(calls, order[|order| - 1], |before|, 0);
  }

  /** The first and the last attempt of that run are out of order. */
  lemma OvertakenWire(calls: seq<Call>, e: nat, t: nat, u: nat) returns (schedule: seq<nat>)
    requires e < |calls| && calls[e].EndpointCall?
    requires t < |calls| && calls[t].SendCall?
    requires u < |calls| && calls[u].SendCall? && t != u
    ensures !InIdOrder(Run(calls, true, schedule).wire)
  {
    hide Run, Block, Packet, FrameIdOf, Wire;
    var s;
    schedule, s := Overtakes(calls, e, t, u);
    WireIsChunkedFrames(calls, true, schedule);
    var first := s.order[..1];
    assert s.order[..|s.order| - 1] == first && first[..|first| - 1] == [];
    BlocksNonEmpty(calls, first);
    BlocksNonEmpty(calls, s.order);
    var j := LocateId(calls, first, 0);
    BlockId(calls, s.order, |s.wire| - 1);
    assert Wire(calls, first) <= s.wire;
    assert s.wire[0] == Wire(calls, first)[0];
    SmallMod(1);
    SmallMod(0);
    assert !AtMost(FrameIdOf(s.wire[0]), FrameIdOf(s.wire[|s.wire| - 1]));
  }

  /** Frame ids reach the wire in order in every schedule of these calls if and only if the socket is not
      open, or no call sets an endpoint, or at most one call sends a frame. */
  lemma InOrderExactly(calls: seq<Call>, socketOpen: bool)
    ensures (forall schedule :: InIdOrder(Run(calls, socketOpen, schedule).wire)) <==>
            !socketOpen || NoEndpoint(calls) || OneSender(calls)
  {
    hide Run, InIdOrder;
    if !socketOpen || NoEndpoint(calls) || OneSender(calls) {
      forall schedule ensures InIdOrder(Run(calls, socketOpen, schedule).wire) {
        InOrder(calls, socketOpen, schedule);
      }
    } else {
      var e: nat :| e < |calls| && calls[e].EndpointCall?;
      var t: nat, u: nat :| t < u < |calls| && calls[t].SendCall? && calls[u].SendCall?;
      var schedule := OvertakenWire(calls, e, t, u);
    }
  }

  lemma InOrder(calls: seq<Call>, socketOpen: bool, schedule: seq<nat>)
    requires !socketOpen || NoEndpoint(calls) || OneSender(calls)
    ensures InIdOrder(Run(calls, socketOpen, schedule).wire)
  {
    hide Run;
    if OneSender(calls) {
      OneSenderRun(calls, socketOpen, schedule);
      OrderedWithoutContention(calls, socketOpen, schedule);
    } else {
      UnsentRun(calls, socketOpen, schedule);
      WireIsChunkedFrames(calls, socketOpen, schedule);
    }
  }
}
