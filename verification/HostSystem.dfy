/** The control server drives the pipeline: the calls of its thread, caller 0 of Pipeline, are the
    PairedCall and UnpairedCall events of CtrlServer, and every other caller only quits the stream. */
module HostSystem {
  import opened Wrappers
  import opened Lan
  import opened Pairing
  import opened CtrlServer
  import opened SessionDiscipline
  import P = Pipeline
  import H = PipelineHistory

  function CallsOf(events: seq<Event>): seq<P.Call> {
    if events == [] then []
    else
      var before := CallsOf(events[..|events| - 1]);
      match events[|events| - 1]
      case PairedCall(ip) => before + [P.Paired(ip)]
      case UnpairedCall => before + [P.Unpaired]
      case _ => before
  }

  /** The clients of the onPaired calls since the last onUnpaired call. */
  function Open(calls: seq<P.Call>): seq<string> {
    if calls == [] then []
    else
      match calls[|calls| - 1]
      case Paired(ip) => Open(calls[..|calls| - 1]) + [ip]
      case Unpaired => []
  }

  /** Only the control thread pairs; the others run the tray's Quit. */
  predicate OthersQuit(s: P.State) {
    forall c, x :: 0 < c < |s.callers| && x in H.By(s.begun, c) ==> x == P.Unpaired
  }

  predicate Reachable(callers: nat, schedule: seq<(P.Agent, P.Choice)>, s: P.State) {
    s == P.Run(P.Init(callers), schedule) && s.callers != [] && OthersQuit(s)
  }

  // ---------- from the history of calls to the control thread ----------

  predicate OnlyFirstPairs(history: seq<P.Entry>) {
    forall e :: e in history && e.call.Paired? ==> e.caller == 0
  }

  lemma {:induction false} EntryBy(log: seq<P.Entry>, e: P.Entry)
    requires e in log
    ensures e.call in H.By(log, e.caller)
  {
    var n := |log| - 1;
    if e != log[n] {
      assert e in log[..n];
      EntryBy(log[..n], e);
    }
  }

  lemma FirstPairs(callers: nat, schedule: seq<(P.Agent, P.Choice)>, s: P.State)
    requires Reachable(callers, schedule, s)
    ensures OnlyFirstPairs(s.data.history)
  {
    hide P.Run, P.Inv, H.ClientInv, H.EndpointInv, H.FoldInv;
    H.AlwaysHistory(callers, schedule);
    forall e | e in s.data.history && e.call.Paired? ensures e.caller == 0 {
      EntryBy(s.data.history, e);
      H.CallsTakeEffect(callers, schedule, e.caller);
      InLonger(H.By(s.data.history, e.caller), H.By(s.begun, e.caller), e.call);
    }
  }

  lemma InLonger<T>(a: seq<T>, b: seq<T>, x: T)
    requires a <= b && x in a
    ensures x in b
  {
    assert b == a + b[|a|..];
  }

  lemma AppendCall(calls: seq<P.Call>, x: P.Call)
    ensures Open(calls + [x]) == if x.Paired? then Open(calls) + [x.ip] else []
  {
    assert (calls + [x])[..|calls|] == calls;
  }

  lemma {:induction false} StreamedIsOpen(history: seq<P.Entry>)
    requires OnlyFirstPairs(history)
    ensures H.Streamed(history).Some? ==> H.Streamed(history).value in Open(H.By(history, 0))
  {
    if history != [] {
      var n := |history| - 1;
      var e := history[n];
      StreamedIsOpen(history[..n]);
      AppendCall(H.By(history[..n], 0), e.call);
      if e.caller != 0 {
        assert e.call.Unpaired?;
      }
    }
  }

  lemma {:induction false} ClientPaired(history: seq<P.Entry>, k: nat)
    requires OnlyFirstPairs(history) && k < |H.Clients(history)|
    ensures P.Paired(H.Clients(history)[k]) in H.By(history, 0)
  {
    var n := |history| - 1;
    if k < |H.Clients(history[..n])| {
      ClientPaired(history[..n], k);
    }
  }

  // ---------- from the control thread to the dialogue ----------

  lemma {:induction false} CallsAdd(a: seq<Event>, b: seq<Event>)
    ensures CallsOf(a + b) == CallsOf(a) + CallsOf(b)
  {
    if b == [] {
      assert a + b == a;
    } else {
      CallsAdd(a, b[..|b| - 1]);
      assert (a + b)[..|a + b| - 1] == a + b[..|b| - 1];
    }
  }

  lemma {:induction false} WithoutCalls(es: seq<Event>)
    requires forall e :: e in es ==> !e.PairedCall? && !e.UnpairedCall?
    ensures CallsOf(es) == []
  {
    if es != [] {
      WithoutCalls(es[..|es| - 1]);
      assert es[|es| - 1] in es;
    }
  }

  lemma OneCall(e: Event)
    ensures CallsOf([e])
         == if e.PairedCall? then [P.Paired(e.ip)] else if e.UnpairedCall? then [P.Unpaired] else []
  {
    assert [e][..0] == [];
  }

  /** A connection calls onPaired for its own address if it established a session, and nothing else. */
  lemma DialogueCallsOf(ip: string, es: seq<Event>, g: Gate, params: AckParams)
    requires Dialogue(ip, es, g, params)
    ensures CallsOf(es) == if Established(g) then [P.Paired(ip)] else []
  {
    if Established(g) {
      var denied, rest :| SessionEvents(ip, es, g, params, denied, rest);
      var o := Opening(ip, g.token, params);
      WithoutCalls(denied);
      WithoutCalls(rest);
      CallsAdd(denied + o, rest);
      CallsAdd(denied, o);
      assert o == [o[0], o[1]] + [o[2]];
      CallsAdd([o[0], o[1]], [o[2]]);
      WithoutCalls([o[0], o[1]]);
      OneCall(o[2]);
    } else {
      WithoutCalls(es);
    }
  }

  lemma {:induction false} NothingOpen(h: Host, clients: seq<Client>)
    ensures Open(CallsOf(ServeAll(h, Start(), clients).events)) == []
  {
    hide ServeOne, IsPrivateIPv4, Dialogue;
    if clients != [] {
      var before, c := clients[..|clients| - 1], clients[|clients| - 1];
      NothingOpen(h, before);
      AlwaysFresh(h, before);
      var w := ServeAll(h, Start(), before);
      var es, g := ClientEvents(h, w, c);
      if IsPrivateIPv4(c.peer) {
        CallsAdd(w.events + es, [UnpairedCall]);
        OneCall(UnpairedCall);
        AppendCall(CallsOf(w.events + es), P.Unpaired);
      }
    }
  }

  /** At a line boundary the open calls are one for this client if it established a session, else none. */
  lemma OpenNow(h: Host, clients: seq<Client>, ip: string, lines: seq<string>)
    ensures var w := Serve(h, ip, ServeAll(h, Start(), clients), lines);
            Open(CallsOf(w.events)) == if Established(w.gate) then [ip] else []
  {
    hide Serve, ServeAll, Dialogue, Open, CallsOf;
    var w0 := ServeAll(h, Start(), clients);
    var w := Serve(h, ip, w0, lines);
    AlwaysFresh(h, clients);
    NothingOpen(h, clients);
    ConnectionDialogue(h, ip, w0, lines);
    var es := w.events[|w0.events|..];
    assert w.events == w0.events + es;
    CallsAdd(w0.events, es);
    DialogueCallsOf(ip, es, w.gate, AckInfo(h, w0.events));
    if Established(w.gate) {
      AppendCall(CallsOf(w0.events), P.Paired(ip));
    } else {
      assert CallsOf(w0.events) + [] == CallsOf(w0.events);
    }
  }

  // ---------- the pipeline can follow any calls ----------

  /** Between calls of a single caller, with nothing under way but a capture thread at its loop head. */
  predicate Calm(s: P.State) {
    && s.callers == [P.Outside] && s.pipe.None? && !s.data.sendLocked
    && (s.data.streaming <==> s.data.capture.Some?)
    && (s.data.capture.Some? ==> P.HasCapture(s.data) && P.Cur(s.data).pc.Head?)
  }

  lemma Then(schedule: seq<(P.Agent, P.Choice)>, a: P.Agent, ch: P.Choice)
    returns (schedule': seq<(P.Agent, P.Choice)>, s': P.State)
    ensures schedule' == schedule + [(a, ch)]
    ensures s' == P.Run(P.Init(1), schedule') == P.Step(P.Run(P.Init(1), schedule), a, ch)
  {
    schedule' := schedule + [(a, ch)];
    s' := P.Run(P.Init(1), schedule');
    assert schedule'[..|schedule|] == schedule;
  }

  /** The caller's next step, when nobody else has a lock. */
  lemma Move(schedule: seq<(P.Agent, P.Choice)>, s: P.State, ch: P.Choice)
    returns (schedule': seq<(P.Agent, P.Choice)>, s': P.State)
    requires s == P.Run(P.Init(1), schedule) && |s.callers| == 1 && P.CallerReady(s, s.callers[0])
    ensures s' == P.Run(P.Init(1), schedule')
    ensures var pc := s.callers[0];
            && s'.callers == [P.NextPc(pc, s.data, ch)]
            && s'.pipe == P.PipeAfter(s.pipe, pc, 0)
            && s'.data == H.After(0, pc, s.data, ch)
            && s'.begun == if pc.Outside? then s.begun + [P.Entry(0, ch.call, false)] else s.begun
  {
    hide P.Run, P.CallerReady;
    schedule', s' := Then(schedule, P.Caller(0), ch);
  }

  /** Steps that change no data, up to the one that looks at it. */
  lemma Begin(schedule: seq<(P.Agent, P.Choice)>, ch: P.Choice)
    returns (schedule': seq<(P.Agent, P.Choice)>, s': P.State)
    requires Calm(P.Run(P.Init(1), schedule))
    ensures s' == P.Run(P.Init(1), schedule')
    ensures var s := P.Run(P.Init(1), schedule);
            && s'.callers == [if ch.call.Paired? then P.PairTest(ch.call.ip) else P.UnpairStream]
            && s'.pipe == Some(0)
            && s'.data == s.data
            && s'.begun == s.begun + [P.Entry(0, ch.call, false)]
  {
    hide P.Run;
    schedule', s' := Move(schedule, P.Run(P.Init(1), schedule), ch);
    schedule', s' := Move(schedule', s', ch);
  }

  lemma Create(schedule: seq<(P.Agent, P.Choice)>, s: P.State, ch: P.Choice)
    returns (schedule': seq<(P.Agent, P.Choice)>, s': P.State)
    requires s == P.Run(P.Init(1), schedule)
    requires |s.callers| == 1 && s.callers[0].PairTest? && !s.data.sendLocked && !s.data.streaming && ch.ok
    ensures s' == P.Run(P.Init(1), schedule')
    ensures s'.callers == [P.PairIdle] && s'.pipe == s.pipe && s'.begun == s.begun
    ensures !s'.data.sendLocked && P.HasCapture(s'.data)
  {
    hide P.Run;
    schedule', s' := Move(schedule, s, ch);
    schedule', s' := Move(schedule', s', ch);
    schedule', s' := Move(schedule', s', ch);
    schedule', s' := Move(schedule', s', ch);
  }

  lemma StartCapture(schedule: seq<(P.Agent, P.Choice)>, s: P.State, ch: P.Choice)
    returns (schedule': seq<(P.Agent, P.Choice)>, s': P.State)
    requires s == P.Run(P.Init(1), schedule)
    requires s.callers == [P.PairIdle] && !s.data.sendLocked && P.HasCapture(s.data)
    ensures s' == P.Run(P.Init(1), schedule')
    ensures Calm(s') && s'.data.streaming && s'.begun == s.begun
  {
    hide P.Run;
    schedule', s' := Move(schedule, s, ch);
    schedule', s' := Move(schedule', s', ch);
    schedule', s' := Move(schedule', s', ch);
    schedule', s' := Move(schedule', s', ch);
    schedule', s' := Move(schedule', s', ch);
  }

  lemma DoPair(schedule: seq<(P.Agent, P.Choice)>, ip: string)
    returns (schedule': seq<(P.Agent, P.Choice)>, s': P.State)
    requires Calm(P.Run(P.Init(1), schedule))
    ensures s' == P.Run(P.Init(1), schedule') && Calm(s') && s'.data.streaming
    ensures s'.begun == P.Run(P.Init(1), schedule).begun + [P.Entry(0, P.Paired(ip), false)]
  {
    hide P.Run;
    var ch := P.Choice(P.Paired(ip), P.Failed, false, true, 0, true);
    schedule', s' := Begin(schedule, ch);
    if s'.data.streaming {
      schedule', s' := Move(schedule', s', ch);
      schedule', s' := Move(schedule', s', ch);
    } else {
      schedule', s' := Create(schedule', s', ch);
      schedule', s' := StartCapture(schedule', s', ch);
    }
  }

  /** The capture thread finds m_running clear and ends, and the join is over. */
  lemma Join(schedule: seq<(P.Agent, P.Choice)>, s: P.State, ch: P.Choice)
    returns (schedule': seq<(P.Agent, P.Choice)>, s': P.State)
    requires s == P.Run(P.Init(1), schedule)
    requires s.callers == [P.UnpairStop] && !s.data.sendLocked && !s.data.streaming
    requires P.HasCapture(s.data) && P.Cur(s.data).pc.Head?
    ensures s' == P.Run(P.Init(1), schedule')
    ensures s'.callers == [P.UnpairEncoder] && s'.begun == s.begun
    ensures !s'.data.sendLocked && !s'.data.streaming && s'.data.capture.None?
  {
    hide P.Run;
    schedule', s' := Move(schedule, s, ch);
    schedule', s' := Then(schedule', P.Capture(s.data.capture.value), ch);
    schedule', s' := Move(schedule', s', ch);
    schedule', s' := Move(schedule', s', ch);
  }

  lemma Clear(schedule: seq<(P.Agent, P.Choice)>, s: P.State, ch: P.Choice)
    returns (schedule': seq<(P.Agent, P.Choice)>, s': P.State)
    requires s == P.Run(P.Init(1), schedule)
    requires s.callers == [P.UnpairEncoder] && !s.data.sendLocked && !s.data.streaming && s.data.capture.None?
    ensures s' == P.Run(P.Init(1), schedule')
    ensures Calm(s') && !s'.data.streaming && s'.begun == s.begun
  {
    hide P.Run;
    schedule', s' := Move(schedule, s, ch);
    schedule', s' := Move(schedule', s', ch);
  }

  lemma DoUnpair(schedule: seq<(P.Agent, P.Choice)>) returns (schedule': seq<(P.Agent, P.Choice)>, s': P.State)
    requires Calm(P.Run(P.Init(1), schedule))
    ensures s' == P.Run(P.Init(1), schedule') && Calm(s') && !s'.data.streaming
    ensures s'.begun == P.Run(P.Init(1), schedule).begun + [P.Entry(0, P.Unpaired, false)]
  {
    hide P.Run;
    var ch := P.Choice(P.Unpaired, P.Failed, false, true, 0, true);
    schedule', s' := Begin(schedule, ch);
    schedule', s' := Move(schedule', s', ch);
    if s'.data.capture.Some? {
      schedule', s' := Join(schedule', s', ch);
    } else {
      schedule', s' := Move(schedule', s', ch);
    }
    schedule', s' := Clear(schedule', s', ch);
  }

  /** For any sequence of calls there is a run of the pipeline in which the control thread has made just
      these, and which streams if the last of them is an onPaired. */
  lemma {:induction false} CanFollow(calls: seq<P.Call>) returns (schedule: seq<(P.Agent, P.Choice)>, s: P.State)
    ensures s == P.Run(P.Init(1), schedule) && Calm(s) && H.By(s.begun, 0) == calls
    ensures s.data.streaming <==> calls != [] && calls[|calls| - 1].Paired?
  {
    if calls == [] {
      schedule, s := [], P.Init(1);
    } else {
      hide P.Run;
      var n := |calls| - 1;
      schedule, s := CanFollow(calls[..n]);
      H.LogGrows(s.begun, P.Entry(0, calls[n], false), 0);
      if calls[n].Paired? {
        schedule, s := DoPair(schedule, calls[n].ip);
      } else {
        schedule, s := DoUnpair(schedule);
      }
    }
  }

  // ---------- results ----------

  /** At every line boundary of every connection, whatever the threads of the pipeline did in between and
      however often the tray quit: streaming implies that the gate is Paired with a non-empty token, and
      the capture, the endpoint and the connection have the same client. */
  lemma StreamingNeedsSession(h: Host, clients: seq<Client>, ip: string, lines: seq<string>,
                              callers: nat, schedule: seq<(P.Agent, P.Choice)>, s: P.State)
    requires Reachable(callers, schedule, s)
    requires s.callers[0].Outside?
    requires H.By(s.begun, 0) == CallsOf(Serve(h, ip, ServeAll(h, Start(), clients), lines).events)
    requires s.data.streaming
    ensures Established(Serve(h, ip, ServeAll(h, Start(), clients), lines).gate)
    ensures P.HasCapture(s.data) && P.Cur(s.data).client == s.data.client == ip
  {
    hide Serve, ServeAll, P.Run, H.Streamed, H.By, Open, CallsOf;
    OpenNow(h, clients, ip, lines);
    FirstPairs(callers, schedule, s);
    StreamedIsOpen(s.data.history);
    H.StreamingIsFold(callers, schedule);
    H.CallsTakeEffect(callers, schedule, 0);
  }

  /** The call at position j came right behind the PAIR_ACCEPT of a token and its CONFIG_ACK. */
  predicate Approved(events: seq<Event>, j: nat, ip: string) {
    && 2 <= j < |events|
    && events[j] == PairedCall(ip)
    && events[j - 1].ConfigAck?
    && events[j - 2] == PairAccept(events[j - 1].token)
    && events[j - 1].token != ""
  }

  ghost predicate AllApproved(events: seq<Event>) {
    forall ip :: PairedCall(ip) in events ==> exists j :: Approved(events, j, ip)
  }

  lemma ApprovedMore(events: seq<Event>, more: seq<Event>)
    requires AllApproved(events)
    requires forall e :: e in more ==> !e.PairedCall?
    ensures AllApproved(events + more)
  {
    forall ip | PairedCall(ip) in events + more ensures exists j :: Approved(events + more, j, ip) {
      var j :| Approved(events, j, ip);
      assert Approved(events + more, j, ip);
    }
  }

  lemma ApprovedOpening(events: seq<Event>, ip: string, token: string, params: AckParams)
    requires AllApproved(events) && token != ""
    ensures AllApproved(events + Opening(ip, token, params))
  {
    var all := events + Opening(ip, token, params);
    forall x | PairedCall(x) in all ensures exists j :: Approved(all, j, x) {
      if PairedCall(x) in events {
        var j :| Approved(events, j, x);
        assert Approved(all, j, x);
      } else {
        assert Approved(all, |events| + 2, x);
      }
    }
  }

  lemma RequestApproved(h: Host, ip: string, w: World, req: PairRequest)
    requires AllApproved(w.events)
    ensures AllApproved(HandlePairRequest(h, ip, w, req).events)
  {
    hide AllApproved;
    var w' := HandlePairRequest(h, ip, w, req);
    if w'.events == w.events + [PairDeny("busy")] {
      ApprovedMore(w.events, [PairDeny("busy")]);
    } else if w'.events == w.events + [PairDeny("user_denied")] {
      ApprovedMore(w.events, [PairDeny("user_denied")]);
    } else if w'.events == w.events + [PairDeny("timeout")] {
      ApprovedMore(w.events, [PairDeny("timeout")]);
    } else {
      ApprovedOpening(w.events, ip, w'.gate.token, AckInfo(h, w.events));
    }
  }

  lemma LineApproved(h: Host, ip: string, w: World, line: string)
    requires AllApproved(w.events)
    ensures AllApproved(HandleLine(h, ip, w, line).0.events)
  {
    hide HandlePairRequest, AllApproved;
    if line != "" && h.parse(line).Some? && h.parse(line).value.kind.PairRequestKind? {
      if h.asPairRequest(line).Some? {
        RequestApproved(h, ip, w, h.asPairRequest(line).value);
      }
    } else {
      var w' := HandleLine(h, ip, w, line).0;
      if w'.events != w.events {
        ApprovedMore(w.events, [w'.events[|w.events|]]);
      }
    }
  }

  lemma {:induction false} LinesApproved(h: Host, ip: string, w: World, lines: seq<string>)
    requires AllApproved(w.events)
    ensures AllApproved(Serve(h, ip, w, lines).events)
    decreases |lines|
  {
    hide HandleLine, AllApproved;
    if lines != [] {
      LineApproved(h, ip, w, lines[0]);
      LinesApproved(h, ip, HandleLine(h, ip, w, lines[0]).0, lines[1..]);
    }
  }

  lemma {:induction false} ClientsApproved(h: Host, clients: seq<Client>)
    ensures AllApproved(ServeAll(h, Start(), clients).events)
  {
    if clients != [] {
      hide IsPrivateIPv4, Serve, AllApproved, PrintAddress, Lines, Concat;
      var before, c := clients[..|clients| - 1], clients[|clients| - 1];
      ClientsApproved(h, before);
      var w := ServeAll(h, Start(), before);
      LinesApproved(h, PrintAddress(c.peer), w, Lines(Concat(c.segments)));
      ApprovedMore(Serve(h, PrintAddress(c.peer), w, Lines(Concat(c.segments))).events, [UnpairedCall]);
    }
  }

  lemma {:induction false} CallsAreEvents(events: seq<Event>, ip: string)
    requires P.Paired(ip) in CallsOf(events)
    ensures PairedCall(ip) in events
  {
    var n := |events| - 1;
    if events[n] != PairedCall(ip) {
      CallsAreEvents(events[..n], ip);
    }
  }

  /** At every moment of every run: a frame on the wire went to the address of a client to which the control
      server had sent a PAIR_ACCEPT with a non-empty token just before it called onPaired for it. */
  lemma FramesNeedApproval(h: Host, clients: seq<Client>, ip: string, lines: seq<string>,
                           callers: nat, schedule: seq<(P.Agent, P.Choice)>, s: P.State, i: nat)
    requires Reachable(callers, schedule, s)
    requires H.By(s.begun, 0) <= CallsOf(Serve(h, ip, ServeAll(h, Start(), clients), lines).events)
    requires i < |s.data.sent|
    ensures exists j ::
              Approved(Serve(h, ip, ServeAll(h, Start(), clients), lines).events, j, s.data.sent[i].dest)
  {
    hide Serve, ServeAll, P.Run, H.By, H.Clients, CallsOf, Approved;
    var events := Serve(h, ip, ServeAll(h, Start(), clients), lines).events;
    var dest := s.data.sent[i].dest;
    ClientsApproved(h, clients);
    LinesApproved(h, ip, ServeAll(h, Start(), clients), lines);
    FirstPairs(callers, schedule, s);
    H.FramesReachTheirClient(callers, schedule, i);
    H.CallsTakeEffect(callers, schedule, 0);
    ClientPaired(s.data.history, s.data.sent[i].session);
    InLonger(H.By(s.data.history, 0), H.By(s.begun, 0), P.Paired(dest));
    InLonger(H.By(s.begun, 0), CallsOf(events), P.Paired(dest));
    CallsAreEvents(events, dest);
  }
}
