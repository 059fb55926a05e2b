/** What the captures and frames of Pipeline owe to the history of its calls: who is streamed to, and where
    every frame goes. */
module PipelineHistory {
  import opened Wrappers
  import opened Pipeline

  /** The calls of caller c. */
  function By(log: seq<Entry>, c: nat): seq<Call> {
    if log == [] then []
    else
      var e := log[|log| - 1];
      By(log[..|log| - 1], c) + if e.caller == c then [e.call] else []
  }

  /** The clients of the onPaired calls that created a capture. */
  function Clients(history: seq<Entry>): seq<string> {
    if history == [] then []
    else
      var e := history[|history| - 1];
      Clients(history[..|history| - 1]) + if e.call.Paired? && e.started then [e.call.ip] else []
  }

  /** m_streaming as a fold over the calls: the client of the last onPaired that created a capture, if no
      onUnpaired came since. */
  function Streamed(history: seq<Entry>): Option<string> {
    if history == [] then None
    else
      var e := history[|history| - 1];
      StreamedAfter(e, Streamed(history[..|history| - 1]))
  }

  lemma LogGrows(log: seq<Entry>, e: Entry, c: nat)
    ensures By(log + [e], c) == By(log, c) + if e.caller == c then [e.call] else []
  {
    assert (log + [e])[..|log|] == log;
  }

  lemma ClientsGrow(history: seq<Entry>, e: Entry)
    ensures Clients(history + [e]) == Clients(history) + if e.call.Paired? && e.started then [e.call.ip] else []
  {
    assert (history + [e])[..|history|] == history;
  }

  function StreamedAfter(e: Entry, before: Option<string>): Option<string> {
    match e.call
    case Unpaired => None
    case Paired(ip) => if e.started then Some(ip) else before
  }

  lemma StreamedGrows(history: seq<Entry>, e: Entry)
    ensures Streamed(history + [e]) == StreamedAfter(e, Streamed(history))
  {
    assert (history + [e])[..|history|] == history;
  }

  lemma HistoryGrows(d: Shared, e: Option<Entry>, c: nat)
    ensures By(Record(d, e).history, c) == By(d.history, c) + if e.Some? && e.value.caller == c then [e.value.call] else []
    ensures Clients(Record(d, e).history)
         == Clients(d.history) + if e.Some? && e.value.call.Paired? && e.value.started then [e.value.call.ip] else []
    ensures Streamed(Record(d, e).history)
         == if e.None? then Streamed(d.history) else StreamedAfter(e.value, Streamed(d.history))
  {
    hide By, Clients, Streamed, StreamedAfter;
    if e.Some? {
      LogGrows(d.history, e.value, c);
      ClientsGrow(d.history, e.value);
      StreamedGrows(d.history, e.value);
    }
  }

  // ---------- who is streamed to ----------

  /** Every capture was created for its client, and every frame went to the client of its capture. */
  predicate ClientInv(d: Shared) {
    && |Clients(d.history)| == |d.sessions|
    && (forall k :: 0 <= k < |d.sessions| ==> d.sessions[k].client == Clients(d.history)[k])
    && (forall i :: 0 <= i < |d.sent| ==>
          d.sent[i].session < |d.sessions| && d.sent[i].dest == d.sessions[d.sent[i].session].client)
  }

  /** The current capture is for the client set as endpoint. */
  predicate EndpointInv(p: CallerPc, d: Shared) {
    && (d.capture.Some? ==> HasCapture(d) && Cur(d).client == d.client)
    && (p.PairCreate? ==> d.client == p.ip)
  }

  /** m_streaming is the fold, except between the creation of a capture and the store. */
  predicate FoldInv(p: CallerPc, d: Shared) {
    && (d.capture.Some? ==> HasCapture(d))
    && Streamed(d.history) == if (d.streaming || p.PairIdle? || p.PairStream?) && HasCapture(d) then
                                Some(Cur(d).client)
                              else None
  }

  function After(c: nat, p: CallerPc, d: Shared, ch: Choice): Shared {
    Record(Effect(p, d, ch), Commit(c, p, d, ch))
  }

  lemma EffectClients(c: nat, p: CallerPc, d: Shared, ch: Choice)
    requires ClientInv(d)
    ensures ClientInv(After(c, p, d, ch))
  {
    hide Clients;
    HistoryGrows(Effect(p, d, ch), Commit(c, p, d, ch), c);
  }

  lemma EffectEndpoint(c: nat, p: CallerPc, d: Shared, ch: Choice)
    requires DataInv(p, d) && EndpointInv(p, d)
    ensures EndpointInv(NextPc(p, d, ch), After(c, p, d, ch))
  {
  }

  lemma EffectFold(c: nat, p: CallerPc, d: Shared, ch: Choice)
    requires DataInv(p, d) && FoldInv(p, d)
    ensures FoldInv(NextPc(p, d, ch), After(c, p, d, ch))
  {
    hide Streamed;
    HistoryGrows(Effect(p, d, ch), Commit(c, p, d, ch), c);
  }

  lemma CaptureHistory(p: CallerPc, d: Shared, k: nat, ch: Choice)
    requires OneCapture(d) && ClientInv(d) && EndpointInv(p, d) && FoldInv(p, d)
    requires k < |d.sessions| && Alive(d.sessions[k])
    ensures var d' := CaptureStep(d, k, ch); ClientInv(d') && EndpointInv(p, d') && FoldInv(p, d')
  {
    hide Clients, Streamed, NextSession;
    assert d.capture == Some(k);
    SameClient(d.sessions[k], d.idle, d.encoder, ch);
  }

  lemma SameClient(v: Session, idle: bool, encoder: bool, ch: Choice)
    ensures NextSession(v, idle, encoder, ch).client == v.client
  {
  }

  // ---------- which calls took effect ----------

  /** The call that a caller has begun and that has not taken effect. */
  function Pending(pc: CallerPc): seq<Call> {
    match pc
    case PairLock(ip) => [Paired(ip)]
    case PairTest(ip) => [Paired(ip)]
    case PairEndpoint(ip) => [Paired(ip)]
    case PairEndpointIn(ip) => [Paired(ip)]
    case PairCreate(ip) => [Paired(ip)]
    case UnpairLock | UnpairStream => [Unpaired]
    case _ => []
  }

  predicate CallsInv(s: State) {
    && (forall c :: 0 <= c < |s.callers| ==> By(s.begun, c) == By(s.data.history, c) + Pending(s.callers[c]))
    && (forall e :: e in s.data.history ==> e.caller < |s.callers|)
  }

  lemma PendingCommits(c: nat, p: CallerPc, d: Shared, ch: Choice)
    requires !p.Outside?
    ensures var e := Commit(c, p, d, ch);
            && Pending(p) == (if e.Some? then [e.value.call] else []) + Pending(NextPc(p, d, ch))
            && (e.Some? ==> e.value.caller == c)
            && Effect(p, d, ch).history == d.history
  {
  }

  lemma BeginsCall(c: nat, d: Shared, ch: Choice)
    ensures Effect(Outside, d, ch) == d && Commit(c, Outside, d, ch) == None
    ensures Pending(Outside) == [] && Pending(NextPc(Outside, d, ch)) == [ch.call]
  {
  }

  lemma NewEntries(d: Shared, e: Option<Entry>)
    ensures forall x :: x in Record(d, e).history ==> x in d.history || e == Some(x)
  {
  }

  lemma CallsStep(s: State, c: nat, ch: Choice)
    requires CallsInv(s) && c < |s.callers|
    ensures CallsInv(CallerStep(s, c, ch))
  {
    hide By, Effect, Commit, Pending, NextPc, PipeAfter, Record;
    var s' := CallerStep(s, c, ch);
    var p := s.callers[c];
    NewEntries(Effect(p, s.data, ch), Commit(c, p, s.data, ch));
    if p.Outside? {
      BeginsCall(c, s.data, ch);
    } else {
      PendingCommits(c, p, s.data, ch);
    }
    forall j | 0 <= j < |s.callers| ensures By(s'.begun, j) == By(s'.data.history, j) + Pending(s'.callers[j]) {
      HistoryGrows(Effect(p, s.data, ch), Commit(c, p, s.data, ch), j);
      if p.Outside? {
        LogGrows(s.begun, Entry(c, ch.call, false), j);
      }
    }
  }

  // ---------- every run ----------

  predicate HistoryInv(s: State) {
    && ClientInv(s.data)
    && EndpointInv(PipePc(s), s.data)
    && FoldInv(PipePc(s), s.data)
    && CallsInv(s)
  }

  /** Entering the critical section. */
  lemma EnterHistory(c: nat, p: CallerPc, d: Shared, ch: Choice)
    requires EndpointInv(Outside, d) && FoldInv(Outside, d)
    requires p.PairLock? || p.UnpairLock?
    ensures After(c, p, d, ch) == d
    ensures EndpointInv(NextPc(p, d, ch), d) && FoldInv(NextPc(p, d, ch), d)
  {
    hide Streamed;
  }

  lemma BeginHistory(c: nat, d: Shared, ch: Choice)
    ensures After(c, Outside, d, ch) == d
  {
  }

  lemma CallerHistory(s: State, c: nat, ch: Choice)
    requires Inv(s) && HistoryInv(s) && Enabled(s, Caller(c))
    ensures HistoryInv(CallerStep(s, c, ch))
  {
    CallerPipe(s, c, ch);
    CallsStep(s, c, ch);
    hide PipeInv, PipePc, CallsInv, DataInv, ClientInv, EndpointInv, FoldInv, Effect, NextPc, PipeAfter, Commit, Record;
    var pc := s.callers[c];
    assert CallerStep(s, c, ch).data == After(c, pc, s.data, ch);
    EffectClients(c, pc, s.data, ch);
    if InPipe(pc) {
      EffectEndpoint(c, pc, s.data, ch);
      EffectFold(c, pc, s.data, ch);
    } else if pc.Outside? {
      BeginHistory(c, s.data, ch);
    } else {
      EnterHistory(c, pc, s.data, ch);
    }
  }

  lemma HistoryStep(s: State, a: Agent, ch: Choice)
    requires Inv(s) && HistoryInv(s)
    ensures HistoryInv(Step(s, a, ch))
  {
    if Enabled(s, a) {
      match a
      case Caller(c) => CallerHistory(s, c, ch);
      case Capture(k) =>
        CaptureHistory(PipePc(s), s.data, k, ch);
        hide DataInv, ClientInv, EndpointInv, FoldInv, NextSession;
    }
  }

  lemma {:induction false} AlwaysHistory(callers: nat, schedule: seq<(Agent, Choice)>)
    ensures Inv(Run(Init(callers), schedule)) && HistoryInv(Run(Init(callers), schedule))
  {
    if schedule == [] {
      InitInv(callers);
    } else {
      hide Inv, HistoryInv, Step;
      var before, last := schedule[..|schedule| - 1], schedule[|schedule| - 1];
      AlwaysHistory(callers, before);
      StepKeeps(Run(Init(callers), before), last.0, last.1);
      HistoryStep(Run(Init(callers), before), last.0, last.1);
    }
  }

  /** In every interleaving, every frame ever sent went to the address that was passed to the onPaired call
      that created its capture. */
  lemma FramesReachTheirClient(callers: nat, schedule: seq<(Agent, Choice)>, i: nat)
    requires i < |Run(Init(callers), schedule).data.sent|
    ensures var d := Run(Init(callers), schedule).data;
            d.sent[i].session < |Clients(d.history)| && d.sent[i].dest == Clients(d.history)[d.sent[i].session]
  {
    hide Run, Inv, CallsInv, FoldInv, EndpointInv;
    AlwaysHistory(callers, schedule);
  }

  /** m_streaming is set only if an onPaired created a capture and no onUnpaired came since; the capture is
      there, and it, the endpoint and that call have the same client.  Outside the critical section the
      converse holds as well. */
  lemma StreamingIsFold(callers: nat, schedule: seq<(Agent, Choice)>)
    ensures var s := Run(Init(callers), schedule);
            var d := s.data;
            && (d.streaming ==> HasCapture(d) && Streamed(d.history) == Some(Cur(d).client) == Some(d.client))
            && (s.pipe.None? ==> (d.streaming <==> Streamed(d.history).Some?))
  {
    hide Run, CallsInv, Streamed, Clients;
    AlwaysHistory(callers, schedule);
  }

  /** A caller's calls take effect in the order it makes them, each once; at most the last is pending, and
      none when the caller is outside. */
  lemma CallsTakeEffect(callers: nat, schedule: seq<(Agent, Choice)>, c: nat)
    requires c < |Run(Init(callers), schedule).callers|
    ensures var s := Run(Init(callers), schedule);
            && By(s.data.history, c) <= By(s.begun, c)
            && (s.callers[c].Outside? ==> By(s.data.history, c) == By(s.begun, c))
  {
    hide Run, Inv, ClientInv, EndpointInv, FoldInv, By;
    AlwaysHistory(callers, schedule);
  }
}
