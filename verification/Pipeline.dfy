/** The stream pipeline of src/app.cpp and the capture thread of src/display/dxgi_capture.cpp as a system
    of threads.

    Callers run onPaired and onUnpaired, which hold m_pipeMutex; in the application they are the control
    thread and, for the tray's Quit, the main thread.  Each capture session has one thread, which takes
    no lock but the sender's m_sendMutex.  Every shared access is a step, what the system returns is the
    step's Choice, and a run is an arbitrary schedule. */
module Pipeline {
  import opened Wrappers

  datatype CallerPc =
    | Outside
    | PairLock(ip: string)         // onPaired waits for m_pipeMutex
    | PairTest(ip: string)         // reads m_streaming
    | PairEndpoint(ip: string)     // setClientEndpoint waits for m_sendMutex
    | PairEndpointIn(ip: string)   // has it and stores the endpoint
    | PairCreate(ip: string)       // DXGICapture::create and make_unique
    | PairIdle                     // m_idle := false
    | PairStream                   // m_streaming := true
    | PairRun                      // start: m_running := true
    | PairSpawn                    // start: the capture thread begins
    | PairUnlock
    | UnpairLock                   // onUnpaired waits for m_pipeMutex
    | UnpairStream                 // m_streaming := false
    | UnpairStop                   // stop: m_running := false, if there is a capture
    | UnpairJoin                   // stop: waits for the capture thread
    | UnpairCapture                // m_capture.reset()
    | UnpairEncoder                // m_encoder.reset()
    | UnpairUnlock

  datatype CapturePc =
    | NotStarted
    | Head                       // reads m_running
    | Acquire                    // in AcquireNextFrame
    | CallIdle                   // onIdle: m_idle := true
    | CallResume(deliver: bool)  // onResume: m_idle := false
    | Deliver                    // onCaptureFrame reads m_idle
    | UseEncoder                 // tests m_encoder and creates one if there is none
    | Encode(nals: nat)          // encodeFrame has this many NALs left to hand to sendFrame
    | SendWait(nals: nat)        // sendFrame waits for m_sendMutex
    | Sending(nals: nat)         // and has it
    | SendDone(nals: nat)        // still has it
    | Release                    // Unmap and ReleaseFrame
    | Exited

  /** A DXGICapture object with its thread; idle is the loop's own variable.  client is the address given
      to the onPaired call that created it. */
  datatype Session = Session(running: bool, pc: CapturePc, idle: bool, client: string)

  datatype Call = Paired(ip: string) | Unpaired

  /** A call by a caller; started tells whether it created a capture. */
  datatype Entry = Entry(caller: nat, call: Call, started: bool)

  /** A frame handed to the network: the session it came from, and the endpoint it went to. */
  datatype Sent = Sent(session: nat, dest: string)

  /** What the threads share besides m_pipeMutex; client is the endpoint's address.  sessions lists every
      capture ever created, sent every frame ever sent, and history the calls in the order they took
      effect: onPaired when it found a stream or tried to create a capture, onUnpaired when it cleared
      m_streaming. */
  datatype Shared = Shared(
    sendLocked: bool,
    client: string,
    streaming: bool,
    idle: bool,
    capture: Option<nat>,
    encoder: bool,
    sessions: seq<Session>,
    sent: seq<Sent>,
    history: seq<Entry>
  )

  /** pipe is the caller that has m_pipeMutex; begun lists the calls in the order they were made. */
  datatype State = State(callers: seq<CallerPc>, pipe: Option<nat>, data: Shared, begun: seq<Entry>)

  datatype Acquired = Timeout(idleDue: bool) | Failed | Changed(mapped: bool) | Unchanged

  /** What the surroundings decide in a step; each step looks at its own part: the call to make, what is
      acquired, whether the size is even, whether a capture or encoder can be created, how many NALs come
      out, and whether sendFrame passes its first check. */
  datatype Choice = Choice(call: Call, acquired: Acquired, evenSize: bool, ok: bool, nals: nat, passes: bool)

  datatype Agent = Caller(c: nat) | Capture(k: nat)

  function Init(callers: nat): State {
    State(seq(callers, _ => Outside), None, Shared(false, "", false, false, None, false, [], [], []), [])
  }

  predicate InPipe(pc: CallerPc) {
    !pc.Outside? && !pc.PairLock? && !pc.UnpairLock?
  }

  predicate Alive(v: Session) {
    !v.pc.NotStarted? && !v.pc.Exited?
  }

  predicate HasCapture(d: Shared) {
    d.capture.Some? && d.capture.value < |d.sessions|
  }

  function Cur(d: Shared): Session
    requires HasCapture(d)
  {
    d.sessions[d.capture.value]
  }

  /** May a caller at pc go on?  Locks must be free, and the join waits for the capture thread. */
  predicate CallerReady(s: State, pc: CallerPc) {
    && (pc.PairLock? || pc.UnpairLock? ==> s.pipe.None?)
    && (pc.PairEndpoint? ==> !s.data.sendLocked)
    && (pc.UnpairJoin? && HasCapture(s.data) ==> Cur(s.data).pc.Exited?)
  }

  predicate Enabled(s: State, a: Agent) {
    match a
    case Caller(c) => c < |s.callers| && CallerReady(s, s.callers[c])
    case Capture(k) =>
      && k < |s.data.sessions|
      && Alive(s.data.sessions[k])
      && (s.data.sessions[k].pc.SendWait? ==> !s.data.sendLocked)
  }

  /** The control flow of onPaired and onUnpaired. */
  function NextPc(pc: CallerPc, d: Shared, ch: Choice): CallerPc {
    match pc
    case Outside => if ch.call.Paired? then PairLock(ch.call.ip) else UnpairLock
    case PairLock(ip) => PairTest(ip)
    case PairTest(ip) => if d.streaming then PairUnlock else PairEndpoint(ip)
    case PairEndpoint(ip) => PairEndpointIn(ip)
    case PairEndpointIn(ip) => PairCreate(ip)
    case PairCreate(_) => if ch.ok then PairIdle else PairUnlock
    case PairIdle => PairStream
    case PairStream => PairRun
    case PairRun => PairSpawn
    case PairSpawn => PairUnlock
    case PairUnlock => Outside
    case UnpairLock => UnpairStream
    case UnpairStream => UnpairStop
    case UnpairStop => if d.capture.Some? then UnpairJoin else UnpairEncoder
    case UnpairJoin => UnpairCapture
    case UnpairCapture => UnpairEncoder
    case UnpairEncoder => UnpairUnlock
    case UnpairUnlock => Outside
  }

  function PipeAfter(pipe: Option<nat>, pc: CallerPc, c: nat): Option<nat> {
    match pc
    case PairLock(_) | UnpairLock => Some(c)
    case PairUnlock | UnpairUnlock => None
    case _ => pipe
  }

  function SetCur(d: Shared, v: Session): Shared
    requires HasCapture(d)
  {
    d.(sessions := d.sessions[d.capture.value := v])
  }

  /** The step at which the call of caller c takes effect. */
  function Commit(c: nat, pc: CallerPc, d: Shared, ch: Choice): Option<Entry> {
    match pc
    case PairTest(ip) => if d.streaming then Some(Entry(c, Paired(ip), false)) else None
    case PairCreate(ip) => Some(Entry(c, Paired(ip), ch.ok))
    case UnpairStream => Some(Entry(c, Unpaired, false))
    case _ => None
  }

  function Record(d: Shared, e: Option<Entry>): Shared {
    match e
    case Some(e) => d.(history := d.history + [e])
    case None => d
  }

  /** What the step at pc does to the shared data. */
  function Effect(pc: CallerPc, d: Shared, ch: Choice): Shared {
    match pc
    case PairEndpoint(_) => d.(sendLocked := true)
    case PairEndpointIn(ip) => d.(sendLocked := false, client := ip)
    case PairCreate(ip) =>
      if ch.ok then
        d.(capture := Some(|d.sessions|), sessions := d.sessions + [Session(false, NotStarted, false, ip)])
      else d
    case PairIdle => d.(idle := false)
    case PairStream => d.(streaming := true)
    case PairRun => if HasCapture(d) then SetCur(d, Cur(d).(running := true)) else d
    case PairSpawn => if HasCapture(d) then SetCur(d, Cur(d).(pc := Head)) else d
    case UnpairStream => d.(streaming := false)
    case UnpairStop => if HasCapture(d) then SetCur(d, Cur(d).(running := false)) else d
    case UnpairCapture => d.(capture := None)
    case UnpairEncoder => d.(encoder := false)
    case _ => d
  }

  function CallerStep(s: State, c: nat, ch: Choice): State
    requires c < |s.callers|
  {
    var pc := s.callers[c];
    State(s.callers[c := NextPc(pc, s.data, ch)], PipeAfter(s.pipe, pc, c),
          Record(Effect(pc, s.data, ch), Commit(c, pc, s.data, ch)),
          if pc.Outside? then s.begun + [Entry(c, ch.call, false)] else s.begun)
  }

  function AfterAcquire(v: Session, acquired: Acquired): Session {
    match acquired
    case Timeout(idleDue) => if idleDue && !v.idle then v.(pc := CallIdle, idle := true) else v.(pc := Head)
    case Failed => v.(pc := Exited)
    case Changed(mapped) =>
      if v.idle then v.(pc := CallResume(mapped), idle := false)
      else v.(pc := if mapped then Deliver else Release)
    case Unchanged => v.(pc := Release)
  }

  /** The capture thread's own control flow. */
  function NextSession(v: Session, idle: bool, encoder: bool, ch: Choice): Session {
    match v.pc
    case NotStarted | Exited => v
    case Head => v.(pc := if v.running then Acquire else Exited)
    case Acquire => AfterAcquire(v, ch.acquired)
    case CallIdle => v.(pc := Head)
    case CallResume(deliver) => v.(pc := if deliver then Deliver else Release)
    case Deliver => v.(pc := if idle || !ch.evenSize then Release else UseEncoder)
    case UseEncoder => v.(pc := if encoder || ch.ok then Encode(ch.nals) else Release)
    case Encode(n) => v.(pc := if n == 0 then Release else if ch.passes then SendWait(n) else Encode(n - 1))
    case SendWait(n) => v.(pc := Sending(n))
    case Sending(n) => v.(pc := SendDone(n))
    case SendDone(n) => v.(pc := Encode(if n == 0 then 0 else n - 1))
    case Release => v.(pc := Head)
  }

  function LockAfter(pc: CapturePc, locked: bool): bool {
    if pc.SendWait? then true else if pc.SendDone? then false else locked
  }

  function IdleAfter(pc: CapturePc, idle: bool): bool {
    if pc.CallIdle? then true else if pc.CallResume? then false else idle
  }

  function EncoderAfter(pc: CapturePc, encoder: bool, ch: Choice): bool {
    encoder || (pc.UseEncoder? && ch.ok)
  }

  function CaptureStep(d: Shared, k: nat, ch: Choice): Shared
    requires k < |d.sessions|
  {
    var v := d.sessions[k];
    d.(sessions := d.sessions[k := NextSession(v, d.idle, d.encoder, ch)],
       sendLocked := LockAfter(v.pc, d.sendLocked),
       idle := IdleAfter(v.pc, d.idle),
       encoder := EncoderAfter(v.pc, d.encoder, ch),
       sent := if v.pc.Sending? then d.sent + [Sent(k, d.client)] else d.sent)
  }

  function Step(s: State, a: Agent, ch: Choice): State {
    if !Enabled(s, a) then s
    else
      match a
      case Caller(c) => CallerStep(s, c, ch)
      case Capture(k) => s.(data := CaptureStep(s.data, k, ch))
  }

  function Run(s: State, schedule: seq<(Agent, Choice)>): State {
    if schedule == [] then s
    else
      var last := schedule[|schedule| - 1];
      Step(Run(s, schedule[..|schedule| - 1]), last.0, last.1)
  }

  // ---------- the invariant ----------

  predicate PipeInv(s: State) {
    && (s.pipe.Some? ==> s.pipe.value < |s.callers|)
    && forall c :: 0 <= c < |s.callers| ==> (InPipe(s.callers[c]) <==> s.pipe == Some(c))
  }

  /** The program point of the caller in the critical section; Outside when there is none. */
  function PipePc(s: State): CallerPc {
    if s.pipe.Some? && s.pipe.value < |s.callers| then s.callers[s.pipe.value] else Outside
  }

  predicate Starting(p: CallerPc) {
    p.PairIdle? || p.PairStream? || p.PairRun? || p.PairSpawn?
  }

  /** Only the current capture is not over. */
  predicate OneCapture(d: Shared) {
    && (d.capture.Some? ==> d.capture.value < |d.sessions|)
    && (forall k :: 0 <= k < |d.sessions| && !d.sessions[k].pc.Exited? ==> d.capture == Some(k))
  }

  predicate UsesSender(pc: CapturePc) {
    pc.Sending? || pc.SendDone?
  }

  predicate HasEncoder(pc: CapturePc) {
    pc.Encode? || pc.SendWait? || pc.Sending? || pc.SendDone?
  }

  predicate Quiet(d: Shared) {
    !d.streaming && d.capture.None? && !d.encoder
  }

  /** What holds at each point of the critical section; outside, streaming and having a capture agree. */
  predicate PointInv(p: CallerPc, d: Shared) {
    match p
    case PairEndpoint(_) | PairEndpointIn(_) | PairCreate(_) | UnpairUnlock => Quiet(d)
    case PairIdle => !d.streaming && d.capture.Some? && !d.encoder
    case PairStream => !d.streaming && d.capture.Some? && !d.encoder && !d.idle
    case PairRun | PairSpawn => d.streaming && d.capture.Some? && !d.encoder && !d.idle
    case UnpairStop => !d.streaming && (d.capture.None? ==> !d.encoder)
    case UnpairJoin | UnpairCapture => !d.streaming && d.capture.Some?
    case UnpairEncoder => !d.streaming && d.capture.None?
    case _ => if d.streaming then d.capture.Some? else Quiet(d)
  }

  /** m_idle follows the loop's idle, lagging only across the callback itself. */
  predicate IdleAgrees(v: Session, idle: bool) {
    match v.pc
    case CallIdle => v.idle && !idle
    case CallResume(_) => !v.idle && idle
    case Deliver | UseEncoder | Encode(_) | SendWait(_) | Sending(_) | SendDone(_) => !v.idle && !idle
    case _ => v.idle == idle
  }

  /** The current capture v: not started exactly while onPaired is starting it, told to run until
      onUnpaired waits for it, over when that wait is, and using the encoder only when there is one. */
  predicate SessionInv(v: Session, p: CallerPc, idle: bool, encoder: bool) {
    && (v.pc.NotStarted? <==> Starting(p))
    && (v.pc.NotStarted? ==> !v.idle)
    && (p.PairSpawn? ==> v.running)
    && (p.UnpairCapture? ==> v.pc.Exited?)
    && (Alive(v) ==> (v.running <==> !p.UnpairJoin?))
    && (Alive(v) ==> IdleAgrees(v, idle))
    && (HasEncoder(v.pc) ==> encoder)
  }

  predicate DataInv(p: CallerPc, d: Shared) {
    && OneCapture(d)
    && PointInv(p, d)
    && (d.capture.Some? ==> SessionInv(Cur(d), p, d.idle, d.encoder))
    && (d.sendLocked <==> p.PairEndpointIn? || (d.capture.Some? && UsesSender(Cur(d).pc)))
  }

  predicate Inv(s: State) {
    PipeInv(s) && DataInv(PipePc(s), s.data)
  }

  predicate Unpairing(p: CallerPc) {
    p.UnpairStream? || p.UnpairStop? || p.UnpairJoin? || p.UnpairCapture? || p.UnpairEncoder? || p.UnpairUnlock?
  }

  /** A step inside the critical section. */
  lemma InsideKeeps(p: CallerPc, d: Shared, ch: Choice)
    requires DataInv(p, d) && InPipe(p)
    requires p.PairEndpoint? ==> !d.sendLocked
    requires p.UnpairJoin? && HasCapture(d) ==> Cur(d).pc.Exited?
    ensures DataInv(NextPc(p, d, ch), Effect(p, d, ch))
  {
    hide DataInv;
    if Unpairing(p) {
      UnpairingKeeps(p, d, ch);
    } else {
      PairingKeeps(p, d, ch);
    }
  }

  lemma PairingKeeps(p: CallerPc, d: Shared, ch: Choice)
    requires DataInv(p, d) && InPipe(p) && !Unpairing(p)
    requires p.PairEndpoint? ==> !d.sendLocked
    ensures DataInv(NextPc(p, d, ch), Effect(p, d, ch))
  {
  }

  lemma UnpairingKeeps(p: CallerPc, d: Shared, ch: Choice)
    requires DataInv(p, d) && Unpairing(p)
    requires p.UnpairJoin? && HasCapture(d) ==> Cur(d).pc.Exited?
    ensures DataInv(NextPc(p, d, ch), Effect(p, d, ch))
  {
  }

  /** Entering the critical section. */
  lemma EnterKeeps(p: CallerPc, d: Shared, ch: Choice)
    requires DataInv(Outside, d) && (p.PairLock? || p.UnpairLock?)
    ensures DataInv(NextPc(p, d, ch), Effect(p, d, ch))
  {
  }

  lemma OutsideKeeps(d: Shared, ch: Choice)
    ensures Effect(Outside, d, ch) == d
  {
  }

  lemma CallerPipe(s: State, c: nat, ch: Choice)
    requires PipeInv(s) && Enabled(s, Caller(c))
    ensures var s' := CallerStep(s, c, ch);
            var pc := s.callers[c];
            && PipeInv(s')
            && (InPipe(pc) ==> PipePc(s) == pc)
            && (pc.PairLock? || pc.UnpairLock? ==> PipePc(s) == Outside)
            && PipePc(s') == if pc.Outside? then PipePc(s) else NextPc(pc, s.data, ch)
  {
    hide Effect;
    assert InPipe(s.callers[c]) <==> s.pipe == Some(c);
  }

  lemma RecordKeeps(p: CallerPc, d: Shared, e: Option<Entry>)
    requires DataInv(p, d)
    ensures DataInv(p, Record(d, e))
  {
  }

  lemma CallerKeeps(s: State, c: nat, ch: Choice)
    requires Inv(s) && Enabled(s, Caller(c))
    ensures Inv(CallerStep(s, c, ch))
  {
    CallerPipe(s, c, ch);
    hide PipeInv, PipePc, DataInv;
    var pc := s.callers[c];
    hide Effect, NextPc, PipeAfter, Commit;
    if InPipe(pc) {
      InsideKeeps(pc, s.data, ch);
    } else if !pc.Outside? {
      EnterKeeps(pc, s.data, ch);
    } else {
      OutsideKeeps(s.data, ch);
    }
    RecordKeeps(PipePc(CallerStep(s, c, ch)), Effect(pc, s.data, ch), Commit(c, pc, s.data, ch));
  }

  lemma SessionStep(v: Session, p: CallerPc, idle: bool, encoder: bool, ch: Choice)
    requires SessionInv(v, p, idle, encoder) && Alive(v)
    ensures SessionInv(NextSession(v, idle, encoder, ch), p, IdleAfter(v.pc, idle), EncoderAfter(v.pc, encoder, ch))
  {
  }

  lemma SenderStep(v: Session, idle: bool, encoder: bool, ch: Choice)
    requires Alive(v)
    ensures !NextSession(v, idle, encoder, ch).pc.NotStarted?
    ensures UsesSender(NextSession(v, idle, encoder, ch).pc)
        <==> v.pc.SendWait? || (UsesSender(v.pc) && !v.pc.SendDone?)
  {
  }

  lemma CaptureKeeps(p: CallerPc, d: Shared, k: nat, ch: Choice)
    requires DataInv(p, d) && k < |d.sessions| && Alive(d.sessions[k])
    requires d.sessions[k].pc.SendWait? ==> !d.sendLocked
    ensures DataInv(p, CaptureStep(d, k, ch))
  {
    var v := d.sessions[k];
    assert d.capture == Some(k);
    SessionStep(v, p, d.idle, d.encoder, ch);
    SenderStep(v, d.idle, d.encoder, ch);
    hide NextSession, SessionInv;
  }

  lemma StepKeeps(s: State, a: Agent, ch: Choice)
    requires Inv(s)
    ensures Inv(Step(s, a, ch))
  {
    hide DataInv;
    if Enabled(s, a) {
      match a
      case Caller(c) => CallerKeeps(s, c, ch);
      case Capture(k) => CaptureKeeps(PipePc(s), s.data, k, ch);
    }
  }

  lemma {:induction false} AlwaysInv(s: State, schedule: seq<(Agent, Choice)>)
    requires Inv(s)
    ensures Inv(Run(s, schedule))
  {
    hide Inv;
    if schedule != [] {
      AlwaysInv(s, schedule[..|schedule| - 1]);
      var last := schedule[|schedule| - 1];
      StepKeeps(Run(s, schedule[..|schedule| - 1]), last.0, last.1);
    }
  }

  lemma InitInv(callers: nat)
    ensures Inv(Init(callers))
  {
  }

  // ---------- what every interleaving keeps ----------

  predicate AnyAlive(d: Shared) {
    exists k :: 0 <= k < |d.sessions| && Alive(d.sessions[k])
  }

  lemma PointOf(s: State, c: nat)
    requires PipeInv(s) && c < |s.callers| && InPipe(s.callers[c])
    ensures PipePc(s) == s.callers[c]
  {
  }

  /** For any number of callers and any interleaving: at most one capture thread is alive; none is while
      m_capture or m_encoder is reset; a capture thread starts with no encoder and no other one alive; and
      when a frame is delivered m_idle is clear, so onCaptureFrame never discards it for idleness. */
  lemma ExclusiveTeardown(callers: nat, schedule: seq<(Agent, Choice)>)
    ensures var s := Run(Init(callers), schedule);
            var d := s.data;
            && (forall j, k :: 0 <= j < k < |d.sessions| ==> !Alive(d.sessions[j]) || !Alive(d.sessions[k]))
            && (forall c :: 0 <= c < |s.callers| && (s.callers[c].UnpairCapture? || s.callers[c].UnpairEncoder?) ==>
                  !AnyAlive(d))
            && (forall c :: 0 <= c < |s.callers| && s.callers[c].PairSpawn? ==> !d.encoder && !AnyAlive(d))
            && (forall k :: 0 <= k < |d.sessions| && d.sessions[k].pc.Deliver? ==> !d.idle)
  {
    hide Run, PipePc;
    InitInv(callers);
    AlwaysInv(Init(callers), schedule);
    var s := Run(Init(callers), schedule);
    forall c | 0 <= c < |s.callers| && InPipe(s.callers[c]) ensures PipePc(s) == s.callers[c] {
      PointOf(s, c);
    }
  }

  predicate AllOver(d: Shared, n: nat) {
    n <= |d.sessions| && forall k :: 0 <= k < n ==> d.sessions[k].pc.Exited?
  }

  lemma OverEffect(pc: CallerPc, d: Shared, ch: Choice, n: nat)
    requires AllOver(d, n)
    requires pc.PairSpawn? && HasCapture(d) ==> !Cur(d).pc.Exited?
    ensures AllOver(Effect(pc, d, ch), n)
    ensures Effect(pc, d, ch).sent == d.sent
  {
  }

  lemma OverStep(s: State, a: Agent, ch: Choice, n: nat)
    requires Inv(s) && AllOver(s.data, n)
    ensures var d' := Step(s, a, ch).data;
            && AllOver(d', n)
            && s.data.sent <= d'.sent
            && forall i :: |s.data.sent| <= i < |d'.sent| ==> d'.sent[i].session >= n
  {
    hide NextSession, NextPc, PipeAfter, Effect;
    if a.Caller? && Enabled(s, a) {
      CallerPipe(s, a.c, ch);
      OverEffect(s.callers[a.c], s.data, ch, n);
    }
  }

  lemma {:induction false} OverForever(s: State, schedule: seq<(Agent, Choice)>, n: nat)
    requires Inv(s) && AllOver(s.data, n)
    ensures var d' := Run(s, schedule).data;
            && AllOver(d', n)
            && s.data.sent <= d'.sent
            && forall i :: |s.data.sent| <= i < |d'.sent| ==> d'.sent[i].session >= n
  {
    hide Inv, AllOver, Step;
    if schedule != [] {
      var before := schedule[..|schedule| - 1];
      var last := schedule[|schedule| - 1];
      OverForever(s, before, n);
      AlwaysInv(s, before);
      OverStep(Run(s, before), last.0, last.1, n);
    }
  }

  /** When onUnpaired is about to return, streaming is off, there is no encoder, and every capture thread so
      far is over for good: every frame sent later, in any interleaving, comes from a capture that a later
      onPaired created. */
  lemma QuietAfterUnpaired(callers: nat, schedule: seq<(Agent, Choice)>, c: nat, later: seq<(Agent, Choice)>)
    requires c < |Run(Init(callers), schedule).callers| && Run(Init(callers), schedule).callers[c].UnpairUnlock?
    ensures var s := Run(Init(callers), schedule);
            var s' := Run(s, later);
            && Quiet(s.data)
            && s.data.sent <= s'.data.sent
            && forall i :: |s.data.sent| <= i < |s'.data.sent| ==> s'.data.sent[i].session >= |s.data.sessions|
  {
    hide Run;
    InitInv(callers);
    AlwaysInv(Init(callers), schedule);
    var s := Run(Init(callers), schedule);
    PointOf(s, c);
    OverForever(s, later, |s.data.sessions|);
  }

  // ---------- progress ----------

  /** Is the agent inside a call, or a thread that has not ended? */
  predicate Unfinished(s: State, a: Agent) {
    match a
    case Caller(c) => c < |s.callers| && !s.callers[c].Outside?
    case Capture(k) => k < |s.data.sessions| && Alive(s.data.sessions[k])
  }

  /** The agent that can go on whenever somebody is unfinished: a capture thread if onUnpaired waits for
      one, else the caller in the critical section, else whoever it is. */
  function Runner(s: State, a: Agent): Agent {
    if PipePc(s).UnpairJoin? && HasCapture(s.data) && Alive(Cur(s.data)) then Capture(s.data.capture.value)
    else if s.pipe.Some? then Caller(s.pipe.value)
    else a
  }

  lemma RunnerEnabled(s: State, a: Agent)
    requires Inv(s) && Unfinished(s, a)
    ensures Unfinished(s, Runner(s, a)) && Enabled(s, Runner(s, a))
  {
  }

  /** No deadlock: onUnpaired waits for the capture thread while holding m_pipeMutex, and still, in every
      reachable state in which some call or capture thread is unfinished, an unfinished one can go on. */
  lemma NoDeadlock(callers: nat, schedule: seq<(Agent, Choice)>, a: Agent)
    requires Unfinished(Run(Init(callers), schedule), a)
    ensures var s := Run(Init(callers), schedule);
            exists b :: Unfinished(s, b) && Enabled(s, b)
  {
    hide Run, Inv;
    InitInv(callers);
    AlwaysInv(Init(callers), schedule);
    RunnerEnabled(Run(Init(callers), schedule), a);
  }

  /** How far a capture thread that was told to stop is from its end: first the phase, then the NALs. */
  function Phase(pc: CapturePc): nat {
    match pc
    case NotStarted | Exited => 0
    case Head => 1
    case CallIdle | Release => 2
    case Encode(_) | SendWait(_) | Sending(_) | SendDone(_) => 3
    case UseEncoder => 4
    case Deliver => 5
    case CallResume(_) => 6
    case Acquire => 7
  }

  function Pending(pc: CapturePc): nat {
    match pc
    case Encode(n) => 4 * n
    case SendWait(n) => if n == 0 then 3 else 4 * n - 1
    case Sending(n) => if n == 0 then 2 else 4 * n - 2
    case SendDone(n) => if n == 0 then 1 else 4 * n - 3
    case _ => 0
  }

  predicate Nearer(before: CapturePc, after: CapturePc) {
    || Phase(after) < Phase(before)
    || (Phase(after) == Phase(before) && Pending(after) < Pending(before))
  }

  lemma StopNearer(v: Session, idle: bool, encoder: bool, ch: Choice)
    requires Alive(v) && !v.running
    ensures Nearer(v.pc, NextSession(v, idle, encoder, ch).pc)
  {
  }

  /** The join ends: while onUnpaired waits, the capture thread can always go on, each of its steps brings
      it nearer to its end in a well-founded order, and nobody else's step touches it. */
  lemma JoinAdvances(callers: nat, schedule: seq<(Agent, Choice)>, c: nat, a: Agent, ch: Choice)
    requires c < |Run(Init(callers), schedule).callers| && Run(Init(callers), schedule).callers[c].UnpairJoin?
    requires HasCapture(Run(Init(callers), schedule).data) && Alive(Cur(Run(Init(callers), schedule).data))
    ensures var s := Run(Init(callers), schedule);
            var k := s.data.capture.value;
            var d' := Step(s, a, ch).data;
            && Enabled(s, Capture(k))
            && k < |d'.sessions|
            && if a == Capture(k) then Nearer(s.data.sessions[k].pc, d'.sessions[k].pc)
               else d'.sessions[k] == s.data.sessions[k]
  {
    hide Run, NextSession, Nearer;
    InitInv(callers);
    AlwaysInv(Init(callers), schedule);
    var s := Run(Init(callers), schedule);
    PointOf(s, c);
    RunnerEnabled(s, Caller(c));
    StopNearer(Cur(s.data), s.data.idle, s.data.encoder, ch);
    if a.Caller? && Enabled(s, a) {
      CallerPipe(s, a.c, ch);
    }
  }
}
