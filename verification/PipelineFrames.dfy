/** What becomes of one frame: from the moment a capture thread hands it to onCaptureFrame to the release of
    the frame, however the other threads interleave. */
module PipelineFrames {
  import opened Wrappers
  import opened Pipeline

  /** What the surroundings decide about the frame: whether its size is even, whether an encoder could be
      created, and for each NAL that comes out, whether sendFrame passes its first check. */
  datatype Fate = Fate(evenSize: bool, ok: bool, passes: seq<bool>)

  /** The choice of a step of session k at pc agrees with the fate. */
  predicate Decides(x: (Agent, Choice), k: nat, pc: CapturePc, fate: Fate) {
    x.0 == Capture(k) ==>
      && x.1.evenSize == fate.evenSize && x.1.ok == fate.ok && x.1.nals == |fate.passes|
      && (pc.Encode? && 0 < pc.nals <= |fate.passes| ==> x.1.passes == fate.passes[|fate.passes| - pc.nals])
  }

  function PcOf(s: State, k: nat): CapturePc {
    if k < |s.data.sessions| then s.data.sessions[k].pc else NotStarted
  }

  predicate AllDecide(s0: State, schedule: seq<(Agent, Choice)>, k: nat, fate: Fate) {
    forall m :: 0 <= m < |schedule| ==> Decides(schedule[m], k, PcOf(Run(s0, schedule[..m]), k), fate)
  }

  function Passed(passes: seq<bool>): nat {
    if passes == [] then 0 else Passed(passes[..|passes| - 1]) + if passes[|passes| - 1] then 1 else 0
  }

  /** How many of the NALs before the last n are to be sent. */
  function SentBefore(fate: Fate, n: nat): nat {
    if n <= |fate.passes| then Passed(fate.passes[..|fate.passes| - n]) else 0
  }

  lemma OneNal(fate: Fate, n: nat)
    requires 0 < n <= |fate.passes|
    ensures SentBefore(fate, n - 1) == SentBefore(fate, n) + if fate.passes[|fate.passes| - n] then 1 else 0
  {
    var m := |fate.passes| - n;
    assert fate.passes[..m + 1][..m] == fate.passes[..m];
  }

  lemma AllNals(fate: Fate)
    ensures SentBefore(fate, |fate.passes|) == 0 && SentBefore(fate, 0) == Passed(fate.passes)
  {
    assert fate.passes[..|fate.passes|] == fate.passes;
  }

  /** Where the thread may be in onCaptureFrame, and how many NALs it has sent by then; encoder tells whether
      there was one before. */
  predicate Progress(pc: CapturePc, encoder: bool, fate: Fate, sent: nat) {
    match pc
    case Deliver => sent == 0
    case UseEncoder => fate.evenSize && sent == 0
    case Encode(n) => Encodes(encoder, fate) && n <= |fate.passes| && sent == SentBefore(fate, n)
    case SendWait(n) => AtNal(encoder, fate, n) && sent == SentBefore(fate, n)
    case Sending(n) => AtNal(encoder, fate, n) && sent == SentBefore(fate, n)
    case SendDone(n) => AtNal(encoder, fate, n) && sent == SentBefore(fate, n) + 1
    case Release => sent == if Encodes(encoder, fate) then Passed(fate.passes) else 0
    case _ => false
  }

  predicate AtNal(encoder: bool, fate: Fate, n: nat) {
    Encodes(encoder, fate) && 0 < n <= |fate.passes| && fate.passes[|fate.passes| - n]
  }

  predicate Encodes(encoder: bool, fate: Fate) {
    fate.evenSize && (encoder || fate.ok)
  }

  /** Since d0, session k has sent this many frames, all to the client set then, and nobody else any; an
      encoder is made only by k itself. */
  predicate Tally(d0: Shared, d: Shared, k: nat, sent: nat) {
    && k < |d.sessions|
    && d.client == d0.client
    && d.sent == d0.sent + seq(sent, _ => Sent(k, d0.client))
    && (d.sessions[k].pc.Deliver? || d.sessions[k].pc.UseEncoder? ==> d.encoder == d0.encoder)
  }

  lemma OwnStep(v: Session, idle: bool, encoder: bool, ch: Choice, k: nat, before: bool, fate: Fate, sent: nat)
    requires Progress(v.pc, before, fate, sent) && !v.pc.Release? && (v.pc.Deliver? ==> !idle)
    requires v.pc.UseEncoder? ==> encoder == before
    requires Decides((Capture(k), ch), k, v.pc, fate)
    ensures Progress(NextSession(v, idle, encoder, ch).pc, before, fate, if v.pc.Sending? then sent + 1 else sent)
    ensures NextSession(v, idle, encoder, ch).pc.UseEncoder? ==> v.pc.Deliver?
    ensures !NextSession(v, idle, encoder, ch).pc.Deliver?
  {
    hide SentBefore, Passed;
    AllNals(fate);
    if v.pc.Encode? && v.pc.nals > 0 {
      OneNal(fate, v.pc.nals);
    } else if v.pc.SendDone? {
      OneNal(fate, v.pc.nals);
    }
  }

  lemma TallyOwn(d0: Shared, d: Shared, k: nat, ch: Choice, sent: nat)
    requires Tally(d0, d, k, sent)
    requires var pc := NextSession(d.sessions[k], d.idle, d.encoder, ch).pc;
             !pc.Deliver? && (pc.UseEncoder? ==> d.sessions[k].pc.Deliver?)
    ensures Tally(d0, CaptureStep(d, k, ch), k, if d.sessions[k].pc.Sending? then sent + 1 else sent)
  {
    hide NextSession;
    assert d.sent + [Sent(k, d.client)] == d0.sent + seq(sent + 1, _ => Sent(k, d0.client));
  }

  /** While a frame is under way no caller touches its capture's progress, the endpoint or what was sent. */
  lemma OtherCaller(s: State, c: nat, ch: Choice, k: nat)
    requires Inv(s) && Enabled(s, Caller(c)) && k < |s.data.sessions| && Alive(s.data.sessions[k])
    ensures var d' := CallerStep(s, c, ch).data;
            && k < |d'.sessions|
            && d'.sessions[k].pc == s.data.sessions[k].pc
            && d'.client == s.data.client && d'.sent == s.data.sent && d'.encoder == s.data.encoder
  {
    CallerPipe(s, c, ch);
    var p := s.callers[c];
    assert s.data.capture == Some(k);
    hide NextPc, PipeAfter, PipeInv, PipePc;
    EffectSpares(p, s.data, ch, k);
  }

  lemma EffectSpares(p: CallerPc, d: Shared, ch: Choice, k: nat)
    requires k < |d.sessions| && d.capture == Some(k) && Alive(d.sessions[k])
    requires InPipe(p) ==> DataInv(p, d)
    ensures var d' := Effect(p, d, ch);
            && k < |d'.sessions|
            && d'.sessions[k].pc == d.sessions[k].pc
            && d'.client == d.client && d'.sent == d.sent && d'.encoder == d.encoder
  {
  }

  /** No other session can move while one is alive. */
  lemma OnlyAlive(s: State, j: nat, k: nat)
    requires Inv(s) && Enabled(s, Capture(j)) && k < |s.data.sessions| && Alive(s.data.sessions[k])
    ensures j == k
  {
    assert s.data.capture == Some(k);
  }

  lemma DeliverBusy(s: State, k: nat)
    requires Inv(s) && k < |s.data.sessions|
    ensures s.data.sessions[k].pc.Deliver? ==> !s.data.idle
  {
  }

  lemma TallySame(d0: Shared, d: Shared, d': Shared, k: nat, sent: nat)
    requires Tally(d0, d, k, sent) && k < |d'.sessions| && d'.sessions[k].pc == d.sessions[k].pc
    requires d'.client == d.client && d'.sent == d.sent && d'.encoder == d.encoder
    ensures Tally(d0, d', k, sent)
  {
  }

  predicate Going(d0: Shared, d: Shared, k: nat, fate: Fate, sent: nat) {
    Tally(d0, d, k, sent) && Progress(d.sessions[k].pc, d0.encoder, fate, sent)
  }

  lemma GoingOwn(d0: Shared, d: Shared, ch: Choice, k: nat, fate: Fate, sent: nat)
    requires Going(d0, d, k, fate, sent) && !d.sessions[k].pc.Release?
    requires d.sessions[k].pc.Deliver? ==> !d.idle
    requires k < |d.sessions| && Decides((Capture(k), ch), k, d.sessions[k].pc, fate)
    ensures Going(d0, CaptureStep(d, k, ch), k, fate, if d.sessions[k].pc.Sending? then sent + 1 else sent)
  {
    OwnStep(d.sessions[k], d.idle, d.encoder, ch, k, d0.encoder, fate, sent);
    TallyOwn(d0, d, k, ch, sent);
    hide Progress, Tally, NextSession;
  }

  lemma GoingAlive(d0: Shared, d: Shared, k: nat, fate: Fate, sent: nat)
    requires Going(d0, d, k, fate, sent)
    ensures k < |d.sessions| && Alive(d.sessions[k])
  {
  }

  lemma GoingOther(d0: Shared, s: State, c: nat, ch: Choice, k: nat, fate: Fate, sent: nat)
    requires Inv(s) && Going(d0, s.data, k, fate, sent) && Enabled(s, Caller(c))
    ensures Going(d0, CallerStep(s, c, ch).data, k, fate, sent)
  {
    hide Inv, Progress, CallerStep;
    GoingAlive(d0, s.data, k, fate, sent);
    OtherCaller(s, c, ch, k);
    TallySame(d0, s.data, CallerStep(s, c, ch).data, k, sent);
  }

  lemma FrameStep(d0: Shared, s: State, a: Agent, ch: Choice, k: nat, fate: Fate, sent: nat) returns (sent': nat)
    requires Inv(s) && Going(d0, s.data, k, fate, sent) && Busy(s, k)
    requires Decides((a, ch), k, PcOf(s, k), fate)
    ensures Going(d0, Step(s, a, ch).data, k, fate, sent')
  {
    sent' := sent;
    GoingAlive(d0, s.data, k, fate, sent);
    hide Inv, Going, CallerStep, CaptureStep;
    if Enabled(s, a) {
      match a
      case Caller(c) => GoingOther(d0, s, c, ch, k, fate, sent);
      case Capture(j) =>
        OnlyAlive(s, j, k);
        DeliverBusy(s, k);
        GoingOwn(d0, s.data, ch, k, fate, sent);
        sent' := if s.data.sessions[k].pc.Sending? then sent + 1 else sent;
    }
  }

  /** Session k has not yet come to the release of its frame. */
  predicate Busy(s: State, k: nat) {
    k < |s.data.sessions| && !s.data.sessions[k].pc.Release?
  }

  lemma {:induction false} FrameRun(s0: State, schedule: seq<(Agent, Choice)>, k: nat, fate: Fate) returns (sent: nat)
    requires Inv(s0) && k < |s0.data.sessions| && s0.data.sessions[k].pc.Deliver?
    requires AllDecide(s0, schedule, k, fate)
    requires forall m :: 0 <= m < |schedule| ==> Busy(Run(s0, schedule[..m]), k)
    ensures Going(s0.data, Run(s0, schedule).data, k, fate, sent)
  {
    hide Inv, Going, Step, Decides;
    if schedule == [] {
      sent := 0;
      GoingStarts(s0.data, k, fate);
    } else {
      var n := |schedule| - 1;
      var before := schedule[..n];
      assert forall m | 0 <= m < n :: before[..m] == schedule[..m];
      sent := FrameRun(s0, before, k, fate);
      AlwaysInv(s0, before);
      assert Busy(Run(s0, before), k);
      assert Decides(schedule[n], k, PcOf(Run(s0, before), k), fate);
      sent := FrameStep(s0.data, Run(s0, before), schedule[n].0, schedule[n].1, k, fate, sent);
    }
  }

  lemma GoingStarts(d: Shared, k: nat, fate: Fate)
    requires k < |d.sessions| && d.sessions[k].pc.Deliver?
    ensures Going(d, d, k, fate, 0)
  {
  }

  /** In every interleaving: when capture k hands a frame to onCaptureFrame and comes to release it, what has
      been sent meanwhile is one frame for each of its NALs that passes sendFrame's first check, by k and to
      the client set as endpoint, if the size is even and there was or could be made an encoder; and
      otherwise nothing at all. */
  lemma FrameIsSent(callers: nat, before: seq<(Agent, Choice)>, during: seq<(Agent, Choice)>, k: nat, fate: Fate)
    requires var d0 := Run(Init(callers), before).data; k < |d0.sessions| && d0.sessions[k].pc.Deliver?
    requires AllDecide(Run(Init(callers), before), during, k, fate)
    requires forall m :: 0 <= m < |during| ==> Busy(Run(Run(Init(callers), before), during[..m]), k)
    requires var d := Run(Run(Init(callers), before), during).data; k < |d.sessions| && d.sessions[k].pc.Release?
    ensures var d0 := Run(Init(callers), before).data;
            var n := if fate.evenSize && (d0.encoder || fate.ok) then Passed(fate.passes) else 0;
            Run(Run(Init(callers), before), during).data.sent == d0.sent + seq(n, _ => Sent(k, d0.client))
  {
    hide Run, Inv;
    InitInv(callers);
    AlwaysInv(Init(callers), before);
    var sent := FrameRun(Run(Init(callers), before), during, k, fate);
  }
}
