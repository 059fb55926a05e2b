/** DXGICapture::loop of src/display/dxgi_capture.cpp with its clock: when it calls onIdle, onResume and
    onFrame, and how acquires and releases pair up.  What AcquireNextFrame and the Direct3D calls of one
    turn of the loop return is given by a Round; the list of rounds ends when m_running is found clear. */
module Capture {
  import opened Bytes

  datatype Round =
    | Timeout(now: uint64)
    | Failed
    | Frame(accumulated: uint32, metadata: uint32, now: uint64,
            texture: bool, created: bool, mapped: bool, timestampUs: uint64)

  datatype Event = Acquired | Released | IdleCall | ResumeCall | FrameCall(timestampUs: uint64)

  predicate Changed(r: Round) {
    r.Frame? && (r.accumulated > 0 || r.metadata > 0)
  }

  class DXGICapture {
    /** Whether m_staging has been created. */
    var staging: bool
    var log: seq<Event>

    constructor ()
      ensures !staging && log == []
    {
      staging := false;
      log := [];
    }

    /** start is what nowUs returned before the loop; a staging texture may be left from an earlier run. */
    method Loop(start: uint64, idleAfterMs: uint32, rounds: seq<Round>)
      modifies this
      ensures log == old(log) + After(start, old(staging), idleAfterMs, rounds).log
      ensures staging == After(start, old(staging), idleAfterMs, rounds).staging
    {
      hide Turn;
      ghost var was, staged := log, staging;
      ghost var run: seq<Event> := [];
      var idle := false;
      var lastFrameUs := start;
      for i := 0 to |rounds|
        invariant log == was + run
        invariant After(start, staged, idleAfterMs, rounds[..i]) == LoopState(idle, lastFrameUs, staging, false, run)
      {
        assert rounds[..i + 1][..i] == rounds[..i];
        var stop;
        ghost var es;
        idle, lastFrameUs, stop, es := OneTurn(idle, lastFrameUs, idleAfterMs, rounds[i], run);
        run := run + es;
        if stop {
          OverStays(start, staged, idleAfterMs, rounds, i + 1);
          return;
        }
      }
      assert rounds[..|rounds|] == rounds;
    }

    /** run is what this run of the loop has logged so far, and es what the turn adds. */
    method OneTurn(idle: bool, lastFrameUs: uint64, idleAfterMs: uint32, r: Round, ghost run: seq<Event>)
      returns (idle': bool, lastFrameUs': uint64, stop: bool, ghost es: seq<Event>)
      modifies this
      ensures log == old(log) + es
      ensures Turn(LoopState(idle, lastFrameUs, old(staging), false, run), idleAfterMs, r)
           == LoopState(idle', lastFrameUs', staging, stop, run + es)
    {
      es := [];
      idle', lastFrameUs', stop := idle, lastFrameUs, false;
      match r {
        case Timeout(now) =>
          if idleAfterMs != 0 && !idle && (now - lastFrameUs) % TWO_64 >= idleAfterMs * 1000 {
            idle' := true;
            log := log + [IdleCall];
            es := [IdleCall];
          }
        case Failed =>
          stop := true;
        case Frame(_, _, now, texture, created, mapped, timestampUs) =>
          ghost var was := log;
          log := log + [Acquired];
          if r.accumulated > 0 || r.metadata > 0 {
            if idle' {
              idle' := false;
              log := log + [ResumeCall];
            }
            lastFrameUs' := now;
            if texture {
              if !staging {
                staging := created;
              }
              if staging && mapped {
                log := log + [FrameCall(timestampUs)];
              }
            }
          }
          log := log + [Released];
          es := FrameEvents(idle, old(staging), r);
          assert log == was + es;
      }
    }
  }

  // ---------- the loop as a function of its rounds ----------

  datatype LoopState = LoopState(idle: bool, lastFrameUs: uint64, staging: bool, over: bool, log: seq<Event>)

  predicate IdleDue(idle: bool, lastFrameUs: uint64, idleAfterMs: uint32, now: uint64) {
    idleAfterMs != 0 && !idle && (now - lastFrameUs) % TWO_64 >= idleAfterMs * 1000
  }

  predicate Delivers(staging: bool, r: Round) {
    Changed(r) && r.texture && (staging || r.created) && r.mapped
  }

  function FrameEvents(idle: bool, staging: bool, r: Round): seq<Event>
    requires r.Frame?
  {
    [Acquired]
    + (if Changed(r) && idle then [ResumeCall] else [])
    + (if Delivers(staging, r) then [FrameCall(r.timestampUs)] else [])
    + [Released]
  }

  function Turn(l: LoopState, idleAfterMs: uint32, r: Round): LoopState {
    if l.over then l
    else
      match r
      case Timeout(now) =>
        if IdleDue(l.idle, l.lastFrameUs, idleAfterMs, now) then l.(idle := true, log := l.log + [IdleCall]) else l
      case Failed => l.(over := true)
      case Frame(_, _, now, _, _, _, _) =>
        LoopState(
          l.idle && !Changed(r), if Changed(r) then now else l.lastFrameUs,
          l.staging || (Changed(r) && r.texture && r.created), false, l.log + FrameEvents(l.idle, l.staging, r))
  }

  /** A run of the loop on an object that has, or has not yet, a staging texture. */
  function After(start: uint64, staged: bool, idleAfterMs: uint32, rounds: seq<Round>): LoopState {
    if rounds == [] then LoopState(false, start, staged, false, [])
    else Turn(After(start, staged, idleAfterMs, rounds[..|rounds| - 1]), idleAfterMs, rounds[|rounds| - 1])
  }

  lemma {:induction false} OverStays(start: uint64, staged: bool, idleAfterMs: uint32, rounds: seq<Round>, n: nat)
    requires n <= |rounds| && After(start, staged, idleAfterMs, rounds[..n]).over
    ensures After(start, staged, idleAfterMs, rounds) == After(start, staged, idleAfterMs, rounds[..n])
    decreases |rounds| - n
  {
    if n == |rounds| {
      assert rounds[..n] == rounds;
    } else {
      assert rounds[..n + 1][..n] == rounds[..n];
      OverStays(start, staged, idleAfterMs, rounds, n + 1);
    }
  }

  // ---------- properties of every run ----------

  /** Was the latest of the onIdle and onResume calls an onIdle call? */
  predicate SaidIdle(log: seq<Event>) {
    log != [] &&
    var e := log[|log| - 1];
    e.IdleCall? || (!e.ResumeCall? && SaidIdle(log[..|log| - 1]))
  }

  /** What may come next: onIdle and onResume take turns, beginning with onIdle; no frame is delivered
      while idle; and what is acquired is released before anything else is acquired or reported idle. */
  predicate Allowed(log: seq<Event>, e: Event) {
    match e
    case IdleCall => !SaidIdle(log) && !Holds(log)
    case ResumeCall => SaidIdle(log) && Holds(log)
    case FrameCall(_) => !SaidIdle(log) && Holds(log)
    case Acquired => !Holds(log)
    case Released => Holds(log)
  }

  predicate WellFormed(log: seq<Event>) {
    log == [] || (WellFormed(log[..|log| - 1]) && Allowed(log[..|log| - 1], log[|log| - 1]))
  }

  /** Is a frame acquired and not yet released? */
  predicate Holds(log: seq<Event>) {
    log != [] &&
    var e := log[|log| - 1];
    e.Acquired? || (!e.Released? && Holds(log[..|log| - 1]))
  }

  lemma AppendOne(log: seq<Event>, e: Event)
    ensures var log' := log + [e];
            && (SaidIdle(log') <==> e.IdleCall? || (!e.ResumeCall? && SaidIdle(log)))
            && (Holds(log') <==> e.Acquired? || (!e.Released? && Holds(log)))
            && (WellFormed(log') <==> WellFormed(log) && Allowed(log, e))
  {
    assert (log + [e])[..|log|] == log;
  }

  lemma FrameWellFormed(log: seq<Event>, idle: bool, staging: bool, r: Round)
    requires r.Frame? && WellFormed(log) && !Holds(log) && SaidIdle(log) == idle
    ensures var log' := log + FrameEvents(idle, staging, r);
            WellFormed(log') && !Holds(log') && SaidIdle(log') == (idle && !Changed(r))
  {
    hide WellFormed, Holds, SaidIdle;
    var l1 := log + [Acquired];
    AppendOne(log, Acquired);
    var l2 := if Changed(r) && idle then l1 + [ResumeCall] else l1;
    AppendOne(l1, ResumeCall);
    var l3 := if Delivers(staging, r) then l2 + [FrameCall(r.timestampUs)] else l2;
    AppendOne(l2, FrameCall(r.timestampUs));
    AppendOne(l3, Released);
    assert log + FrameEvents(idle, staging, r) == l3 + [Released];
  }

  predicate AtHead(l: LoopState) {
    WellFormed(l.log) && !Holds(l.log) && SaidIdle(l.log) == l.idle
  }

  lemma TurnKeeps(l: LoopState, idleAfterMs: uint32, r: Round)
    requires AtHead(l)
    ensures AtHead(Turn(l, idleAfterMs, r))
  {
    hide WellFormed, Holds, SaidIdle, FrameEvents;
    match r
    case Timeout(_) => AppendOne(l.log, IdleCall);
    case Failed =>
    case Frame(_, _, _, _, _, _, _) => FrameWellFormed(l.log, l.idle, l.staging, r);
  }

  /** In every run, at every loop head: the log is well formed, no frame is held, and the loop's idle flag
      is what the callbacks last said. */
  lemma {:induction false} LogWellFormed(start: uint64, staged: bool, idleAfterMs: uint32, rounds: seq<Round>)
    ensures var l := After(start, staged, idleAfterMs, rounds);
            WellFormed(l.log) && !Holds(l.log) && SaidIdle(l.log) == l.idle
  {
    assert AtHead(LoopState(false, start, staged, false, []));
    if rounds != [] {
      hide Turn;
      var n := |rounds| - 1;
      LogWellFormed(start, staged, idleAfterMs, rounds[..n]);
      TurnKeeps(After(start, staged, idleAfterMs, rounds[..n]), idleAfterMs, rounds[n]);
    }
  }

  function Count(log: seq<Event>, e: Event): nat {
    if log == [] then 0 else Count(log[..|log| - 1], e) + if log[|log| - 1] == e then 1 else 0
  }

  lemma {:induction false} Balanced(log: seq<Event>)
    requires WellFormed(log)
    ensures Count(log, Acquired) == Count(log, Released) + if Holds(log) then 1 else 0
  {
    if log != [] {
      Balanced(log[..|log| - 1]);
    }
  }

  /** Every successful AcquireNextFrame is paired with one ReleaseFrame by the time the loop comes round. */
  lemma AcquireRelease(start: uint64, staged: bool, idleAfterMs: uint32, rounds: seq<Round>)
    ensures var log := After(start, staged, idleAfterMs, rounds).log; Count(log, Acquired) == Count(log, Released)
  {
    LogWellFormed(start, staged, idleAfterMs, rounds);
    Balanced(After(start, staged, idleAfterMs, rounds).log);
  }

  /** When the desktop last changed: the latest frame that accumulated updates or carries metadata, or the
      start of the loop. */
  function LastChange(start: uint64, rounds: seq<Round>): uint64 {
    if rounds == [] then start
    else
      var r := rounds[|rounds| - 1];
      if r.Frame? && (r.accumulated != 0 || r.metadata != 0) then r.now else LastChange(start, rounds[..|rounds| - 1])
  }

  predicate NoFailure(rounds: seq<Round>) {
    forall r :: r in rounds ==> !r.Failed?
  }

  lemma {:induction false} TracksChange(start: uint64, staged: bool, idleAfterMs: uint32, rounds: seq<Round>)
    ensures var l := After(start, staged, idleAfterMs, rounds);
            && (l.over <==> !NoFailure(rounds))
            && (NoFailure(rounds) ==> l.lastFrameUs == LastChange(start, rounds))
  {
    if rounds != [] {
      var before, r := rounds[..|rounds| - 1], rounds[|rounds| - 1];
      assert forall q :: q in rounds <==> q in before || q == r;
      TracksChange(start, staged, idleAfterMs, before);
    }
  }

  /** onIdle is called in a turn if and only if that turn timed out, idle-stop is enabled, no acquire has
      failed, the callbacks last said busy, and the desktop has not changed for at least idleAfterMs. */
  lemma IdleExactlyWhenDue(start: uint64, staged: bool, idleAfterMs: uint32, rounds: seq<Round>, r: Round)
    ensures var before := After(start, staged, idleAfterMs, rounds).log;
            After(start, staged, idleAfterMs, rounds + [r]).log == before + [IdleCall] <==>
            && r.Timeout?
            && idleAfterMs != 0
            && NoFailure(rounds)
            && !SaidIdle(before)
            && (r.now - LastChange(start, rounds)) % TWO_64 >= idleAfterMs * 1000
  {
    assert (rounds + [r])[..|rounds|] == rounds;
    TracksChange(start, staged, idleAfterMs, rounds);
    LogWellFormed(start, staged, idleAfterMs, rounds);
    var l := After(start, staged, idleAfterMs, rounds);
    if r.Frame? {
      var es := FrameEvents(l.idle, l.staging, r);
      assert es[0] == Acquired;
      assert (l.log + es)[|l.log|] == Acquired;
    }
  }

  /** Has some turn found a changed texture and got a staging texture for it? */
  predicate Staged(rounds: seq<Round>) {
    exists r :: r in rounds && r.Frame? && (r.accumulated != 0 || r.metadata != 0) && r.texture && r.created
  }

  lemma {:induction false} StagingHistory(start: uint64, staged: bool, idleAfterMs: uint32, rounds: seq<Round>)
    requires NoFailure(rounds)
    ensures After(start, staged, idleAfterMs, rounds).staging <==> staged || Staged(rounds)
  {
    if rounds != [] {
      var before, r := rounds[..|rounds| - 1], rounds[|rounds| - 1];
      assert forall q :: q in rounds <==> q in before || q == r;
      TracksChange(start, staged, idleAfterMs, before);
      StagingHistory(start, staged, idleAfterMs, before);
    }
  }

  /** What a frame does: it is acquired and released; in between, if the desktop changed, onResume is called
      exactly if the callbacks last said idle, and then the frame is delivered exactly if it is a texture, a
      staging texture was made now, earlier or by an earlier run, and it can be mapped. */
  lemma FrameTurn(start: uint64, staged: bool, idleAfterMs: uint32, rounds: seq<Round>, r: Round)
    requires NoFailure(rounds) && r.Frame?
    ensures var before := After(start, staged, idleAfterMs, rounds).log;
            var changed := r.accumulated != 0 || r.metadata != 0;
            After(start, staged, idleAfterMs, rounds + [r]).log
            == before + [Acquired]
               + (if changed && SaidIdle(before) then [ResumeCall] else [])
               + (if changed && r.texture && (staged || Staged(rounds) || r.created) && r.mapped
                  then [FrameCall(r.timestampUs)] else [])
               + [Released]
  {
    hide SaidIdle, WellFormed, Holds, Staged;
    assert (rounds + [r])[..|rounds|] == rounds;
    TracksChange(start, staged, idleAfterMs, rounds);
    LogWellFormed(start, staged, idleAfterMs, rounds);
    StagingHistory(start, staged, idleAfterMs, rounds);
  }
}
