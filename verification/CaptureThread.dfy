/** The loop of Capture is what the capture threads of Pipeline run: a turn of the loop is a walk of such a
    thread with the same callbacks, acquires and releases, whatever the thread finds in the shared data and
    however onCaptureFrame goes about a frame. */
module CaptureThread {
  import opened Bytes
  import C = Capture
  import P = Pipeline

  /** What a step finds in the shared data, and what the surroundings decide. */
  datatype Input = Input(idle: bool, encoder: bool, ch: P.Choice)

  function Next(v: P.Session, x: Input): P.Session {
    P.NextSession(v, x.idle, x.encoder, x.ch)
  }

  function Walk(v: P.Session, xs: seq<Input>): P.Session {
    if xs == [] then v else Next(Walk(v, xs[..|xs| - 1]), xs[|xs| - 1])
  }

  /** What a step shows outside the thread; the time stamp of a frame is left out. */
  function Signal(v: P.Session, x: Input): seq<C.Event> {
    match v.pc
    case Acquire => if x.ch.acquired.Changed? || x.ch.acquired.Unchanged? then [C.Acquired] else []
    case CallIdle => [C.IdleCall]
    case CallResume(_) => [C.ResumeCall]
    case Deliver => [C.FrameCall(0)]
    case Release => [C.Released]
    case _ => []
  }

  function Signals(v: P.Session, xs: seq<Input>): seq<C.Event> {
    if xs == [] then [] else Signals(v, xs[..|xs| - 1]) + Signal(Walk(v, xs[..|xs| - 1]), xs[|xs| - 1])
  }

  function Untimed(e: C.Event): C.Event {
    if e.FrameCall? then C.FrameCall(0) else e
  }

  function AllUntimed(log: seq<C.Event>): seq<C.Event> {
    seq(|log|, i requires 0 <= i < |log| => Untimed(log[i]))
  }

  lemma UntimedAdd(a: seq<C.Event>, b: seq<C.Event>)
    ensures AllUntimed(a + b) == AllUntimed(a) + AllUntimed(b)
  {
  }

  lemma Nothing(v: P.Session)
    ensures Walk(v, []) == v && Signals(v, []) == []
  {
  }

  lemma OneStep(v: P.Session, x: Input)
    ensures Walk(v, [x]) == Next(v, x) && Signals(v, [x]) == Signal(v, x)
  {
    assert [x][..0] == [];
    Nothing(v);
  }

  lemma LastStep(v: P.Session, xs: seq<Input>, x: Input)
    ensures Walk(v, xs + [x]) == Next(Walk(v, xs), x)
    ensures Signals(v, xs + [x]) == Signals(v, xs) + Signal(Walk(v, xs), x)
  {
    hide Next, Signal;
    assert (xs + [x])[..|xs|] == xs;
  }

  lemma {:induction false} WalkAdd(v: P.Session, xs: seq<Input>, ys: seq<Input>)
    ensures Walk(v, xs + ys) == Walk(Walk(v, xs), ys)
    ensures Signals(v, xs + ys) == Signals(v, xs) + Signals(Walk(v, xs), ys)
  {
    hide Next, Signal, Walk, Signals;
    Nothing(Walk(v, xs));
    if ys == [] {
      assert xs + ys == xs;
    } else {
      var front, y := ys[..|ys| - 1], ys[|ys| - 1];
      WalkAdd(v, xs, front);
      LastStep(v, xs + front, y);
      LastStep(Walk(v, xs), front, y);
      assert xs + ys == (xs + front) + [y] && ys == front + [y];
    }
  }

  // ---------- one turn ----------

  /** The steps of onCaptureFrame from its call to its return, on any thread. */
  ghost predicate Callback(xs: seq<Input>) {
    forall v: P.Session :: v.pc.Deliver? ==>
      Walk(v, xs) == v.(pc := P.Release) && Signals(v, xs) == [C.FrameCall(0)]
  }

  /** The steps that hand k NALs to sendFrame. */
  function NalSteps(x: Input, k: nat): seq<Input> {
    if k == 0 then [x] else [x] + [x] + [x] + [x] + NalSteps(x, k - 1)
  }

  lemma {:induction false} NalsSent(v: P.Session, x: Input, k: nat)
    requires v.pc == P.Encode(k) && x.ch.passes
    ensures Walk(v, NalSteps(x, k)) == v.(pc := P.Release) && Signals(v, NalSteps(x, k)) == []
    decreases k
  {
    hide Walk, Signals;
    OneStep(v, x);
    if k > 0 {
      var v1, v2, v3 := v.(pc := P.SendWait(k)), v.(pc := P.Sending(k)), v.(pc := P.SendDone(k));
      OneStep(v1, x);
      OneStep(v2, x);
      OneStep(v3, x);
      WalkAdd(v, [x], [x]);
      WalkAdd(v, [x] + [x], [x]);
      WalkAdd(v, [x] + [x] + [x], [x]);
      WalkAdd(v, [x] + [x] + [x] + [x], NalSteps(x, k - 1));
      NalsSent(v.(pc := P.Encode(k - 1)), x, k - 1);
    }
  }

  function FrameSteps(x: Input): seq<Input> {
    [x] + [x] + NalSteps(x, x.ch.nals)
  }

  lemma FrameSent(v: P.Session, x: Input)
    requires v.pc.Deliver? && !x.idle && x.ch.evenSize && (x.encoder || x.ch.ok) && x.ch.passes
    ensures Walk(v, FrameSteps(x)) == v.(pc := P.Release) && Signals(v, FrameSteps(x)) == [C.FrameCall(0)]
  {
    hide Walk, Signals, NalSteps;
    OneStep(v, x);
    OneStep(v.(pc := P.UseEncoder), x);
    WalkAdd(v, [x], [x]);
    WalkAdd(v, [x] + [x], NalSteps(x, x.ch.nals));
    NalsSent(v.(pc := P.Encode(x.ch.nals)), x, x.ch.nals);
  }

  /** Such callbacks exist: a frame of even size that is encoded into any number of NALs. */
  lemma SendingCallback(x: Input)
    requires !x.idle && x.ch.evenSize && (x.encoder || x.ch.ok) && x.ch.passes
    ensures Callback(FrameSteps(x))
  {
    forall v: P.Session | v.pc.Deliver?
      ensures Walk(v, FrameSteps(x)) == v.(pc := P.Release) && Signals(v, FrameSteps(x)) == [C.FrameCall(0)]
    {
      FrameSent(v, x);
    }
  }

  function With(x: Input, acquired: P.Acquired): Input {
    x.(ch := x.ch.(acquired := acquired))
  }

  /** What AcquireNextFrame and the Direct3D calls of the turn mean for the thread. */
  function AcquiredBy(l: C.LoopState, idleAfterMs: uint32, r: C.Round): P.Acquired {
    match r
    case Timeout(now) => P.Timeout(C.IdleDue(l.idle, l.lastFrameUs, idleAfterMs, now))
    case Failed => P.Failed
    case Frame(_, _, _, _, _, _, _) => if C.Changed(r) then P.Changed(C.Delivers(l.staging, r)) else P.Unchanged
  }

  function ResumeSteps(l: C.LoopState, r: C.Round, x: Input): seq<Input> {
    if C.Changed(r) && l.idle then [x] else []
  }

  /** The steps between acquiring and releasing, or reporting idle. */
  function Middle(l: C.LoopState, idleAfterMs: uint32, r: C.Round, x: Input, callback: seq<Input>): seq<Input> {
    match r
    case Timeout(now) => if C.IdleDue(l.idle, l.lastFrameUs, idleAfterMs, now) then [x] else []
    case Failed => []
    case Frame(_, _, _, _, _, _, _) =>
      ResumeSteps(l, r, x) + ((if C.Delivers(l.staging, r) then callback else []) + [x])
  }

  /** A turn's steps; x is what the loop's own steps find. */
  function TurnSteps(l: C.LoopState, idleAfterMs: uint32, r: C.Round, x: Input, callback: seq<Input>): seq<Input> {
    if l.over then [] else [x] + [With(x, AcquiredBy(l, idleAfterMs, r))] + Middle(l, idleAfterMs, r, x, callback)
  }

  /** The thread stands where the loop stands. */
  predicate Matches(v: P.Session, l: C.LoopState) {
    v.running && v.idle == l.idle && v.pc == if l.over then P.Exited else P.Head
  }

  /** After acquiring, up to the point where a frame is delivered or not. */
  lemma FrameResume(v: P.Session, l: C.LoopState, r: C.Round, x: Input)
    requires v.idle == l.idle && v.pc.Acquire? && r.Frame?
    ensures var v1 := Next(v, With(x, AcquiredBy(l, 0, r)));
            && Walk(v1, ResumeSteps(l, r, x))
               == v.(pc := if C.Delivers(l.staging, r) then P.Deliver else P.Release, idle := l.idle && !C.Changed(r))
            && Signals(v1, ResumeSteps(l, r, x)) == if C.Changed(r) && l.idle then [C.ResumeCall] else []
  {
    hide Walk, Signals;
    var v1 := Next(v, With(x, AcquiredBy(l, 0, r)));
    OneStep(v1, x);
    Nothing(v1);
  }

  /** From there to the loop head. */
  lemma FrameDeliver(v: P.Session, deliver: bool, x: Input, callback: seq<Input>)
    requires Callback(callback) && v.pc == if deliver then P.Deliver else P.Release
    ensures var xs := (if deliver then callback else []) + [x];
            && Walk(v, xs) == v.(pc := P.Head)
            && Signals(v, xs) == (if deliver then [C.FrameCall(0)] else []) + [C.Released]
  {
    hide Walk, Signals, Callback;
    CallbackOf(v, callback);
    Nothing(v);
    OneStep(v.(pc := P.Release), x);
    WalkAdd(v, if deliver then callback else [], [x]);
  }

  lemma UntimedFrame(idle: bool, staging: bool, r: C.Round)
    requires r.Frame?
    ensures AllUntimed(C.FrameEvents(idle, staging, r))
         == [C.Acquired]
            + ((if C.Changed(r) && idle then [C.ResumeCall] else [])
               + ((if C.Delivers(staging, r) then [C.FrameCall(0)] else []) + [C.Released]))
  {
    hide C.Changed, C.Delivers;
  }

  lemma FrameMiddle(v: P.Session, l: C.LoopState, r: C.Round, x: Input, callback: seq<Input>)
    requires v.idle == l.idle && v.pc.Acquire? && r.Frame? && Callback(callback)
    ensures var v1 := Next(v, With(x, AcquiredBy(l, 0, r)));
            var m := Middle(l, 0, r, x, callback);
            && Walk(v1, m) == v.(pc := P.Head, idle := l.idle && !C.Changed(r))
            && [C.Acquired] + Signals(v1, m) == AllUntimed(C.FrameEvents(l.idle, l.staging, r))
  {
    hide Walk, Signals, Callback, Next, AllUntimed, C.FrameEvents, C.Changed, C.Delivers, ResumeSteps, AcquiredBy;
    var v1 := Next(v, With(x, AcquiredBy(l, 0, r)));
    var rest := (if C.Delivers(l.staging, r) then callback else []) + [x];
    FrameResume(v, l, r, x);
    FrameDeliver(Walk(v1, ResumeSteps(l, r, x)), C.Delivers(l.staging, r), x, callback);
    WalkAdd(v1, ResumeSteps(l, r, x), rest);
    UntimedFrame(l.idle, l.staging, r);
  }

  lemma CallbackOf(v: P.Session, xs: seq<Input>)
    requires Callback(xs)
    ensures v.pc.Deliver? ==> Walk(v, xs) == v.(pc := P.Release) && Signals(v, xs) == [C.FrameCall(0)]
  {
  }

  lemma OtherMiddle(v: P.Session, l: C.LoopState, idleAfterMs: uint32, r: C.Round, x: Input, callback: seq<Input>)
    requires Matches(v.(pc := P.Head), l) && v.pc.Acquire? && !r.Frame? && !l.over
    ensures var v1 := Next(v, With(x, AcquiredBy(l, idleAfterMs, r)));
            var m := Middle(l, idleAfterMs, r, x, callback);
            && Matches(Walk(v1, m), C.Turn(l, idleAfterMs, r))
            && Walk(v1, m).client == v.client
            && C.Turn(l, idleAfterMs, r).log == l.log + Signals(v1, m)
            && AllUntimed(Signals(v1, m)) == Signals(v1, m)
  {
    hide Walk, Signals;
    var v1 := Next(v, With(x, AcquiredBy(l, idleAfterMs, r)));
    OneStep(v1, x);
    Nothing(v1);
  }

  /** One turn of the loop. */
  lemma TurnIsWalk(v: P.Session, l: C.LoopState, idleAfterMs: uint32, r: C.Round, x: Input, callback: seq<Input>)
    requires Matches(v, l) && Callback(callback)
    ensures var l' := C.Turn(l, idleAfterMs, r);
            var xs := TurnSteps(l, idleAfterMs, r, x, callback);
            && Matches(Walk(v, xs), l')
            && Walk(v, xs).client == v.client
            && AllUntimed(l'.log) == AllUntimed(l.log) + Signals(v, xs)
  {
    hide Walk, Signals, Callback, Middle, AllUntimed;
    if l.over {
      Nothing(v);
    } else {
      var y := With(x, AcquiredBy(l, idleAfterMs, r));
      var m := Middle(l, idleAfterMs, r, x, callback);
      OneStep(v, x);
      var v0 := v.(pc := P.Acquire);
      OneStep(v0, y);
      WalkAdd(v, [x], [y]);
      WalkAdd(v, [x] + [y], m);
      if r.Frame? {
        SameMiddle(l, idleAfterMs, r, x, callback);
        FrameMiddle(v0, l, r, x, callback);
        UntimedAdd(l.log, C.FrameEvents(l.idle, l.staging, r));
      } else {
        OtherMiddle(v0, l, idleAfterMs, r, x, callback);
        UntimedAdd(l.log, Signals(Next(v0, y), m));
      }
    }
  }

  lemma SameMiddle(l: C.LoopState, idleAfterMs: uint32, r: C.Round, x: Input, callback: seq<Input>)
    requires r.Frame?
    ensures Middle(l, idleAfterMs, r, x, callback) == Middle(l, 0, r, x, callback)
    ensures AcquiredBy(l, idleAfterMs, r) == AcquiredBy(l, 0, r)
  {
  }

  // ---------- a whole run ----------

  function RunSteps(start: uint64, staged: bool, idleAfterMs: uint32, rounds: seq<C.Round>,
                    found: nat -> Input, callbacks: nat -> seq<Input>): seq<Input>
  {
    if rounds == [] then []
    else
      var n := |rounds| - 1;
      RunSteps(start, staged, idleAfterMs, rounds[..n], found, callbacks)
      + TurnSteps(C.After(start, staged, idleAfterMs, rounds[..n]), idleAfterMs, rounds[n], found(n), callbacks(n))
  }

  /** A whole run of the loop is a walk of a started capture thread that shows the same events and ends with
      the same idle flag. */
  lemma {:induction false} LoopIsWalk(start: uint64, staged: bool, idleAfterMs: uint32, rounds: seq<C.Round>,
                                      client: string, found: nat -> Input, callbacks: nat -> seq<Input>)
    requires forall n :: Callback(callbacks(n))
    ensures var l := C.After(start, staged, idleAfterMs, rounds);
            var v := P.Session(true, P.Head, false, client);
            var xs := RunSteps(start, staged, idleAfterMs, rounds, found, callbacks);
            && Matches(Walk(v, xs), l)
            && Walk(v, xs).client == client
            && Signals(v, xs) == AllUntimed(l.log)
  {
    var v := P.Session(true, P.Head, false, client);
    if rounds == [] {
      Nothing(v);
    } else {
      hide C.Turn, Walk, Signals, Callback, TurnSteps, AllUntimed;
      var n := |rounds| - 1;
      LoopIsWalk(start, staged, idleAfterMs, rounds[..n], client, found, callbacks);
      var l := C.After(start, staged, idleAfterMs, rounds[..n]);
      var xs := RunSteps(start, staged, idleAfterMs, rounds[..n], found, callbacks);
      var ys := TurnSteps(l, idleAfterMs, rounds[n], found(n), callbacks(n));
      TurnIsWalk(Walk(v, xs), l, idleAfterMs, rounds[n], found(n), callbacks(n));
      WalkAdd(v, xs, ys);
    }
  }
}
