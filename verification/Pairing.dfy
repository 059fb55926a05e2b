/** The pairing gate of src/network/pairing.hpp.

    The class keeps the source's fields and reads an injected clock and token generator.  Its methods are
    tied to functions on plain values, and what the gate promises over whole runs is proved about those:
    the lazy expiry refines a machine that drops a prompt at its deadline, and validate answers from the
    history alone. */
module Pairing {
  import opened Wrappers
  import opened Bytes

  datatype PairState = Idle | AwaitingApproval | Paired

  /** The fields of PairingManager. */
  datatype Gate = Gate(state: PairState, token: string, deviceId: string, requestedAt: uint64)

  const INITIAL := Gate(Idle, "", "", 0)

  /** now - requestedAt in 64-bit unsigned arithmetic has reached the timeout. */
  predicate TimedOut(requestedAt: uint64, now: uint64, timeoutMs: uint64) {
    (now - requestedAt) % TWO_64 >= timeoutMs
  }

  function GateExpire(g: Gate, now: uint64, timeoutMs: uint64): Gate {
    if g.state == AwaitingApproval && TimedOut(g.requestedAt, now, timeoutMs)
    then g.(state := Idle, deviceId := "")
    else g
  }

  /** onRequest: `now` is what the expiry check reads, `stamp` what the request itself reads. */
  function GateRequest(g: Gate, deviceId: string, now: uint64, stamp: uint64, timeoutMs: uint64): (Gate, bool) {
    var g := GateExpire(g, now, timeoutMs);
    if g.state != Idle then (g, false)
    else (g.(state := AwaitingApproval, deviceId := deviceId, requestedAt := stamp), true)
  }

  /** accept: `drawn` is what the token generator returns, possibly the empty string. */
  function GateAccept(g: Gate, now: uint64, drawn: string, timeoutMs: uint64): (Gate, string) {
    var g := GateExpire(g, now, timeoutMs);
    if g.state != AwaitingApproval then (g, "")
    else (g.(state := Paired, token := drawn), drawn)
  }

  function GateDeny(g: Gate): Gate {
    g.(state := Idle, token := "", deviceId := "")
  }

  function GateValidate(g: Gate, token: string, now: uint64, timeoutMs: uint64): (Gate, bool) {
    var g := GateExpire(g, now, timeoutMs);
    (g, g.state == Paired && g.token != "" && token == g.token)
  }

  // ---------- the class ----------

  /** What PairingManager is given: m_clock and m_gen.  Successive calls return successive values. */
  class Injected {
    const clock: nat -> uint64
    const gen: nat -> string
    var clockReads: nat
    var tokensDrawn: nat

    constructor (clock: nat -> uint64, gen: nat -> string)
      ensures this.clock == clock && this.gen == gen && clockReads == 0 && tokensDrawn == 0
    {
      this.clock := clock;
      this.gen := gen;
      clockReads := 0;
      tokensDrawn := 0;
    }

    method ReadClock() returns (now: uint64)
      modifies `clockReads
      ensures now == clock(old(clockReads)) && clockReads == old(clockReads) + 1
    {
      now := clock(clockReads);
      clockReads := clockReads + 1;
    }

    method DrawToken() returns (token: string)
      modifies `tokensDrawn
      ensures token == gen(old(tokensDrawn)) && tokensDrawn == old(tokensDrawn) + 1
    {
      token := gen(tokensDrawn);
      tokensDrawn := tokensDrawn + 1;
    }
  }

  /** The expiry check reads the clock only while a prompt is pending. */
  function ExpiryReads(g: Gate): nat {
    if g.state == AwaitingApproval then 1 else 0
  }

  class PairingManager {
    const timeoutMs: uint64
    const injected: Injected
    var state: PairState
    var token: string
    var deviceId: string
    var requestedAt: uint64

    constructor (timeoutMs: uint64, injected: Injected)
      ensures this.timeoutMs == timeoutMs && this.injected == injected
      ensures View() == INITIAL
    {
      this.timeoutMs := timeoutMs;
      this.injected := injected;
      state := Idle;
      token := "";
      deviceId := "";
      requestedAt := 0;
    }

    function View(): Gate
      reads this
    {
      Gate(state, token, deviceId, requestedAt)
    }

    method ExpireIfNeeded() returns (expired: bool)
      modifies this, injected`clockReads
      ensures View() == GateExpire(old(View()), injected.clock(old(injected.clockReads)), timeoutMs)
      ensures injected.clockReads == old(injected.clockReads) + ExpiryReads(old(View()))
      ensures expired <==> old(state) == AwaitingApproval && state == Idle
    {
      if state == AwaitingApproval {
        var now := injected.ReadClock();
        if (now - requestedAt) % TWO_64 >= timeoutMs {
          state := Idle;
          deviceId := "";
          return true;
        }
      }
      return false;
    }

    method OnRequest(id: string) returns (prompt: bool)
      modifies this, injected`clockReads
      ensures var base := old(injected.clockReads) + ExpiryReads(old(View()));
              && (View(), prompt) == GateRequest(
                   old(View()), id, injected.clock(old(injected.clockReads)), injected.clock(base), timeoutMs)
              && injected.clockReads == base + if prompt then 1 else 0
    {
      var _ := ExpireIfNeeded();
      if state != Idle {
        return false;
      }
      state := AwaitingApproval;
      deviceId := id;
      requestedAt := injected.ReadClock();
      return true;
    }

    method Accept() returns (issued: string)
      modifies this, injected
      ensures (View(), issued) == GateAccept(
                old(View()), injected.clock(old(injected.clockReads)), injected.gen(old(injected.tokensDrawn)), timeoutMs)
      ensures injected.clockReads == old(injected.clockReads) + ExpiryReads(old(View()))
      ensures injected.tokensDrawn == old(injected.tokensDrawn) + if state == Paired && old(state) != Paired then 1 else 0
    {
      var _ := ExpireIfNeeded();
      if state != AwaitingApproval {
        return "";
      }
      token := injected.DrawToken();
      state := Paired;
      return token;
    }

    method Deny()
      modifies this
      ensures View() == GateDeny(old(View()))
    {
      state := Idle;
      token := "";
      deviceId := "";
    }

    method Reset()
      modifies this
      ensures View() == GateDeny(old(View()))
    {
      Deny();
    }

    method Validate(candidate: string) returns (ok: bool)
      modifies this, injected`clockReads
      ensures (View(), ok) == GateValidate(
                old(View()), candidate, injected.clock(old(injected.clockReads)), timeoutMs)
      ensures injected.clockReads == old(injected.clockReads) + ExpiryReads(old(View()))
    {
      var _ := ExpireIfNeeded();
      return state == Paired && token != "" && candidate == token;
    }
  }

  // ---------- runs ----------

  /** A call with the clock values and token it would be handed. */
  datatype Op =
    | RequestOp(deviceId: string, now: uint64, stamp: uint64)
    | AcceptOp(now: uint64, drawn: string)
    | DenyOp
    | ValidateOp(token: string, now: uint64)
    | ExpireOp(now: uint64)

  datatype Reply = Granted(yes: bool) | Issued(token: string) | Valid(yes: bool) | Silent

  function Apply(g: Gate, op: Op, timeoutMs: uint64): (Gate, Reply) {
    match op
    case RequestOp(id, now, stamp) => var (g', yes) := GateRequest(g, id, now, stamp, timeoutMs); (g', Granted(yes))
    case AcceptOp(now, drawn) => var (g', tok) := GateAccept(g, now, drawn, timeoutMs); (g', Issued(tok))
    case DenyOp => (GateDeny(g), Silent)
    case ValidateOp(token, now) => var (g', yes) := GateValidate(g, token, now, timeoutMs); (g', Valid(yes))
    case ExpireOp(now) => (GateExpire(g, now, timeoutMs), Silent)
  }

  function After(ops: seq<Op>, timeoutMs: uint64): Gate {
    if ops == [] then INITIAL
    else Apply(After(ops[..|ops| - 1], timeoutMs), ops[|ops| - 1], timeoutMs).0
  }

  /** What the last call of a non-empty run answers. */
  function Answer(ops: seq<Op>, timeoutMs: uint64): Reply
    requires ops != []
  {
    Apply(After(ops[..|ops| - 1], timeoutMs), ops[|ops| - 1], timeoutMs).1
  }

  /** The token is empty outside Paired, and the device id in Idle. */
  predicate GateInv(g: Gate) {
    && (g.state != Paired ==> g.token == "")
    && (g.state == Idle ==> g.deviceId == "")
  }

  lemma {:induction false} GateAlways(ops: seq<Op>, timeoutMs: uint64)
    ensures GateInv(After(ops, timeoutMs))
  {
    if ops != [] {
      GateAlways(ops[..|ops| - 1], timeoutMs);
    }
  }

  // ---------- lazy expiry refines a deadline ----------

  function FirstRead(op: Op): Option<uint64> {
    match op
    case RequestOp(_, now, _) => Some(now)
    case AcceptOp(now, _) => Some(now)
    case DenyOp => None
    case ValidateOp(_, now) => Some(now)
    case ExpireOp(now) => Some(now)
  }

  function LastRead(op: Op): Option<uint64> {
    if op.RequestOp? then Some(op.stamp) else FirstRead(op)
  }

  /** The latest clock value in the calls so far; the steady clock is at least that afterwards. */
  function Latest(ops: seq<Op>): nat {
    if ops == [] then 0
    else
      match LastRead(ops[|ops| - 1])
      case Some(t) => t
      case None => Latest(ops[..|ops| - 1])
  }

  /** The clock never goes back. */
  predicate Monotone(ops: seq<Op>) {
    ops == [] ||
    var before, op := ops[..|ops| - 1], ops[|ops| - 1];
    && Monotone(before)
    && (FirstRead(op).Some? ==> Latest(before) <= FirstRead(op).value)
    && (op.RequestOp? ==> op.now <= op.stamp)
  }

  /** Specification machine: it knows the deadline and drops the prompt exactly when that is reached,
      without any call having to look. */
  datatype Spec = NoPrompt | Prompt(deadline: nat) | Session(token: string)

  function At(m: Spec, now: nat): Spec {
    if m.Prompt? && now >= m.deadline then NoPrompt else m
  }

  function SpecApply(m: Spec, op: Op, timeoutMs: uint64): (Spec, Reply) {
    match op
    case RequestOp(_, now, stamp) =>
      if At(m, now).NoPrompt? then (Prompt(stamp + timeoutMs as int), Granted(true)) else (m, Granted(false))
    case AcceptOp(now, drawn) =>
      if At(m, now).Prompt? then (Session(drawn), Issued(drawn)) else (m, Issued(""))
    case DenyOp => (NoPrompt, Silent)
    case ValidateOp(token, now) => (m, Valid(m.Session? && m.token != "" && token == m.token))
    case ExpireOp(_) => (m, Silent)
  }

  function SpecAfter(ops: seq<Op>, timeoutMs: uint64): Spec {
    if ops == [] then NoPrompt
    else SpecApply(SpecAfter(ops[..|ops| - 1], timeoutMs), ops[|ops| - 1], timeoutMs).0
  }

  function SpecAnswer(ops: seq<Op>, timeoutMs: uint64): Reply
    requires ops != []
  {
    SpecApply(SpecAfter(ops[..|ops| - 1], timeoutMs), ops[|ops| - 1], timeoutMs).1
  }

  /** At any time from t on, the gate and the machine are in the same situation. */
  predicate Agree(g: Gate, m: Spec, t: nat, timeoutMs: uint64) {
    match g.state
    case Paired => m == Session(g.token)
    case AwaitingApproval => m == Prompt(g.requestedAt + timeoutMs as int) && g.requestedAt <= t
    case Idle => At(m, t) == NoPrompt
  }

  lemma NoWrap(requestedAt: uint64, now: uint64, timeoutMs: uint64)
    requires requestedAt <= now
    ensures TimedOut(requestedAt, now, timeoutMs) <==> now >= requestedAt + timeoutMs as int
  {
    var d: nat := now - requestedAt;
    assert d < TWO_64;
  }

  lemma RefineStep(g: Gate, m: Spec, t: nat, op: Op, timeoutMs: uint64)
    requires Agree(g, m, t, timeoutMs)
    requires FirstRead(op).Some? ==> t <= FirstRead(op).value
    requires op.RequestOp? ==> op.now <= op.stamp
    ensures var t' := if LastRead(op).Some? then LastRead(op).value else t;
            Agree(Apply(g, op, timeoutMs).0, SpecApply(m, op, timeoutMs).0, t', timeoutMs)
    ensures Apply(g, op, timeoutMs).1 == SpecApply(m, op, timeoutMs).1
  {
    if g.state == AwaitingApproval && FirstRead(op).Some? {
      NoWrap(g.requestedAt, FirstRead(op).value, timeoutMs);
    }
  }

  lemma {:induction false} RefinesSpec(ops: seq<Op>, timeoutMs: uint64)
    requires Monotone(ops)
    ensures Agree(After(ops, timeoutMs), SpecAfter(ops, timeoutMs), Latest(ops), timeoutMs)
  {
    if ops != [] {
      var before, op := ops[..|ops| - 1], ops[|ops| - 1];
      RefinesSpec(before, timeoutMs);
      RefineStep(After(before, timeoutMs), SpecAfter(before, timeoutMs), Latest(before), op, timeoutMs);
    }
  }

  /** Under a clock that never goes back, every call answers as the deadline machine does. */
  lemma LazyExpiryIsDeadline(ops: seq<Op>, timeoutMs: uint64)
    requires ops != [] && Monotone(ops)
    ensures Answer(ops, timeoutMs) == SpecAnswer(ops, timeoutMs)
  {
    var before, op := ops[..|ops| - 1], ops[|ops| - 1];
    RefinesSpec(before, timeoutMs);
    RefineStep(After(before, timeoutMs), SpecAfter(before, timeoutMs), Latest(before), op, timeoutMs);
  }

  /** The run without its expireIfNeeded calls. */
  function WithoutExpiry(ops: seq<Op>): seq<Op> {
    if ops == [] then []
    else
      var rest := WithoutExpiry(ops[..|ops| - 1]);
      if ops[|ops| - 1].ExpireOp? then rest else rest + [ops[|ops| - 1]]
  }

  lemma {:induction false} SpecIgnoresExpiry(ops: seq<Op>, timeoutMs: uint64)
    ensures SpecAfter(WithoutExpiry(ops), timeoutMs) == SpecAfter(ops, timeoutMs)
  {
    if ops != [] {
      SpecIgnoresExpiry(ops[..|ops| - 1], timeoutMs);
      if !ops[|ops| - 1].ExpireOp? {
        var rest := WithoutExpiry(ops[..|ops| - 1]);
        assert WithoutExpiry(ops)[..|rest|] == rest;
      }
    }
  }

  lemma {:induction false} StillMonotone(ops: seq<Op>)
    requires Monotone(ops)
    ensures Monotone(WithoutExpiry(ops)) && Latest(WithoutExpiry(ops)) <= Latest(ops)
  {
    if ops != [] {
      StillMonotone(ops[..|ops| - 1]);
      if !ops[|ops| - 1].ExpireOp? {
        var rest := WithoutExpiry(ops[..|ops| - 1]);
        assert WithoutExpiry(ops)[..|rest|] == rest;
      }
    }
  }

  /** Sprinkling any number of expireIfNeeded calls over a run changes no answer of the other calls. */
  lemma ExpiryCallsInvisible(ops: seq<Op>, timeoutMs: uint64)
    requires ops != [] && Monotone(ops) && !ops[|ops| - 1].ExpireOp?
    ensures WithoutExpiry(ops) != []
    ensures Answer(ops, timeoutMs) == Answer(WithoutExpiry(ops), timeoutMs)
  {
    var before := ops[..|ops| - 1];
    var rest := WithoutExpiry(before);
    assert WithoutExpiry(ops) == rest + [ops[|ops| - 1]];
    assert WithoutExpiry(ops)[..|rest|] == rest;
    StillMonotone(ops);
    SpecIgnoresExpiry(before, timeoutMs);
    LazyExpiryIsDeadline(ops, timeoutMs);
    LazyExpiryIsDeadline(WithoutExpiry(ops), timeoutMs);
  }

  // ---------- clocks that go back ----------

  /** With 64-bit subtraction, reading t leaves a prompt stamped s pending: t is in the window from s on, or
      so far behind s that the difference wraps to less than the timeout. */
  predicate LeavesPending(s: uint64, t: uint64, timeoutMs: uint64) {
    s <= t < s + timeoutMs as int || (t < s && s - t > TWO_64 - timeoutMs)
  }

  lemma PendingExactly(s: uint64, t: uint64, timeoutMs: uint64)
    ensures LeavesPending(s, t, timeoutMs) <==> !TimedOut(s, t, timeoutMs)
  {
    if s <= t {
      NoWrap(s, t, timeoutMs);
    } else {
      assert (t - s) % TWO_64 == TWO_64 + t - s;
    }
  }

  function Expiries(times: seq<uint64>): seq<Op> {
    if times == [] then [] else Expiries(times[..|times| - 1]) + [ExpireOp(times[|times| - 1])]
  }

  lemma ExpiryOutcome(ops: seq<Op>, t: uint64, timeoutMs: uint64)
    ensures var g := After(ops, timeoutMs);
            After(ops + [ExpireOp(t)], timeoutMs)
            == if g.state == AwaitingApproval && !LeavesPending(g.requestedAt, t, timeoutMs)
               then g.(state := Idle, deviceId := "") else g
  {
    hide LeavesPending, TimedOut;
    assert (ops + [ExpireOp(t)])[..|ops|] == ops;
    PendingExactly(After(ops, timeoutMs).requestedAt, t, timeoutMs);
  }

  lemma {:induction false} AfterExpiries(ops: seq<Op>, times: seq<uint64>, timeoutMs: uint64)
    requires After(ops, timeoutMs).state == AwaitingApproval
    ensures var g := After(ops, timeoutMs);
            After(ops + Expiries(times), timeoutMs)
            == if forall t :: t in times ==> LeavesPending(g.requestedAt, t, timeoutMs) then g
               else g.(state := Idle, deviceId := "")
  {
    hide LeavesPending, After;
    if times == [] {
      assert ops + Expiries(times) == ops;
    } else {
      var n := |times| - 1;
      AfterExpiries(ops, times[..n], timeoutMs);
      ExpiryOutcome(ops + Expiries(times[..n]), times[n], timeoutMs);
      assert times == times[..n] + [times[n]];
      assert ops + Expiries(times) == ops + Expiries(times[..n]) + [ExpireOp(times[n])];
    }
  }

  /** For any clock: a prompt stamped s is answered with the drawn token if and only if the accept and every
      expireIfNeeded call before it read a time that leaves it pending. */
  lemma PromptSurvivesExactly(ops: seq<Op>, times: seq<uint64>, now: uint64, drawn: string, timeoutMs: uint64)
    requires After(ops, timeoutMs).state == AwaitingApproval && drawn != ""
    ensures var s := After(ops, timeoutMs).requestedAt;
            Answer(ops + Expiries(times) + [AcceptOp(now, drawn)], timeoutMs) == Issued(drawn) <==>
            && LeavesPending(s, now, timeoutMs)
            && forall t :: t in times ==> LeavesPending(s, t, timeoutMs)
  {
    hide LeavesPending, TimedOut;
    AfterExpiries(ops, times, timeoutMs);
    PendingExactly(After(ops, timeoutMs).requestedAt, now, timeoutMs);
    var all := ops + Expiries(times) + [AcceptOp(now, drawn)];
    assert all[..|all| - 1] == ops + Expiries(times);
  }

  // ---------- validate in terms of the history ----------

  predicate RequestGranted(ops: seq<Op>, i: nat, timeoutMs: uint64) {
    i < |ops| && ops[i].RequestOp? && Answer(ops[..i + 1], timeoutMs) == Granted(true)
  }

  /** Request i was granted, accept j was the first after it and came before the timeout, and there has
      been no deny or reset since. */
  predicate Opened(ops: seq<Op>, i: nat, j: nat, timeoutMs: uint64) {
    && i < j < |ops|
    && RequestGranted(ops, i, timeoutMs)
    && ops[j].AcceptOp?
    && ops[j].now < ops[i].stamp + timeoutMs as int
    && (forall k :: i < k < j ==> !ops[k].AcceptOp?)
    && (forall k :: i < k < |ops| ==> !ops[k].DenyOp?)
  }

  lemma {:induction false} MonotonePrefix(ops: seq<Op>, n: nat)
    requires Monotone(ops) && n <= |ops|
    ensures Monotone(ops[..n]) && Latest(ops[..n]) <= Latest(ops)
  {
    if n == |ops| {
      assert ops[..n] == ops;
    } else {
      assert ops[..|ops| - 1][..n] == ops[..n];
      MonotonePrefix(ops[..|ops| - 1], n);
    }
  }

  /** Later calls read later times. */
  lemma ReadsGrow(ops: seq<Op>, k: nat, j: nat)
    requires Monotone(ops) && k < j < |ops|
    requires LastRead(ops[k]).Some? && FirstRead(ops[j]).Some?
    ensures LastRead(ops[k]).value <= FirstRead(ops[j]).value
  {
    MonotonePrefix(ops, j + 1);
    var upTo := ops[..j + 1];
    assert upTo[..j] == ops[..j];
    MonotonePrefix(ops[..j], k + 1);
    assert ops[..j][..k + 1] == ops[..k + 1];
    assert ops[..k + 1][k] == ops[k];
  }

  lemma SpecStep(ops: seq<Op>, n: nat, timeoutMs: uint64)
    requires n < |ops|
    ensures SpecAfter(ops[..n + 1], timeoutMs) == SpecApply(SpecAfter(ops[..n], timeoutMs), ops[n], timeoutMs).0
  {
    assert ops[..n + 1][..n] == ops[..n];
  }

  lemma GrantOpens(ops: seq<Op>, i: nat, timeoutMs: uint64)
    requires Monotone(ops) && i < |ops| && ops[i].RequestOp?
    ensures RequestGranted(ops, i, timeoutMs) <==> At(SpecAfter(ops[..i], timeoutMs), ops[i].now).NoPrompt?
  {
    MonotonePrefix(ops, i + 1);
    assert ops[..i + 1][..i] == ops[..i];
    LazyExpiryIsDeadline(ops[..i + 1], timeoutMs);
  }

  lemma {:induction false} StaysPrompt(ops: seq<Op>, i: nat, n: nat, timeoutMs: uint64)
    requires Monotone(ops) && RequestGranted(ops, i, timeoutMs) && i < n <= |ops|
    requires forall k :: i < k < n ==> !ops[k].AcceptOp? && !ops[k].DenyOp?
    requires forall k :: i < k < n && FirstRead(ops[k]).Some? ==> FirstRead(ops[k]).value < ops[i].stamp + timeoutMs as int
    ensures SpecAfter(ops[..n], timeoutMs) == Prompt(ops[i].stamp + timeoutMs as int)
  {
    SpecStep(ops, n - 1, timeoutMs);
    if n == i + 1 {
      GrantOpens(ops, i, timeoutMs);
    } else {
      StaysPrompt(ops, i, n - 1, timeoutMs);
    }
  }

  lemma {:induction false} StaysSession(ops: seq<Op>, j: nat, n: nat, token: string, timeoutMs: uint64)
    requires j <= n <= |ops| && SpecAfter(ops[..j], timeoutMs) == Session(token)
    requires forall k :: j <= k < n ==> !ops[k].DenyOp?
    ensures SpecAfter(ops[..n], timeoutMs) == Session(token)
  {
    if j < n {
      StaysSession(ops, j, n - 1, token, timeoutMs);
      SpecStep(ops, n - 1, timeoutMs);
    }
  }

  lemma OpenedIsSession(ops: seq<Op>, i: nat, j: nat, timeoutMs: uint64)
    requires Monotone(ops) && Opened(ops, i, j, timeoutMs)
    ensures SpecAfter(ops, timeoutMs) == Session(ops[j].drawn)
  {
    forall k | i < k < j && FirstRead(ops[k]).Some?
      ensures FirstRead(ops[k]).value < ops[i].stamp + timeoutMs as int
    {
      MonotonePrefix(ops, k + 1);
      ReadsGrow(ops, k, j);
    }
    StaysPrompt(ops, i, j, timeoutMs);
    SpecStep(ops, j, timeoutMs);
    StaysSession(ops, j + 1, |ops|, ops[j].drawn, timeoutMs);
    assert ops[..|ops|] == ops;
  }

  /** Request i was granted, no deny or reset came since, and accepts that came were too late. */
  predicate Asked(ops: seq<Op>, i: nat, timeoutMs: uint64) {
    && RequestGranted(ops, i, timeoutMs)
    && (forall k :: i < k < |ops| ==> !ops[k].DenyOp?)
    && (forall k :: i < k < |ops| && ops[k].AcceptOp? ==> ops[k].now >= ops[i].stamp + timeoutMs as int)
  }

  ghost predicate Explained(ops: seq<Op>, timeoutMs: uint64) {
    match SpecAfter(ops, timeoutMs)
    case NoPrompt => true
    case Prompt(d) => exists i: nat :: Asked(ops, i, timeoutMs) && d == ops[i].stamp + timeoutMs as int
    case Session(token) => exists i: nat, j: nat :: Opened(ops, i, j, timeoutMs) && ops[j].drawn == token
  }

  lemma GrantedInPrefix(ops: seq<Op>, n: nat, i: nat, timeoutMs: uint64)
    requires i < n <= |ops|
    ensures RequestGranted(ops[..n], i, timeoutMs) <==> RequestGranted(ops, i, timeoutMs)
  {
    assert ops[..n][..i + 1] == ops[..i + 1];
  }

  lemma AskedExtend(ops: seq<Op>, i: nat, timeoutMs: uint64)
    requires ops != [] && Asked(ops[..|ops| - 1], i, timeoutMs)
    requires var op := ops[|ops| - 1];
             !op.DenyOp? && (op.AcceptOp? ==> op.now >= ops[i].stamp + timeoutMs as int)
    ensures Asked(ops, i, timeoutMs)
  {
    hide Answer;
    var n := |ops| - 1;
    GrantedInPrefix(ops, n, i, timeoutMs);
    assert forall k | i < k < n :: ops[..n][k] == ops[k];
  }

  lemma AskedOpens(ops: seq<Op>, i: nat, timeoutMs: uint64)
    requires ops != [] && Monotone(ops) && Asked(ops[..|ops| - 1], i, timeoutMs)
    requires var op := ops[|ops| - 1]; op.AcceptOp? && op.now < ops[i].stamp + timeoutMs as int
    ensures Opened(ops, i, |ops| - 1, timeoutMs)
  {
    hide Answer;
    var n := |ops| - 1;
    GrantedInPrefix(ops, n, i, timeoutMs);
    forall k | i < k < n ensures !ops[k].AcceptOp? && !ops[k].DenyOp? {
      assert ops[..n][k] == ops[k];
      if ops[k].AcceptOp? {
        ReadsGrow(ops, k, n);
      }
    }
  }

  lemma OpenedExtend(ops: seq<Op>, i: nat, j: nat, timeoutMs: uint64)
    requires ops != [] && Opened(ops[..|ops| - 1], i, j, timeoutMs) && !ops[|ops| - 1].DenyOp?
    ensures Opened(ops, i, j, timeoutMs) && ops[j] == ops[..|ops| - 1][j]
  {
    hide Answer;
    var n := |ops| - 1;
    GrantedInPrefix(ops, n, i, timeoutMs);
    assert forall k | i < k < n :: ops[..n][k] == ops[k];
  }

  lemma PromptExplained(ops: seq<Op>, timeoutMs: uint64)
    requires ops != [] && Monotone(ops) && Explained(ops[..|ops| - 1], timeoutMs)
    requires SpecAfter(ops[..|ops| - 1], timeoutMs).Prompt?
    ensures Explained(ops, timeoutMs)
  {
    hide Opened, Answer;
    var n := |ops| - 1;
    var op := ops[n];
    var d := SpecAfter(ops[..n], timeoutMs).deadline;
    var i: nat :| Asked(ops[..n], i, timeoutMs) && d == ops[..n][i].stamp + timeoutMs as int;
    if op.AcceptOp? && op.now < d {
      AskedOpens(ops, i, timeoutMs);
    } else if op.RequestOp? && op.now >= d {
      GrantOpens(ops, n, timeoutMs);
      assert Asked(ops, n, timeoutMs);
    } else if !op.DenyOp? {
      AskedExtend(ops, i, timeoutMs);
    }
  }

  lemma SessionExplained(ops: seq<Op>, timeoutMs: uint64)
    requires ops != [] && Explained(ops[..|ops| - 1], timeoutMs)
    requires SpecAfter(ops[..|ops| - 1], timeoutMs).Session?
    ensures Explained(ops, timeoutMs)
  {
    var n := |ops| - 1;
    var token := SpecAfter(ops[..n], timeoutMs).token;
    var i: nat, j: nat :| Opened(ops[..n], i, j, timeoutMs) && ops[..n][j].drawn == token;
    hide Opened, Asked, RequestGranted;
    if !ops[n].DenyOp? {
      OpenedExtend(ops, i, j, timeoutMs);
    }
  }

  lemma {:induction false} AllExplained(ops: seq<Op>, timeoutMs: uint64)
    requires Monotone(ops)
    ensures Explained(ops, timeoutMs)
  {
    if ops != [] {
      var n := |ops| - 1;
      AllExplained(ops[..n], timeoutMs);
      match SpecAfter(ops[..n], timeoutMs)
      case Prompt(_) => PromptExplained(ops, timeoutMs);
      case Session(_) => SessionExplained(ops, timeoutMs);
      case NoPrompt =>
        if ops[n].RequestOp? {
          GrantOpens(ops, n, timeoutMs);
          assert Asked(ops, n, timeoutMs);
        }
    }
  }

  /** After any run under a clock that never goes back, validate accepts a token if and only if it is not
      empty and was issued by the first accept after a granted request, before that request's timeout,
      with no deny or reset since. */
  lemma TokenHistory(ops: seq<Op>, token: string, now: uint64, timeoutMs: uint64)
    requires Monotone(ops + [ValidateOp(token, now)])
    ensures Answer(ops + [ValidateOp(token, now)], timeoutMs) == Valid(true) <==>
            && token != ""
            && exists i: nat, j: nat :: Opened(ops, i, j, timeoutMs) && ops[j].drawn == token
  {
    var all := ops + [ValidateOp(token, now)];
    assert all[..|ops|] == ops;
    LazyExpiryIsDeadline(all, timeoutMs);
    AllExplained(ops, timeoutMs);
    if i: nat, j: nat :| Opened(ops, i, j, timeoutMs) && ops[j].drawn == token {
      OpenedIsSession(ops, i, j, timeoutMs);
    }
  }
}
