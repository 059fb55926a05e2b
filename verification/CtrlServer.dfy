/** The control server of src/network/ctrl_server.cpp: line framing over TCP segments, the message
    dispatch behind the pairing gate, and the accept loop that serves one client after another.

    JSON is not modelled: how a line parses is a parameter, as are the clock, the token generator and
    the user's answers to the prompt.  Replies, prefs calls and stream calls are recorded as events;
    replies are send attempts, since the server ignores their result. */
module CtrlServer {
  import opened Wrappers
  import opened Bytes
  import opened Lan
  import opened Pairing

  const PROMPT_TIMEOUT_MS: uint64 := 30000
  const RECV_BUFFER: nat := 2048

  datatype Kind = PairRequestKind | SetPrefsKind | PingKind | DisconnectKind | OtherKind
  datatype Message = Message(kind: Kind, token: Option<string>)
  datatype PairRequest = PairRequest(deviceName: string, deviceId: string)
  datatype Prefs = Prefs(fps: uint32, letterbox: bool)
  datatype AckParams = AckParams(mode: string, aspect: string, width: uint32, height: uint32, fps: uint32)

  datatype Event =
    | PairAccept(token: string)
    | PairDeny(reason: string)
    | ConfigAck(token: string, params: AckParams)
    | PingReply(token: string, ts: uint64)
    | PrefsCall(prefs: Prefs)
    | PairedCall(ip: string)
    | UnpairedCall

  /** What the server is given. */
  datatype Host = Host(
    clock: nat -> uint64,
    gen: nat -> string,
    prompt: (nat, PairRequest) -> bool,
    parse: string -> Option<Message>,
    asPairRequest: string -> Option<PairRequest>,
    asSetPrefs: string -> Option<Prefs>,
    config: AckParams
  )

  /** Everything the control thread can change; the counters tell how much of each input is used up. */
  datatype World = World(gate: Gate, clockReads: nat, tokensDrawn: nat, promptsShown: nat, events: seq<Event>)

  /** The configured frame rate after the prefs calls so far; a call with fps 0 leaves it alone. */
  function Fps(initial: uint32, events: seq<Event>): uint32 {
    if events == [] then initial
    else
      var e := events[|events| - 1];
      if e.PrefsCall? && e.prefs.fps != 0 then e.prefs.fps else Fps(initial, events[..|events| - 1])
  }

  function AckInfo(h: Host, events: seq<Event>): AckParams {
    h.config.(fps := Fps(h.config.fps, events))
  }

  function Emit(w: World, es: seq<Event>): World {
    w.(events := w.events + es)
  }

  // ---------- one line ----------

  /** The prompt was answered; w.gate awaits that answer. */
  function Answered(h: Host, ip: string, w: World, accepted: bool): World {
    if !accepted then
      Emit(w.(gate := GateDeny(w.gate)), [PairDeny("user_denied")])
    else
      var (g, token) := GateAccept(w.gate, h.clock(w.clockReads), h.gen(w.tokensDrawn), PROMPT_TIMEOUT_MS);
      var w' := w.(
        gate := g,
        clockReads := w.clockReads + ExpiryReads(w.gate),
        tokensDrawn := w.tokensDrawn + if g.state == Paired && w.gate.state != Paired then 1 else 0);
      if token == "" then
        Emit(w', [PairDeny("timeout")])
      else
        Emit(w', [PairAccept(token), ConfigAck(token, AckInfo(h, w.events)), PairedCall(ip)])
  }

  function HandlePairRequest(h: Host, ip: string, w: World, req: PairRequest): World {
    var base := w.clockReads + ExpiryReads(w.gate);
    var (g, raise) :=
      GateRequest(w.gate, req.deviceId, h.clock(w.clockReads), h.clock(base), PROMPT_TIMEOUT_MS);
    if !raise then
      Emit(w.(gate := g, clockReads := base), [PairDeny("busy")])
    else
      Answered(h, ip, w.(gate := g, clockReads := base + 1, promptsShown := w.promptsShown + 1),
               h.prompt(w.promptsShown, req))
  }

  /** The gate in front of SET_PREFS and PING. */
  function Check(h: Host, w: World, token: Option<string>): (World, bool) {
    match token
    case None => (w, false)
    case Some(t) =>
      var (g, ok) := GateValidate(w.gate, t, h.clock(w.clockReads), PROMPT_TIMEOUT_MS);
      (w.(gate := g, clockReads := w.clockReads + ExpiryReads(w.gate)), ok)
  }

  /** One line: the new world, and whether the connection goes on. */
  function HandleLine(h: Host, ip: string, w: World, line: string): (World, bool) {
    if line == "" || h.parse(line).None? then (w, true)
    else
      var msg := h.parse(line).value;
      match msg.kind
      case PairRequestKind =>
        (match h.asPairRequest(line)
         case None => w
         case Some(req) => HandlePairRequest(h, ip, w, req), true)
      case SetPrefsKind =>
        var (w', ok) := Check(h, w, msg.token);
        (if ok && h.asSetPrefs(line).Some? then Emit(w', [PrefsCall(h.asSetPrefs(line).value)]) else w', true)
      case PingKind =>
        var (w', ok) := Check(h, w, msg.token);
        (if ok then
           Emit(w'.(clockReads := w'.clockReads + 1), [PingReply(msg.token.value, h.clock(w'.clockReads))])
         else w', true)
      case DisconnectKind => (w, false)
      case OtherKind => (w, true)
  }

  /** A connection's lines one after the other, up to the first DISCONNECT. */
  function Serve(h: Host, ip: string, w: World, lines: seq<string>): World
    decreases lines
  {
    if lines == [] then w
    else
      var (w', more) := HandleLine(h, ip, w, lines[0]);
      if more then Serve(h, ip, w', lines[1..]) else w'
  }

  // ---------- lines of a byte stream ----------

  function Find(s: string): (nl: Option<nat>)
    ensures nl.Some? ==> nl.value < |s| && s[nl.value] == '\n' && '\n' !in s[..nl.value]
    ensures nl.None? ==> '\n' !in s
  {
    if s == "" then None
    else if s[0] == '\n' then Some(0)
    else
      match Find(s[1..])
      case None => None
      case Some(k) =>
        assert s[..k + 1] == [s[0]] + s[1..][..k];
        Some(k + 1)
  }

  /** The newline-terminated lines of s, without their newlines; an unterminated rest is no line. */
  function Lines(s: string): seq<string>
    decreases |s|
  {
    match Find(s)
    case None => []
    case Some(k) => [s[..k]] + Lines(s[k + 1..])
  }

  function Terminated(lines: seq<string>): string {
    if lines == [] then "" else lines[0] + "\n" + Terminated(lines[1..])
  }

  lemma FindFirst(s: string, k: nat)
    requires k < |s| && s[k] == '\n' && '\n' !in s[..k]
    ensures Find(s) == Some(k)
  {
    forall i | 0 <= i < k ensures s[i] != '\n' {
      assert s[..k][i] in s[..k];
    }
    var j := Find(s).value;
    forall i | 0 <= i < j ensures s[i] != '\n' {
      assert s[..j][i] in s[..j];
    }
  }

  /** Lines is the one way to cut s into newline-free lines and a newline-free rest. */
  lemma {:induction false} LinesUnique(s: string, lines: seq<string>, rest: string)
    requires '\n' !in rest && forall l :: l in lines ==> '\n' !in l
    ensures s == Terminated(lines) + rest ==> Lines(s) == lines
  {
    if s == Terminated(lines) + rest {
      if lines == [] {
        assert s == rest;
      } else {
        var l := lines[0];
        var tail := Terminated(lines[1..]) + rest;
        assert s == l + "\n" + tail;
        assert s[..|l|] == l && s[|l|] == '\n' && s[|l| + 1..] == tail;
        FindFirst(s, |l|);
        LinesUnique(tail, lines[1..], rest);
      }
    }
  }

  lemma Reassociate(a: string, b: string, c: string)
    ensures a + b + c == a + (b + c)
  {
  }

  lemma {:induction false} LinesCover(s: string) returns (rest: string)
    ensures '\n' !in rest && s == Terminated(Lines(s)) + rest
    ensures forall l :: l in Lines(s) ==> '\n' !in l
    decreases |s|
  {
    match Find(s)
    case None => rest := s;
    case Some(k) =>
      rest := LinesCover(s[k + 1..]);
      var lines := Lines(s[k + 1..]);
      assert ([s[..k]] + lines)[1..] == lines;
      assert Terminated(Lines(s)) == s[..k] + "\n" + Terminated(lines);
      Reassociate(s[..k] + "\n", Terminated(lines), rest);
      assert s == s[..k] + "\n" + s[k + 1..];
  }

  /** More input behind a complete line does not change that line. */
  lemma LinesAppend(acc: string, rest: string)
    requires Find(acc).Some?
    ensures var k := Find(acc).value;
            Lines(acc + rest) == [acc[..k]] + Lines(acc[k + 1..] + rest)
  {
    var k := Find(acc).value;
    assert (acc + rest)[..k] == acc[..k];
    FindFirst(acc + rest, k);
    assert (acc + rest)[k + 1..] == acc[k + 1..] + rest;
  }

  lemma NoLines(acc: string)
    requires Find(acc).None?
    ensures Lines(acc) == []
  {
  }

  lemma ServeStep(h: Host, ip: string, w: World, line: string, lines: seq<string>)
    ensures Serve(h, ip, w, [line] + lines)
         == var (w', more) := HandleLine(h, ip, w, line); if more then Serve(h, ip, w', lines) else w'
  {
    assert ([line] + lines)[1..] == lines;
  }

  lemma ServeNone(h: Host, ip: string, w: World)
    ensures Serve(h, ip, w, []) == w
  {
  }

  function Concat(segments: seq<string>): string {
    if segments == [] then "" else segments[0] + Concat(segments[1..])
  }

  lemma ConcatStep(acc: string, segments: seq<string>, i: nat)
    requires i < |segments|
    ensures acc + Concat(segments[i..]) == (acc + segments[i]) + Concat(segments[i + 1..])
  {
    assert segments[i..][1..] == segments[i + 1..];
    assert segments[i..][0] == segments[i];
  }

  lemma ConcatEnds(acc: string, segments: seq<string>)
    ensures "" + Concat(segments[0..]) == Concat(segments)
    ensures acc + Concat(segments[|segments|..]) == acc
  {
    assert segments[0..] == segments;
  }

  // ---------- the accept loop ----------

  /** A client: its address, and what recv returns until the peer is gone. */
  datatype Client = Client(peer: uint32, segments: seq<string>)

  predicate Receivable(segments: seq<string>) {
    forall s :: s in segments ==> 0 < |s| <= RECV_BUFFER
  }

  /** What the accept loop does when a client is gone. */
  function Close(w: World): World {
    Emit(w.(gate := GateDeny(w.gate)), [UnpairedCall])
  }

  function ServeOne(h: Host, w: World, c: Client): World {
    if !IsPrivateIPv4(c.peer) then w
    else Close(Serve(h, PrintAddress(c.peer), w, Lines(Concat(c.segments))))
  }

  function ServeAll(h: Host, w: World, clients: seq<Client>): World {
    if clients == [] then w
    else ServeOne(h, ServeAll(h, w, clients[..|clients| - 1]), clients[|clients| - 1])
  }

  // ---------- the class ----------

  class CtrlServer {
    const host: Host
    const injected: Injected
    const pairing: PairingManager
    var promptsShown: nat
    var events: seq<Event>

    constructor (host: Host)
      ensures Wired() && this.host == host && fresh(injected) && fresh(pairing)
      ensures View() == World(INITIAL, 0, 0, 0, [])
    {
      var injected := new Injected(host.clock, host.gen);
      var pairing := new PairingManager(PROMPT_TIMEOUT_MS, injected);
      this.host := host;
      this.injected := injected;
      this.pairing := pairing;
      promptsShown := 0;
      events := [];
    }

    /** The pairing manager has the 30 s timeout and the host's clock and token generator. */
    ghost predicate Wired() {
      && pairing.timeoutMs == PROMPT_TIMEOUT_MS
      && pairing.injected == injected
      && injected.clock == host.clock
      && injected.gen == host.gen
    }

    function View(): World
      reads this, pairing, injected
    {
      World(pairing.View(), injected.clockReads, injected.tokensDrawn, promptsShown, events)
    }

    method Send(e: Event)
      modifies `events
      ensures events == old(events) + [e]
    {
      events := events + [e];
    }

    method AnswerPrompt(ip: string, accepted: bool)
      requires Wired()
      modifies this, pairing, injected
      ensures View() == Answered(host, ip, old(View()), accepted)
    {
      hide GateAccept, GateDeny, AckInfo;
      if accepted {
        var token := pairing.Accept();
        if token == "" {
          Send(PairDeny("timeout"));
          return;
        }
        var params := AckInfo(host, events);
        Send(PairAccept(token));
        Send(ConfigAck(token, params));
        Send(PairedCall(ip));
        assert events == old(events) + [PairAccept(token), ConfigAck(token, params), PairedCall(ip)];
      } else {
        pairing.Deny();
        Send(PairDeny("user_denied"));
      }
    }

    method ServePairRequest(ip: string, req: PairRequest)
      requires Wired()
      modifies this, pairing, injected
      ensures View() == HandlePairRequest(host, ip, old(View()), req)
    {
      hide GateRequest, Answered;
      var raise := pairing.OnRequest(req.deviceId);
      if !raise {
        Send(PairDeny("busy"));
        return;
      }
      var accepted := host.prompt(promptsShown, req);
      promptsShown := promptsShown + 1;
      AnswerPrompt(ip, accepted);
    }

    /** The dispatch on one line. */
    method Dispatch(ip: string, line: string) returns (more: bool)
      requires Wired()
      modifies this, pairing, injected
      ensures (View(), more) == HandleLine(host, ip, old(View()), line)
    {
      hide HandlePairRequest;
      if line == "" {
        return true;
      }
      var msg := host.parse(line);
      if msg.None? {
        return true;
      }
      match msg.value.kind {
        case PairRequestKind =>
          var req := host.asPairRequest(line);
          if req.Some? {
            ServePairRequest(ip, req.value);
          }
        case SetPrefsKind =>
          if msg.value.token.None? {
            return true;
          }
          var ok := pairing.Validate(msg.value.token.value);
          if ok {
            var p := host.asSetPrefs(line);
            if p.Some? {
              Send(PrefsCall(p.value));
            }
          }
        case PingKind =>
          if msg.value.token.Some? {
            var ok := pairing.Validate(msg.value.token.value);
            if ok {
              var now := injected.ReadClock();
              Send(PingReply(msg.value.token.value, now));
            }
          }
        case DisconnectKind =>
          return false;
        case OtherKind =>
      }
      return true;
    }

    /** However TCP cuts the byte stream into segments, the connection ends in the same state and with the
        same events: those of the complete lines of the whole stream, up to the first DISCONNECT. */
    method ServeClient(ip: string, segments: seq<string>)
      requires Wired() && Receivable(segments)
      modifies this, pairing, injected
      ensures View() == Serve(host, ip, old(View()), Lines(Concat(segments)))
    {
      hide HandleLine, Lines, Find, Concat, Serve;
      var acc := "";
      ghost var goal := Serve(host, ip, View(), Lines(Concat(segments)));
      ConcatEnds("", segments);
      for i := 0 to |segments|
        invariant '\n' !in acc
        invariant goal == Serve(host, ip, View(), Lines(acc + Concat(segments[i..])))
      {
        ghost var rest := Concat(segments[i + 1..]);
        ConcatStep(acc, segments, i);
        acc := acc + segments[i];
        var nl := Find(acc);
        while nl.Some?
          invariant nl == Find(acc)
          invariant goal == Serve(host, ip, View(), Lines(acc + rest))
          decreases |acc|
        {
          LinesAppend(acc, rest);
          var line := acc[..nl.value];
          acc := acc[nl.value + 1..];
          ServeStep(host, ip, View(), line, Lines(acc + rest));
          var more := Dispatch(ip, line);
          if !more {
            return;
          }
          nl := Find(acc);
        }
      }
      ConcatEnds(acc, segments);
      NoLines(acc);
      ServeNone(host, ip, View());
    }

    method Loop(clients: seq<Client>)
      requires Wired()
      requires forall c :: c in clients ==> Receivable(c.segments)
      modifies this, pairing, injected
      ensures View() == ServeAll(host, old(View()), clients)
    {
      hide Serve, IsPrivateIPv4, PrintAddress;
      for i := 0 to |clients|
        invariant View() == ServeAll(host, old(View()), clients[..i])
      {
        var c := clients[i];
        assert clients[..i + 1][..i] == clients[..i];
        if !IsPrivateIPv4(c.peer) {
          continue;
        }
        ServeClient(PrintAddress(c.peer), c.segments);
        pairing.Reset();
        Send(UnpairedCall);
      }
      assert clients[..|clients|] == clients;
    }
  }

  /** Two servers in the same situation that receive the same bytes, cut into segments in any two ways, end
      in the same situation: same gate, same use of clock, tokens and prompts, same events. */
  method TwoCuttings(a: CtrlServer, b: CtrlServer, ip: string, first: seq<string>, second: seq<string>)
    requires a.Wired() && b.Wired() && a.host == b.host && a.View() == b.View()
    requires a != b && a.pairing != b.pairing && a.injected != b.injected
    requires Receivable(first) && Receivable(second) && Concat(first) == Concat(second)
    modifies a, a.pairing, a.injected, b, b.pairing, b.injected
    ensures a.View() == b.View()
  {
    hide Serve, Lines, Concat;
    a.ServeClient(ip, first);
    b.ServeClient(ip, second);
  }
}
