/** What the control server keeps over any sequence of connections: the order of its replies and calls,
    who may cause them, and what ends a connection. */
module SessionDiscipline {
  import opened Wrappers
  import opened Bytes
  import opened Lan
  import opened Pairing
  import opened CtrlServer

  const BUSY := PairDeny("busy")

  predicate Denials(es: seq<Event>) {
    forall e :: e in es ==> e.PairDeny?
  }

  /** What may follow the start of a session with this token. */
  predicate InSession(es: seq<Event>, token: string) {
    forall e :: e in es ==> e.PrefsCall? || (e.PingReply? && e.token == token) || e == BUSY
  }

  predicate Established(g: Gate) {
    g.state == Paired && g.token != ""
  }

  function Opening(ip: string, token: string, params: AckParams): seq<Event> {
    [PairAccept(token), ConfigAck(token, params), PairedCall(ip)]
  }

  predicate SessionEvents(ip: string, es: seq<Event>, g: Gate, params: AckParams, denied: seq<Event>, rest: seq<Event>) {
    && Denials(denied)
    && InSession(rest, g.token)
    && es == denied + Opening(ip, g.token, params) + rest
  }

  /** The events of one connection so far and the gate they leave: denials only while no session was
      established; otherwise denials, then one PAIR_ACCEPT, CONFIG_ACK and onPaired call in a row with the
      gate's token, then prefs calls, ping replies to that token, and busy denials. */
  ghost predicate Dialogue(ip: string, es: seq<Event>, g: Gate, params: AckParams) {
    if Established(g) then exists denied, rest :: SessionEvents(ip, es, g, params, denied, rest)
    else Denials(es)
  }

  /** No line boundary lies between a request and its answer. */
  predicate Settled(g: Gate) {
    g.state != AwaitingApproval && GateInv(g)
  }

  // ---------- one request ----------

  /** What a pair request may lead from w to, between lines.  Busy is answered exactly while Paired, which
      includes the gate being Paired with an empty token after the token generator failed. */
  predicate Outcome(h: Host, ip: string, w: World, req: PairRequest, w': World) {
    var t0 := h.clock(w.clockReads);
    var t1 := h.clock(w.clockReads + 1);
    var token := h.gen(w.tokensDrawn);
    && Settled(w'.gate)
    && (w.gate.state == Paired ==> w' == w.(events := w.events + [BUSY]))
    && (w.gate.state == Idle ==> w'.promptsShown == w.promptsShown + 1)
    && (w.gate.state == Idle && !h.prompt(w.promptsShown, req) ==>
          && w'.gate.state == Idle
          && w'.events == w.events + [PairDeny("user_denied")]
          && w'.clockReads == w.clockReads + 1
          && w'.tokensDrawn == w.tokensDrawn)
    && (w.gate.state == Idle && h.prompt(w.promptsShown, req) ==>
          && w'.clockReads == w.clockReads + 2
          && if (t1 - t0) % 0x1_0000_0000_0000_0000 >= 30000 then
               && w'.gate.state == Idle
               && w'.events == w.events + [PairDeny("timeout")]
               && w'.tokensDrawn == w.tokensDrawn
             else
               && w'.gate.state == Paired
               && w'.gate.token == token
               && w'.gate.deviceId == req.deviceId
               && w'.events == w.events + (if token == "" then [PairDeny("timeout")]
                                           else Opening(ip, token, AckInfo(h, w.events)))
               && w'.tokensDrawn == w.tokensDrawn + 1)
  }

  /** All outcomes of a pair request. */
  lemma RequestOutcome(h: Host, ip: string, w: World, req: PairRequest)
    requires Settled(w.gate)
    ensures Outcome(h, ip, w, req, HandlePairRequest(h, ip, w, req))
  {
  }

  lemma CheckSettled(h: Host, w: World, token: Option<string>)
    requires Settled(w.gate)
    ensures Check(h, w, token).0 == w
    ensures Check(h, w, token).1 <==> Established(w.gate) && token == Some(w.gate.token)
  {
  }

  predicate Admits(g: Gate, token: Option<string>) {
    Established(g) && token == Some(g.token)
  }

  /** What one line does, read off the parsed message and the gate: a pair request has one of its outcomes;
      SET_PREFS makes one prefs call and PING gets one reply exactly if the token is that of an established
      session; any other line, and any that does not parse, changes nothing. */
  lemma LineOutcome(h: Host, ip: string, w: World, line: string)
    requires Settled(w.gate)
    ensures var w' := Serve(h, ip, w, [line]);
            if line == "" || h.parse(line).None? then w' == w
            else
              var msg := h.parse(line).value;
              match msg.kind
              case PairRequestKind =>
                if h.asPairRequest(line).None? then w' == w
                else Outcome(h, ip, w, h.asPairRequest(line).value, w')
              case SetPrefsKind =>
                if Admits(w.gate, msg.token) && h.asSetPrefs(line).Some? then
                  w' == w.(events := w.events + [PrefsCall(h.asSetPrefs(line).value)])
                else w' == w
              case PingKind =>
                if Admits(w.gate, msg.token) then
                  w' == w.(clockReads := w.clockReads + 1,
                           events := w.events + [PingReply(w.gate.token, h.clock(w.clockReads))])
                else w' == w
              case DisconnectKind => w' == w
              case OtherKind => w' == w
  {
    hide HandlePairRequest, Check;
    ServeStep(h, ip, w, line, []);
    assert [line] + [] == [line];
    if line != "" && h.parse(line).Some? {
      CheckSettled(h, w, h.parse(line).value.token);
      if h.asPairRequest(line).Some? {
        RequestOutcome(h, ip, w, h.asPairRequest(line).value);
      }
    }
  }

  predicate SetsRate(e: Event) {
    e.PrefsCall? && e.prefs.fps != 0
  }

  /** What CONFIG_ACK says: the configured mode, aspect and size, and the last rate that a prefs call asked
      for, or the configured one if none did. */
  lemma {:induction false} AckContent(h: Host, events: seq<Event>)
    ensures var a := AckInfo(h, events);
            && a.mode == h.config.mode && a.aspect == h.config.aspect
            && a.width == h.config.width && a.height == h.config.height
            && ((forall e :: e in events ==> !SetsRate(e)) ==> a.fps == h.config.fps)
            && (forall j :: 0 <= j < |events| && SetsRate(events[j])
                            && (forall i :: j < i < |events| ==> !SetsRate(events[i])) ==>
                  a.fps == events[j].prefs.fps)
  {
    if events != [] {
      var n := |events| - 1;
      AckContent(h, events[..n]);
      if !SetsRate(events[n]) {
        assert Fps(h.config.fps, events) == Fps(h.config.fps, events[..n]);
        forall j | 0 <= j < |events| && SetsRate(events[j])
                   && (forall i :: j < i < |events| ==> !SetsRate(events[i]))
          ensures Fps(h.config.fps, events) == events[j].prefs.fps
        {
          assert events[..n][j] == events[j];
        }
      }
    }
  }

  lemma {:induction false} DenialsKeepFps(initial: uint32, events: seq<Event>, denied: seq<Event>)
    requires Denials(denied)
    ensures Fps(initial, events + denied) == Fps(initial, events)
  {
    if denied == [] {
      assert events + denied == events;
    } else {
      var n := |denied| - 1;
      assert denied[n] in denied;
      DenialsKeepFps(initial, events, denied[..n]);
      assert (events + denied)[..|events + denied| - 1] == events + denied[..n];
    }
  }

  /** One event more of the kind the dialogue allows. */
  lemma DialogueGrows(ip: string, es: seq<Event>, g: Gate, params: AckParams, e: Event)
    requires Dialogue(ip, es, g, params)
    requires if Established(g) then InSession([e], g.token) else e.PairDeny?
    ensures Dialogue(ip, es + [e], g, params)
  {
    if Established(g) {
      var denied, rest :| SessionEvents(ip, es, g, params, denied, rest);
      assert e in [e];
      assert es + [e] == denied + Opening(ip, g.token, params) + (rest + [e]);
      assert SessionEvents(ip, es + [e], g, params, denied, rest + [e]);
    }
  }

  /** What has happened since the connection began in world w0. */
  ghost predicate Since(h: Host, ip: string, w0: World, w: World) {
    && Settled(w.gate)
    && w0.events <= w.events
    && Dialogue(ip, w.events[|w0.events|..], w.gate, AckInfo(h, w0.events))
  }

  lemma SinceGrows(h: Host, ip: string, w0: World, w: World, w': World, e: Event)
    requires Since(h, ip, w0, w) && w'.gate == w.gate && w'.events == w.events + [e]
    requires if Established(w.gate) then InSession([e], w.gate.token) else e.PairDeny?
    ensures Since(h, ip, w0, w')
  {
    hide Dialogue;
    DialogueGrows(ip, w.events[|w0.events|..], w.gate, AckInfo(h, w0.events), e);
    assert w'.events[|w0.events|..] == w.events[|w0.events|..] + [e];
  }

  lemma RequestKeeps(h: Host, ip: string, w0: World, w: World, req: PairRequest)
    requires Since(h, ip, w0, w)
    ensures Since(h, ip, w0, HandlePairRequest(h, ip, w, req))
  {
    hide HandlePairRequest, AckInfo;
    RequestOutcome(h, ip, w, req);
    var w' := HandlePairRequest(h, ip, w, req);
    var es := w.events[|w0.events|..];
    if w.gate.state == Paired {
      assert BUSY in [BUSY];
      SinceGrows(h, ip, w0, w, w', BUSY);
    } else if w'.gate.state == Paired && w'.gate.token != "" {
      assert w0.events + es == w.events;
      SameAckInfo(h, w0.events, es);
      var token := w'.gate.token;
      var opening := Opening(ip, token, AckInfo(h, w0.events));
      assert w'.events[|w0.events|..] == es + opening + [];
      assert SessionEvents(ip, es + opening + [], w'.gate, AckInfo(h, w0.events), es, []);
    } else {
      var e := w'.events[|w.events|];
      assert w'.events == w.events + [e];
      assert w'.events[|w0.events|..] == es + [e];
    }
  }

  lemma SameAckInfo(h: Host, events: seq<Event>, denied: seq<Event>)
    requires Denials(denied)
    ensures AckInfo(h, events + denied) == AckInfo(h, events)
  {
    DenialsKeepFps(h.config.fps, events, denied);
  }

  lemma LineKeeps(h: Host, ip: string, w0: World, w: World, line: string)
    requires Since(h, ip, w0, w)
    ensures Since(h, ip, w0, HandleLine(h, ip, w, line).0)
  {
    hide HandlePairRequest, Check, Dialogue;
    if line != "" && h.parse(line).Some? {
      var msg := h.parse(line).value;
      var w' := HandleLine(h, ip, w, line).0;
      match msg.kind
      case PairRequestKind =>
        if h.asPairRequest(line).Some? {
          RequestKeeps(h, ip, w0, w, h.asPairRequest(line).value);
        }
      case SetPrefsKind =>
        CheckSettled(h, w, msg.token);
        if Check(h, w, msg.token).1 && h.asSetPrefs(line).Some? {
          SinceGrows(h, ip, w0, w, w', PrefsCall(h.asSetPrefs(line).value));
        }
      case PingKind =>
        CheckSettled(h, w, msg.token);
        if Check(h, w, msg.token).1 {
          SinceGrows(h, ip, w0, w, w', PingReply(msg.token.value, h.clock(w.clockReads)));
        }
      case _ =>
    }
  }

  lemma {:induction false} LinesKeep(h: Host, ip: string, w0: World, w: World, lines: seq<string>)
    requires Since(h, ip, w0, w)
    ensures Since(h, ip, w0, Serve(h, ip, w, lines))
    decreases |lines|
  {
    hide HandleLine, Since;
    if lines != [] {
      LineKeeps(h, ip, w0, w, lines[0]);
      LinesKeep(h, ip, w0, HandleLine(h, ip, w, lines[0]).0, lines[1..]);
    }
  }

  // ---------- connections ----------

  /** A clean slate: as constructed, and as every served connection leaves it. */
  predicate Fresh(w: World) {
    w.gate.state == Idle && w.gate.token == "" && w.gate.deviceId == ""
  }

  /** Whatever the client sends: at every line boundary of a connection the gate is settled, and its events
      so far are a dialogue, in which CONFIG_ACK carries the frame rate of the latest prefs call with a
      rate in earlier sessions. */
  lemma ConnectionDialogue(h: Host, ip: string, w0: World, lines: seq<string>)
    requires Fresh(w0)
    ensures Since(h, ip, w0, Serve(h, ip, w0, lines))
  {
    assert w0.events[|w0.events|..] == [];
    LinesKeep(h, ip, w0, w0, lines);
  }

  /** Every served connection adds its dialogue and then exactly one onUnpaired call, and leaves a clean
      slate; a peer outside the LAN changes nothing. */
  lemma ClientEvents(h: Host, w: World, c: Client) returns (es: seq<Event>, g: Gate)
    requires Fresh(w)
    ensures Fresh(ServeOne(h, w, c))
    ensures !IsPrivateIPv4(c.peer) ==> ServeOne(h, w, c) == w
    ensures IsPrivateIPv4(c.peer) ==>
              && ServeOne(h, w, c).events == w.events + es + [UnpairedCall]
              && Dialogue(PrintAddress(c.peer), es, g, AckInfo(h, w.events))
  {
    hide IsPrivateIPv4, Serve, Dialogue, PrintAddress, Lines, Concat;
    var ip := PrintAddress(c.peer);
    var lines := Lines(Concat(c.segments));
    ConnectionDialogue(h, ip, w, lines);
    var w' := Serve(h, ip, w, lines);
    es, g := w'.events[|w.events|..], w'.gate;
    assert w'.events == w.events + es;
  }

  lemma ConcatOne(s: string)
    ensures Concat([s]) == s
  {
    assert [s][1..] == [];
    assert Concat([s]) == s + "";
  }

  /** Concat puts the segments one behind the other. */
  lemma {:induction false} ConcatPieces(a: seq<string>, b: seq<string>)
    ensures Concat(a + b) == Concat(a) + Concat(b)
  {
    if a == [] {
      assert a + b == b;
    } else {
      ConcatPieces(a[1..], b);
      assert (a + b)[1..] == a[1..] + b;
      assert (a + b)[0] == a[0];
      Reassociate(a[0], Concat(a[1..]), Concat(b));
    }
  }

  /** A client of the LAN is served the lines of what it sends, however that is cut into segments, under its
      dotted address, and then onUnpaired is called. */
  lemma ClientIsServed(h: Host, w: World, c: Client, lines: seq<string>, rest: string)
    requires IsPrivateIPv4(c.peer)
    requires '\n' !in rest && forall l :: l in lines ==> '\n' !in l
    requires Concat(c.segments) == Terminated(lines) + rest
    ensures ServeOne(h, w, c).events == Serve(h, PrintAddress(c.peer), w, lines).events + [UnpairedCall]
  {
    hide Serve, IsPrivateIPv4, PrintAddress;
    LinesUnique(Concat(c.segments), lines, rest);
  }

  function Start(): World {
    World(INITIAL, 0, 0, 0, [])
  }

  lemma {:induction false} AlwaysFresh(h: Host, clients: seq<Client>)
    ensures Fresh(ServeAll(h, Start(), clients))
  {
    hide ServeOne;
    if clients != [] {
      AlwaysFresh(h, clients[..|clients| - 1]);
      var es, g := ClientEvents(h, ServeAll(h, Start(), clients[..|clients| - 1]), clients[|clients| - 1]);
    }
  }

  function CountPaired(es: seq<Event>): nat {
    if es == [] then 0 else CountPaired(es[..|es| - 1]) + if es[|es| - 1].PairedCall? then 1 else 0
  }

  function CountUnpaired(es: seq<Event>): nat {
    if es == [] then 0 else CountUnpaired(es[..|es| - 1]) + if es[|es| - 1].UnpairedCall? then 1 else 0
  }

  lemma {:induction false} CountsAdd(a: seq<Event>, b: seq<Event>)
    ensures CountPaired(a + b) == CountPaired(a) + CountPaired(b)
    ensures CountUnpaired(a + b) == CountUnpaired(a) + CountUnpaired(b)
  {
    if b == [] {
      assert a + b == a;
    } else {
      CountsAdd(a, b[..|b| - 1]);
      assert (a + b)[..|a + b| - 1] == a + b[..|b| - 1];
    }
  }

  lemma {:induction false} NoCalls(es: seq<Event>)
    requires forall e :: e in es ==> !e.PairedCall? && !e.UnpairedCall?
    ensures CountPaired(es) == 0 && CountUnpaired(es) == 0
  {
    if es != [] {
      NoCalls(es[..|es| - 1]);
      assert es[|es| - 1] in es;
    }
  }

  /** A connection makes one onPaired call if it established a session and none otherwise. */
  lemma DialogueCalls(ip: string, es: seq<Event>, g: Gate, params: AckParams)
    requires Dialogue(ip, es, g, params)
    ensures CountPaired(es) == if Established(g) then 1 else 0
    ensures CountUnpaired(es) == 0
  {
    if Established(g) {
      var denied, rest :| SessionEvents(ip, es, g, params, denied, rest);
      NoCalls(denied);
      NoCalls(rest);
      CountsAdd(denied + Opening(ip, g.token, params), rest);
      CountsAdd(denied, Opening(ip, g.token, params));
      OpeningCalls(ip, g.token, params);
    } else {
      NoCalls(es);
    }
  }

  lemma OpeningCalls(ip: string, token: string, params: AckParams)
    ensures CountPaired(Opening(ip, token, params)) == 1 && CountUnpaired(Opening(ip, token, params)) == 0
  {
    var o := Opening(ip, token, params);
    assert o == [o[0], o[1]] + [o[2]];
    CountsAdd([o[0], o[1]], [o[2]]);
    NoCalls([o[0], o[1]]);
    assert CountPaired([o[2]]) == CountPaired([o[2]][..0]) + 1;
    assert CountUnpaired([o[2]]) == CountUnpaired([o[2]][..0]);
  }

  /** Over any sequence of clients: onUnpaired is called once per served connection and onPaired at most
      as often. */
  lemma {:induction false} CallsBalance(h: Host, clients: seq<Client>)
    ensures var es := ServeAll(h, Start(), clients).events;
            && CountPaired(es) <= CountUnpaired(es)
            && CountUnpaired(es) == |Served(clients)|
  {
    hide IsPrivateIPv4, ServeOne, Dialogue;
    if clients != [] {
      var before, c := clients[..|clients| - 1], clients[|clients| - 1];
      CallsBalance(h, before);
      AlwaysFresh(h, before);
      var w := ServeAll(h, Start(), before);
      var es, g := ClientEvents(h, w, c);
      if IsPrivateIPv4(c.peer) {
        DialogueCalls(PrintAddress(c.peer), es, g, AckInfo(h, w.events));
        CountsAdd(w.events + es, [UnpairedCall]);
        CountsAdd(w.events, es);
        assert [UnpairedCall][..0] == [];
        assert CountPaired([UnpairedCall]) == 0 && CountUnpaired([UnpairedCall]) == 1;
      }
    }
  }

  function Served(clients: seq<Client>): seq<Client> {
    if clients == [] then []
    else
      var before := Served(clients[..|clients| - 1]);
      if IsPrivateIPv4(clients[|clients| - 1].peer) then before + [clients[|clients| - 1]] else before
  }

  // ---------- denial and disconnect ----------

  predicate Disconnects(h: Host, line: string) {
    line != "" && h.parse(line).Some? && h.parse(line).value.kind.DisconnectKind?
  }

  ghost predicate SomeDisconnect(h: Host, lines: seq<string>) {
    exists l :: l in lines && Disconnects(h, l)
  }

  lemma LineEnds(h: Host, ip: string, w: World, line: string)
    ensures HandleLine(h, ip, w, line).1 <==> !Disconnects(h, line)
  {
  }

  /** DISCONNECT is the only line that ends a connection: with one among the lines nothing behind them is
      looked at, and without one every later line is. */
  lemma {:induction false} OnlyDisconnectEnds(h: Host, ip: string, w: World, lines: seq<string>, more: seq<string>)
    ensures Serve(h, ip, w, lines + more)
         == if SomeDisconnect(h, lines) then Serve(h, ip, w, lines) else Serve(h, ip, Serve(h, ip, w, lines), more)
    decreases |lines|
  {
    hide HandleLine, Disconnects;
    if lines == [] {
      assert lines + more == more;
    } else {
      LineEnds(h, ip, w, lines[0]);
      assert (lines + more)[1..] == lines[1..] + more;
      assert forall l :: l in lines <==> l == lines[0] || l in lines[1..];
      OnlyDisconnectEnds(h, ip, HandleLine(h, ip, w, lines[0]).0, lines[1..], more);
    }
  }

  predicate Asks(h: Host, line: string) {
    && line != "" && h.parse(line).Some? && h.parse(line).value.kind.PairRequestKind?
    && h.asPairRequest(line).Some?
  }

  /** A denial by the user keeps the connection: the same client may ask any number of times, and is prompted
      for each time. */
  lemma {:induction false} DeniedMayAskAgain(h: Host, ip: string, w: World, lines: seq<string>)
    requires Settled(w.gate) && w.gate.state == Idle
    requires forall l :: l in lines ==> Asks(h, l)
    requires forall n: nat, req :: w.promptsShown <= n < w.promptsShown + |lines| ==> !h.prompt(n, req)
    ensures var w' := Serve(h, ip, w, lines);
            && w'.gate.state == Idle
            && w'.promptsShown == w.promptsShown + |lines|
            && w'.events == w.events + seq(|lines|, _ => PairDeny("user_denied"))
    decreases |lines|
  {
    if lines != [] {
      assert lines[0] in lines;
      var w' := HandleLine(h, ip, w, lines[0]).0;
      RequestOutcome(h, ip, w, h.asPairRequest(lines[0]).value);
      DeniedMayAskAgain(h, ip, w', lines[1..]);
      var no := PairDeny("user_denied");
      assert w.events + [no] + seq(|lines| - 1, _ => no) == w.events + seq(|lines|, _ => no);
    }
  }

  // ---------- a failing token generator ----------

  /** When the generator returns nothing the gate fails closed: it is Paired with an empty token, and until
      the client leaves, every line is answered by at most a busy denial. */
  lemma {:induction false} EmptyTokenLocksOut(h: Host, ip: string, w: World, lines: seq<string>) returns (n: nat)
    requires w.gate.state == Paired && w.gate.token == ""
    ensures Serve(h, ip, w, lines).gate == w.gate
    ensures Serve(h, ip, w, lines).events == w.events + seq(n, _ => BUSY)
    decreases |lines|
  {
    n := 0;
    assert w.events + seq(0, _ => BUSY) == w.events;
    if lines != [] {
      var (w', more) := HandleLine(h, ip, w, lines[0]);
      var k := LineLockedOut(h, ip, w, lines[0]);
      if more {
        var m := EmptyTokenLocksOut(h, ip, w', lines[1..]);
        n := k + m;
        assert seq(k, _ => BUSY) + seq(m, _ => BUSY) == seq(n, _ => BUSY);
        assert w.events + seq(k, _ => BUSY) + seq(m, _ => BUSY) == w.events + (seq(k, _ => BUSY) + seq(m, _ => BUSY));
      } else {
        n := k;
      }
    }
  }

  lemma LineLockedOut(h: Host, ip: string, w: World, line: string) returns (k: nat)
    requires w.gate.state == Paired && w.gate.token == ""
    ensures HandleLine(h, ip, w, line).0.gate == w.gate
    ensures HandleLine(h, ip, w, line).0.events == w.events + seq(k, _ => BUSY)
  {
    var w' := HandleLine(h, ip, w, line).0;
    if w'.events == w.events {
      k := 0;
    } else {
      k := 1;
      assert seq(1, _ => BUSY) == [BUSY];
    }
  }
}
