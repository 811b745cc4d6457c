/** The agent's JSON-RPC client and server (internal/agent/client.go, internal/agent/server.go)
    as interleaved steps: callers queue on the client's mutex, one server loop runs per
    connection, sends and reads may fail at any point, and the client never compares IDs. */
module AgentRpc {
  import opened Text

  datatype Request = Request(version: string, name: string, params: string, id: int)
  datatype Response = Result(value: string, id: int) | Error(code: int, message: string, id: int)
  datatype Outcome = Value(value: string) | HandlerError(message: string)

  /** Server.dispatch, given what the handler would answer. */
  function Dispatch(handlers: set<string>, req: Request, outcome: Outcome): (r: Response)
    ensures r.id == req.id
    ensures r.Result? <==> req.version == "2.0" && req.name in handlers && outcome.Value?
    ensures r.Error? && r.code == -32600 <==> req.version != "2.0"
    ensures r.Error? && r.code == -32601 <==> req.version == "2.0" && req.name !in handlers
    ensures r.Error? && r.code == -32000 <==> req.version == "2.0" && req.name in handlers && r.Error? && outcome == HandlerError(r.message)
  {
    if req.version != "2.0" then Error(-32600, "invalid JSON-RPC version", req.id)
    else if req.name !in handlers then Error(-32601, "method not found: " + req.name, req.id)
    else match outcome
      case Value(v) => Result(v, req.id)
      case HandlerError(m) => Error(-32000, m, req.id)
  }

  /** Where the server loop of a connection is; `Gone` once it has returned. */
  datatype Loop = Reading | Handling(req: Request) | Replying(resp: Response) | Gone
  datatype Conn = Conn(toServer: seq<Request>, loop: Loop, toClient: seq<Response>)

  /** The caller inside the client's mutex; `sent` once its request is written. */
  datatype Holder = Holder(who: int, name: string, params: string, sent: Option<Request>)

  // History: every dispatch with the handler's outcome, and every call that came back.
  datatype Dispatched = Dispatched(req: Request, outcome: Outcome, resp: Response)
  datatype Finished = Returned(who: int, name: string, params: string, id: int, value: string) | Failed(who: int)

  datatype State = State(
    handlers: set<string>, conns: seq<Conn>, current: Option<nat>, nextId: int,
    holder: Option<Holder>, log: seq<Dispatched>, done: seq<Finished>)

  datatype Action =
    | Register(name: string)
    | Lock(who: int, name: string, params: string)
    | Dial(ok: bool)
    | MarshalFails
    | Send(delivered: bool, ok: bool)
    | Receive
    | ReceiveFails
    | CloseClient
    | ServerReads(c: nat)
    | ServerHandles(c: nat, outcome: Outcome)
    | ServerReplies(c: nat, delivered: bool, ok: bool)
    | ServerEnds(c: nat)
    | Breaks(c: nat)

  function Finish(s: State, f: Finished): State { s.(holder := None, done := s.done + [f]) }

  /** Client.close, then the caller's error return. */
  function CloseAndFail(s: State, who: int): State { Finish(s.(current := None), Failed(who)) }

  predicate Ready(s: State) {
    s.holder.Some? && s.holder.value.sent.None? && s.current.Some? && s.current.value < |s.conns|
  }

  predicate Waiting(s: State) {
    s.holder.Some? && s.holder.value.sent.Some? && s.current.Some? && s.current.value < |s.conns|
  }

  function Deliver(s: State, req: Request): State
    requires s.current.Some? && s.current.value < |s.conns|
  {
    var c := s.current.value;
    s.(conns := s.conns[c := s.conns[c].(toServer := s.conns[c].toServer + [req])])
  }

  /** One step; an action that is not enabled changes nothing. */
  function Next(s: State, a: Action): State {
    match a
    case Register(name) => s.(handlers := s.handlers + {name})
    case Lock(who, name, params) => if s.holder.None? then s.(holder := Some(Holder(who, name, params, None))) else s
    case Dial(ok) =>
      if s.holder.None? || s.current.Some? then s
      else if ok then s.(conns := s.conns + [Conn([], Reading, [])], current := Some(|s.conns|))
      else Finish(s, Failed(s.holder.value.who))
    case MarshalFails => if Ready(s) then Finish(s.(nextId := s.nextId + 1), Failed(s.holder.value.who)) else s
    case Send(delivered, ok) =>
      if !Ready(s) then s else
        var h := s.holder.value;
        var req := Request("2.0", h.name, h.params, s.nextId + 1);
        var s1 := s.(nextId := s.nextId + 1);
        var s2 := if delivered then Deliver(s1, req) else s1;
        if ok then s2.(holder := Some(h.(sent := Some(req)))) else CloseAndFail(s2, h.who)
    case Receive =>
      if !Waiting(s) || s.conns[s.current.value].toClient == [] then s else
        var h, c := s.holder.value, s.current.value;
        var resp := s.conns[c].toClient[0];
        var s1 := s.(conns := s.conns[c := s.conns[c].(toClient := s.conns[c].toClient[1..])]);
        (match resp
         case Error(_, _, _) => Finish(s1, Failed(h.who))
         case Result(v, _) => Finish(s1, Returned(h.who, h.name, h.params, h.sent.value.id, v)))
    case ReceiveFails => if Waiting(s) then CloseAndFail(s, s.holder.value.who) else s
    case CloseClient => if s.holder.None? then s.(current := None) else s
    case ServerReads(c) =>
      if c < |s.conns| && s.conns[c].loop.Reading? && s.conns[c].toServer != [] then
        s.(conns := s.conns[c := s.conns[c].(toServer := s.conns[c].toServer[1..], loop := Handling(s.conns[c].toServer[0]))])
      else s
    case ServerHandles(c, outcome) =>
      if c < |s.conns| && s.conns[c].loop.Handling? then
        var req := s.conns[c].loop.req;
        var resp := Dispatch(s.handlers, req, outcome);
        s.(conns := s.conns[c := s.conns[c].(loop := Replying(resp))], log := s.log + [Dispatched(req, outcome, resp)])
      else s
    case ServerReplies(c, delivered, ok) =>
      if c < |s.conns| && s.conns[c].loop.Replying? then
        var k := s.conns[c];
        s.(conns := s.conns[c := k.(loop := if ok then Reading else Gone, toClient := if delivered then k.toClient + [k.loop.resp] else k.toClient)])
      else s
    case ServerEnds(c) =>
      if c < |s.conns| && s.conns[c].loop.Reading? then s.(conns := s.conns[c := s.conns[c].(loop := Gone)]) else s
    case Breaks(c) =>
      if c < |s.conns| then s.(conns := s.conns[c := Conn([], Gone, [])]) else s
  }

  function Init(): State { State({}, [], None, 0, None, [], []) }

  function Run(s: State, actions: seq<Action>): State {
    if actions == [] then s else Next(Run(s, actions[..|actions| - 1]), actions[|actions| - 1])
  }

  // ---------- The invariant ----------

  /** The request a connection still has to dispatch, if any. */
  function Undispatched(k: Conn): Option<Request> {
    if k.toServer != [] then Some(k.toServer[0]) else if k.loop.Handling? then Some(k.loop.req) else None
  }

  predicate Idle(k: Conn) { k.toServer == [] && k.toClient == [] && (k.loop.Reading? || k.loop.Gone?) }

  /** The request's own dispatch produced this response. */
  ghost predicate Answers(log: seq<Dispatched>, req: Request, resp: Response) {
    exists i :: 0 <= i < |log| && log[i].req == req && log[i].resp == resp
  }

  /** At most one message travels on a connection, and it belongs to `req`. */
  ghost predicate Carries(log: seq<Dispatched>, k: Conn, req: Request) {
    || Idle(k)
    || (k.toServer == [req] && k.toClient == [] && (k.loop.Reading? || k.loop.Gone?))
    || (k.toServer == [] && k.toClient == [] && k.loop == Handling(req))
    || (k.toServer == [] && k.toClient == [] && k.loop.Replying? && Answers(log, req, k.loop.resp))
    || (k.toServer == [] && |k.toClient| == 1 && Answers(log, req, k.toClient[0]) && (k.loop.Reading? || k.loop.Gone?))
  }

  /** The live connection is quiet, or carries only what the waiting caller sent. */
  ghost predicate LiveConn(s: State) {
    s.current.Some? ==>
      && s.current.value < |s.conns|
      && var k := s.conns[s.current.value];
         if s.holder.Some? && s.holder.value.sent.Some? then Carries(s.log, k, s.holder.value.sent.value) else Idle(k)
  }

  ghost predicate HolderSane(s: State) {
    s.holder.Some? && s.holder.value.sent.Some? ==>
      && s.current.Some?
      && s.holder.value.sent.value == Request("2.0", s.holder.value.name, s.holder.value.params, s.holder.value.sent.value.id)
  }

  ghost predicate ConnSane(s: State, k: Conn) {
    && |k.toServer| <= 1 && (k.toServer != [] ==> !k.loop.Handling? && !k.loop.Replying?)
    && var u := Undispatched(k); u.Some? ==> u.value.id <= s.nextId && forall i :: 0 <= i < |s.log| ==> s.log[i].req.id != u.value.id
  }

  ghost predicate DispatchOnce(s: State) {
    && (forall i, j :: 0 <= i < j < |s.log| ==> s.log[i].req.id != s.log[j].req.id)
    && (forall i :: 0 <= i < |s.log| ==> s.log[i].req.id <= s.nextId)
    && (forall c :: 0 <= c < |s.conns| ==> ConnSane(s, s.conns[c]))
    && (forall c, d :: 0 <= c < d < |s.conns| && Undispatched(s.conns[c]).Some? && Undispatched(s.conns[d]).Some? ==>
          Undispatched(s.conns[c]).value.id != Undispatched(s.conns[d]).value.id)
  }

  /** A returned value is the handler's own answer to that very request. */
  ghost predicate OwnResult(log: seq<Dispatched>, f: Finished) {
    f.Returned? ==>
      exists i :: 0 <= i < |log| && log[i] == Dispatched(Request("2.0", f.name, f.params, f.id), Value(f.value), Result(f.value, f.id))
  }

  ghost predicate Genuine(d: Dispatched) { exists handlers :: d.resp == Dispatch(handlers, d.req, d.outcome) }

  ghost predicate LogSane(log: seq<Dispatched>) { forall i :: 0 <= i < |log| ==> Genuine(log[i]) }

  ghost predicate OwnResults(s: State) { forall i :: 0 <= i < |s.done| ==> OwnResult(s.log, s.done[i]) }

  ghost predicate Inv(s: State) {
    LiveConn(s) && HolderSane(s) && DispatchOnce(s) && LogSane(s.log) && OwnResults(s)
  }

  // ---------- Preservation, clause by clause ----------

  lemma LogGrows(log: seq<Dispatched>, more: seq<Dispatched>)
    ensures forall req, resp :: Answers(log, req, resp) ==> Answers(log + more, req, resp)
    ensures forall f :: OwnResult(log, f) ==> OwnResult(log + more, f)
  {
    forall req, resp | Answers(log, req, resp) ensures Answers(log + more, req, resp) {
      var i :| 0 <= i < |log| && log[i].req == req && log[i].resp == resp;
      assert (log + more)[i] == log[i];
    }
    forall f | OwnResult(log, f) ensures OwnResult(log + more, f) {
      if f.Returned? {
        var i :| 0 <= i < |log| && log[i] == Dispatched(Request("2.0", f.name, f.params, f.id), Value(f.value), Result(f.value, f.id));
        assert (log + more)[i] == log[i];
      }
    }
  }

  lemma LiveConnStep(s: State, a: Action)
    requires Inv(s)
    ensures LiveConn(Next(s, a))
  {
    var s' := Next(s, a);
    if a.ServerHandles? && a.c < |s.conns| && s.conns[a.c].loop.Handling? {
      var req := s.conns[a.c].loop.req;
      var entry := s'.log[|s.log|];
      LogGrows(s.log, [entry]);
      assert Answers(s'.log, req, entry.resp);
    }
  }

  lemma HolderSaneStep(s: State, a: Action)
    requires Inv(s)
    ensures HolderSane(Next(s, a))
  {}

  lemma LogSaneStep(s: State, a: Action)
    requires Inv(s)
    ensures LogSane(Next(s, a).log)
  {
    var s' := Next(s, a);
    if |s'.log| > |s.log| {
      var d := s'.log[|s.log|];
      assert d.resp == Dispatch(s.handlers, d.req, d.outcome);
      assert Genuine(d) && s'.log == s.log + [d];
    }
  }

  lemma OwnResultsStep(s: State, a: Action)
    requires Inv(s)
    ensures OwnResults(Next(s, a))
  {
    var s' := Next(s, a);
    if a.ServerHandles? {
      LogGrows(s.log, s'.log[|s.log|..]);
      assert s'.log == s.log + s'.log[|s.log|..];
    } else if a.Receive? && Waiting(s) && s.conns[s.current.value].toClient != [] {
      var req, resp := s.holder.value.sent.value, s.conns[s.current.value].toClient[0];
      assert Answers(s.log, req, resp);
      var i :| 0 <= i < |s.log| && s.log[i].req == req && s.log[i].resp == resp;
      assert resp.Result? ==> s.log[i].outcome == Value(resp.value) && resp.id == req.id;
      var f := s'.done[|s.done|];
      assert OwnResult(s.log, f);
      assert s'.done == s.done + [f];
    }
  }

  /** A dispatch moves the connection's own request into the log. */
  lemma DispatchOnceHandles(s: State, c: nat, outcome: Outcome)
    requires DispatchOnce(s) && c < |s.conns| && s.conns[c].loop.Handling?
    ensures DispatchOnce(Next(s, ServerHandles(c, outcome)))
  {
    var s', k := Next(s, ServerHandles(c, outcome)), s.conns[c];
    assert ConnSane(s, k);
    forall d | 0 <= d < |s.conns| ensures ConnSane(s', s'.conns[d]) {
      assert ConnSane(s, s.conns[d]);
      if d != c && Undispatched(s.conns[d]).Some? {
        assert Undispatched(s.conns[d]).value.id != Undispatched(k).value.id;
      }
    }
  }

  /** Any other server step keeps, or loses, what a connection has to dispatch. */
  lemma DispatchOnceServer(s: State, s': State, c: nat, k: Conn)
    requires DispatchOnce(s) && c < |s.conns| && s' == s.(conns := s.conns[c := k])
    requires ConnSane(s, s.conns[c]) ==> ConnSane(s, k)
    requires Undispatched(k).Some? ==> Undispatched(k) == Undispatched(s.conns[c])
    ensures DispatchOnce(s')
  {
    forall d | 0 <= d < |s.conns| ensures ConnSane(s', s'.conns[d]) {
      assert ConnSane(s, s.conns[d]);
    }
  }

  lemma DispatchOnceConn(s: State, a: Action)
    requires DispatchOnce(s) && (a.ServerReads? || a.ServerReplies? || a.ServerEnds? || a.Breaks?)
    ensures DispatchOnce(Next(s, a))
  {
    if a.c < |s.conns| {
      var k := Next(s, a).conns[a.c];
      assert Next(s, a) == s.(conns := s.conns[a.c := k]);
      DispatchOnceServer(s, Next(s, a), a.c, k);
    }
  }

  /** A delivered request has a fresh ID and enters an idle connection. */
  lemma DispatchOnceSend(s: State, delivered: bool, ok: bool)
    requires Inv(s) && Ready(s)
    ensures DispatchOnce(Next(s, Send(delivered, ok)))
  {
    var s', c := Next(s, Send(delivered, ok)), s.current.value;
    assert s'.log == s.log && s'.nextId == s.nextId + 1 && |s'.conns| == |s.conns|;
    assert forall d :: 0 <= d < |s.conns| && d != c ==> s'.conns[d] == s.conns[d];
    assert Undispatched(s'.conns[c]).Some? ==> Undispatched(s'.conns[c]).value.id == s.nextId + 1;
    forall d | 0 <= d < |s'.conns| ensures ConnSane(s', s'.conns[d]) {
      assert ConnSane(s, s.conns[d]);
    }
    assert forall d :: 0 <= d < |s.conns| && d != c && Undispatched(s'.conns[d]).Some? ==> Undispatched(s'.conns[d]).value.id <= s.nextId;
  }

  lemma DispatchOnceQuiet(s: State, s': State)
    requires DispatchOnce(s) && s'.log == s.log && s.nextId <= s'.nextId
    requires |s.conns| <= |s'.conns|
    requires forall d :: 0 <= d < |s.conns| ==> s'.conns[d].toServer == s.conns[d].toServer && s'.conns[d].loop == s.conns[d].loop
    requires forall d :: |s.conns| <= d < |s'.conns| ==> Idle(s'.conns[d])
    ensures DispatchOnce(s')
  {
    forall d | 0 <= d < |s'.conns| ensures ConnSane(s', s'.conns[d]) {
      if d < |s.conns| { assert ConnSane(s, s.conns[d]); }
    }
  }

  lemma DispatchOnceStep(s: State, a: Action)
    requires Inv(s)
    ensures DispatchOnce(Next(s, a))
  {
    match a
    case ServerHandles(c, outcome) => if c < |s.conns| && s.conns[c].loop.Handling? { DispatchOnceHandles(s, c, outcome); }
    case ServerReads(_) => DispatchOnceConn(s, a);
    case ServerReplies(_, _, _) => DispatchOnceConn(s, a);
    case ServerEnds(_) => DispatchOnceConn(s, a);
    case Breaks(_) => DispatchOnceConn(s, a);
    case Send(delivered, ok) => if Ready(s) { DispatchOnceSend(s, delivered, ok); }
    case _ => DispatchOnceQuiet(s, Next(s, a));
  }

  lemma InvStep(s: State, a: Action)
    requires Inv(s)
    ensures Inv(Next(s, a))
  {
    LiveConnStep(s, a);
    HolderSaneStep(s, a);
    LogSaneStep(s, a);
    OwnResultsStep(s, a);
    DispatchOnceStep(s, a);
  }

  lemma {:induction false} RunKeepsInv(s: State, actions: seq<Action>)
    requires Inv(s)
    ensures Inv(Run(s, actions))
    decreases |actions|
  {
    if actions != [] {
      var n := |actions| - 1;
      RunKeepsInv(s, actions[..n]);
      InvStep(Run(s, actions[..n]), actions[n]);
    }
  }

  /** Every call that returns a value returns what the handler answered to its own request,
      which the server dispatched exactly once, and the unread response ID was the request's. */
  lemma CallsGetOwnResult(actions: seq<Action>, n: nat)
    requires var s := Run(Init(), actions); n < |s.done| && s.done[n].Returned?
    ensures var s := Run(Init(), actions); var f := s.done[n];
            exists i :: (
              && 0 <= i < |s.log|
              && s.log[i] == Dispatched(Request("2.0", f.name, f.params, f.id), Value(f.value), Result(f.value, f.id))
              && forall j :: 0 <= j < |s.log| && j != i ==> s.log[j].req.id != f.id)
  {
    RunKeepsInv(Init(), actions);
    var s := Run(Init(), actions);
    var f := s.done[n];
    assert OwnResult(s.log, f);
    var i :| 0 <= i < |s.log| && s.log[i] == Dispatched(Request("2.0", f.name, f.params, f.id), Value(f.value), Result(f.value, f.id));
  }

  /** Across callers, timeouts and reconnects no request is dispatched twice. */
  lemma DispatchedAtMostOnce(actions: seq<Action>, i: nat, j: nat)
    requires i < j < |Run(Init(), actions).log|
    ensures Run(Init(), actions).log[i].req.id != Run(Init(), actions).log[j].req.id
  {
    RunKeepsInv(Init(), actions);
  }

  // ---------- The client's and the server's own code ----------

  lemma RunSnoc(s: State, actions: seq<Action>, a: Action)
    ensures Run(s, actions + [a]) == Next(Run(s, actions), a)
  {
    assert (actions + [a])[..|actions|] == actions;
  }

  lemma {:induction false} RunConcat(s: State, xs: seq<Action>, ys: seq<Action>)
    ensures Run(s, xs + ys) == Run(Run(s, xs), ys)
    decreases |ys|
  {
    if ys == [] {
      assert xs + ys == xs;
    } else {
      var n := |ys| - 1;
      assert (xs + ys)[..|xs + ys| - 1] == xs + ys[..n];
      RunConcat(s, xs, ys[..n]);
    }
  }

  /** What can happen while a caller holds the client's mutex. */
  predicate ServerSide(actions: seq<Action>) {
    forall i :: 0 <= i < |actions| ==>
      var a := actions[i]; a.Register? || a.ServerReads? || a.ServerHandles? || a.ServerReplies? || a.ServerEnds? || a.Breaks?
  }

  lemma {:induction false} ServerSideKeepsClient(s: State, actions: seq<Action>)
    requires ServerSide(actions)
    ensures var e := Run(s, actions);
            e.holder == s.holder && e.current == s.current && e.nextId == s.nextId && e.done == s.done && |e.conns| == |s.conns|
    decreases |actions|
  {
    if actions != [] { ServerSideKeepsClient(s, actions[..|actions| - 1]); }
  }

  /** How each fallible step of one Call ends, and what the server does while it waits. */
  datatype CallIO = CallIO(dial: bool, marshal: bool, delivered: bool, send: bool, waiting: seq<Action>, read: bool)

  predicate Sends(s: State, io: CallIO) { (s.current.Some? || io.dial) && io.marshal && io.send }

  /** A call's steps up to its request; Dial does nothing when there is a connection. */
  function SendSteps(s: State, who: int, name: string, params: string, io: CallIO): seq<Action> {
    var start := [Lock(who, name, params), Dial(io.dial)];
    if s.current.None? && !io.dial then start
    else start + [if io.marshal then Send(io.delivered, io.send) else MarshalFails]
  }

  /** The rest: a read finds a response or fails at the deadline. */
  function AwaitSteps(io: CallIO): seq<Action> {
    io.waiting + (if io.read then [Receive] else []) + [ReceiveFails]
  }

  function CallSteps(s: State, who: int, name: string, params: string, io: CallIO): seq<Action> {
    SendSteps(s, who, name, params, io) + if Sends(s, io) then AwaitSteps(io) else []
  }

  lemma StartSteps(s: State, who: int, name: string, params: string, dial: bool, last: Action)
    requires s.holder.None?
    ensures var start := [Lock(who, name, params), Dial(dial)];
            && Run(s, start) == Next(s.(holder := Some(Holder(who, name, params, None))), Dial(dial))
            && Run(s, start + [last]) == Next(Run(s, start), last)
  {
    var lock, dials := Lock(who, name, params), Dial(dial);
    assert [lock] == [] + [lock] && [lock, dials] == [lock] + [dials];
    RunSnoc(s, [], lock);
    RunSnoc(s, [lock], dials);
    RunSnoc(s, [lock, dials], last);
  }

  /** One round of a server loop: what others do before its read ends, and how its steps end. */
  datatype Turn = Turn(others: seq<Action>, read: bool, outcome: Outcome, delivered: bool, reply: bool)

  predicate LeavesLoop(actions: seq<Action>, c: nat) {
    forall i :: 0 <= i < |actions| ==>
      var a := actions[i]; a.ServerReads? || a.ServerHandles? || a.ServerReplies? || a.ServerEnds? ==> a.c != c
  }

  lemma OtherLeavesLoop(s: State, a: Action, c: nat)
    requires c < |s.conns| && LeavesLoop([a], c)
    ensures var e := Next(s, a); c < |e.conns| && (e.conns[c].loop == s.conns[c].loop || e.conns[c].loop.Gone?)
  {
    assert [a][0] == a;
  }

  lemma {:induction false} OthersLeaveLoop(s: State, actions: seq<Action>, c: nat)
    requires LeavesLoop(actions, c) && c < |s.conns|
    ensures var e := Run(s, actions); c < |e.conns| && (e.conns[c].loop == s.conns[c].loop || e.conns[c].loop.Gone?)
    decreases |actions|
  {
    hide Next;
    if actions != [] {
      var n := |actions| - 1;
      OthersLeaveLoop(s, actions[..n], c);
      OtherLeavesLoop(Run(s, actions[..n]), actions[n], c);
    }
  }

  /** A round that read nothing handles and answers nothing. */
  function Round(c: nat, t: Turn): seq<Action> {
    [if t.read then ServerReads(c) else ServerEnds(c), ServerHandles(c, t.outcome), ServerReplies(c, t.delivered, t.reply)]
  }

  function Rounds(c: nat, turns: seq<Turn>): seq<Action> {
    if turns == [] then []
    else Rounds(c, turns[..|turns| - 1]) + (turns[|turns| - 1].others + Round(c, turns[|turns| - 1]))
  }

  lemma RoundRun(s: State, c: nat, t: Turn)
    ensures var r := Round(c, t); Run(s, r) == Next(Next(Next(s, r[0]), r[1]), r[2])
  {
    var r := Round(c, t);
    RunSnoc(s, [], r[0]);
    RunSnoc(s, [r[0]], r[1]);
    RunSnoc(s, [r[0], r[1]], r[2]);
    assert [] + [r[0]] == [r[0]] && [r[0]] + [r[1]] == [r[0], r[1]] && [r[0], r[1]] + [r[2]] == r;
  }

  // ---------- When a call returns ----------

  predicate OnLoop(a: Action, c: nat) {
    (a.ServerReads? || a.ServerHandles? || a.ServerReplies? || a.ServerEnds? || a.Breaks?) && a.c == c
  }

  /** The server loop of `c` has left the request where it is. */
  ghost predicate Untouched(w: seq<Action>, c: nat) {
    forall l :: 0 <= l < |w| ==> !(OnLoop(w[l], c) && (w[l].ServerReads? || w[l].ServerEnds? || w[l].Breaks?))
  }

  /** It has read the request and not yet handled it. */
  ghost predicate Taken(w: seq<Action>, c: nat) {
    exists k :: 0 <= k < |w| && Untouched(w[..k], c) && w[k] == ServerReads(c)
                && forall l :: k < l < |w| ==> !(OnLoop(w[l], c) && (w[l].ServerHandles? || w[l].Breaks?))
  }

  function Registered(handlers: set<string>, w: seq<Action>): set<string> {
    handlers + set l | 0 <= l < |w| && w[l].Register? :: w[l].name
  }

  /** It has handled it, by a handler of that name which answered `v`, and not yet replied. */
  ghost predicate Handled(handlers: set<string>, w: seq<Action>, c: nat, name: string, v: string) {
    exists k :: 0 <= k < |w| && Taken(w[..k], c) && w[k] == ServerHandles(c, Value(v)) && name in Registered(handlers, w[..k])
                && forall l :: k < l < |w| ==> !(OnLoop(w[l], c) && (w[l].ServerReplies? || w[l].Breaks?))
  }

  /** Its reply has reached the client's side, and the connection has not broken since. */
  ghost predicate Answered(handlers: set<string>, w: seq<Action>, c: nat, name: string, v: string) {
    exists k :: 0 <= k < |w| && Handled(handlers, w[..k], c, name, v) && w[k].ServerReplies? && w[k].c == c && w[k].delivered
                && forall l :: k < l < |w| ==> w[l] != Breaks(c)
  }

  /** Where a request sent on a quiet connection is. */
  datatype Stage = Queued | Reads | Replies(resp: Response) | Arrived(resp: Response) | Lost

  function Advance(handlers: set<string>, c: nat, req: Request, st: Stage, a: Action): Stage {
    if !OnLoop(a, c) then st
    else if a.Breaks? then Lost
    else if st.Queued? && a.ServerReads? then Reads
    else if st.Queued? && a.ServerEnds? then Lost
    else if st.Reads? && a.ServerHandles? then Replies(Dispatch(handlers, req, a.outcome))
    else if st.Replies? && a.ServerReplies? then (if a.delivered then Arrived(st.resp) else Lost)
    else st
  }

  function StageAfter(handlers: set<string>, c: nat, req: Request, w: seq<Action>): Stage {
    if w == [] then Queued else
      var n := |w| - 1;
      Advance(Registered(handlers, w[..n]), c, req, StageAfter(handlers, c, req, w[..n]), w[n])
  }

  predicate AtStage(k: Conn, req: Request, st: Stage) {
    match st
    case Queued => k == Conn([req], Reading, [])
    case Reads => k == Conn([], Handling(req), [])
    case Replies(r) => k == Conn([], Replying(r), [])
    case Arrived(r) => k.toServer == [] && k.toClient == [r] && (k.loop.Reading? || k.loop.Gone?)
    case Lost => k.toClient == [] && (k.loop.Gone? || (k.loop.Reading? && k.toServer == []))
  }

  lemma AdvanceStep(s: State, c: nat, req: Request, st: Stage, a: Action)
    requires c < |s.conns| && AtStage(s.conns[c], req, st) && ServerSide([a])
    ensures var e := Next(s, a); c < |e.conns| && AtStage(e.conns[c], req, Advance(s.handlers, c, req, st, a))
  {
    assert [a][0] == a;
  }

  lemma RegisteredSnoc(handlers: set<string>, w: seq<Action>, a: Action)
    ensures Registered(handlers, w + [a]) == Registered(handlers, w) + if a.Register? then {a.name} else {}
  {
    var all := w + [a];
    assert forall l :: 0 <= l < |w| ==> all[l] == w[l];
    assert all[|w|] == a;
  }

  lemma {:induction false} FollowsRequest(s: State, c: nat, req: Request, w: seq<Action>)
    requires c < |s.conns| && s.conns[c] == Conn([req], Reading, []) && ServerSide(w)
    ensures var e := Run(s, w);
            && c < |e.conns| && AtStage(e.conns[c], req, StageAfter(s.handlers, c, req, w))
            && e.handlers == Registered(s.handlers, w)
    decreases |w|
  {
    hide Next, Advance, AtStage;
    if w == [] {
      StartsQueued(s.conns[c], req);
    } else {
      var n := |w| - 1;
      FollowsRequest(s, c, req, w[..n]);
      assert w == w[..n] + [w[n]];
      RegisteredSnoc(s.handlers, w[..n], w[n]);
      AdvanceStep(Run(s, w[..n]), c, req, StageAfter(s.handlers, c, req, w[..n]), w[n]);
      HandlersStep(Run(s, w[..n]), w[n]);
    }
  }

  lemma StartsQueued(k: Conn, req: Request)
    requires k == Conn([req], Reading, [])
    ensures AtStage(k, req, Queued)
  {}

  lemma HandlersStep(s: State, a: Action)
    ensures Next(s, a).handlers == s.handlers + if a.Register? then {a.name} else {}
  {}

  /** A request that never reached a reading loop stays unanswered. */
  lemma {:induction false} StaysLost(s: State, c: nat, req: Request, w: seq<Action>)
    requires c < |s.conns| && AtStage(s.conns[c], req, Lost) && ServerSide(w)
    ensures var e := Run(s, w); c < |e.conns| && AtStage(e.conns[c], req, Lost)
    decreases |w|
  {
    hide Next, AtStage;
    if w != [] {
      var n := |w| - 1;
      StaysLost(s, c, req, w[..n]);
      AdvanceStep(Run(s, w[..n]), c, req, Lost, w[n]);
    }
  }

  // The stages, one prefix after the other.

  lemma UntouchedSnoc(w: seq<Action>, a: Action, c: nat)
    ensures Untouched(w + [a], c) <==> Untouched(w, c) && !(OnLoop(a, c) && (a.ServerReads? || a.ServerEnds? || a.Breaks?))
  {
    var all := w + [a];
    assert forall l :: 0 <= l < |w| ==> all[l] == w[l];
    assert all[|w|] == a;
  }

  lemma TakenSnoc(w: seq<Action>, a: Action, c: nat)
    ensures Taken(w + [a], c) <==>
            (Untouched(w, c) && a == ServerReads(c)) || (Taken(w, c) && !(OnLoop(a, c) && (a.ServerHandles? || a.Breaks?)))
  {
    hide Untouched;
    var all := w + [a];
    assert forall l :: 0 <= l < |w| ==> all[l] == w[l];
    assert all[|w|] == a;
    assert forall k :: 0 <= k <= |w| ==> all[..k] == w[..k];
    assert all[..|w|] == w;
    if Taken(w, c) && !(OnLoop(a, c) && (a.ServerHandles? || a.Breaks?)) {
      var k :| 0 <= k < |w| && Untouched(w[..k], c) && w[k] == ServerReads(c)
               && forall l :: k < l < |w| ==> !(OnLoop(w[l], c) && (w[l].ServerHandles? || w[l].Breaks?));
      assert Untouched(all[..k], c) && all[k] == ServerReads(c);
    }
    if Untouched(w, c) && a == ServerReads(c) {
      assert Untouched(all[..|w|], c) && all[|w|] == ServerReads(c);
    }
  }

  lemma HandledSnoc(handlers: set<string>, w: seq<Action>, a: Action, c: nat, name: string, v: string)
    ensures Handled(handlers, w + [a], c, name, v) <==>
            || (Taken(w, c) && a == ServerHandles(c, Value(v)) && name in Registered(handlers, w))
            || (Handled(handlers, w, c, name, v) && !(OnLoop(a, c) && (a.ServerReplies? || a.Breaks?)))
  {
    hide Taken, Registered;
    var all := w + [a];
    assert forall l :: 0 <= l < |w| ==> all[l] == w[l];
    assert all[|w|] == a;
    assert forall k :: 0 <= k <= |w| ==> all[..k] == w[..k];
    assert all[..|w|] == w;
    if Handled(handlers, w, c, name, v) && !(OnLoop(a, c) && (a.ServerReplies? || a.Breaks?)) {
      var k :| 0 <= k < |w| && Taken(w[..k], c) && w[k] == ServerHandles(c, Value(v)) && name in Registered(handlers, w[..k])
               && forall l :: k < l < |w| ==> !(OnLoop(w[l], c) && (w[l].ServerReplies? || w[l].Breaks?));
      assert Taken(all[..k], c) && all[k] == ServerHandles(c, Value(v));
    }
    if Taken(w, c) && a == ServerHandles(c, Value(v)) && name in Registered(handlers, w) {
      assert Taken(all[..|w|], c) && all[|w|] == ServerHandles(c, Value(v));
    }
  }

  lemma AnsweredSnoc(handlers: set<string>, w: seq<Action>, a: Action, c: nat, name: string, v: string)
    ensures Answered(handlers, w + [a], c, name, v) <==>
            || (Handled(handlers, w, c, name, v) && a.ServerReplies? && a.c == c && a.delivered)
            || (Answered(handlers, w, c, name, v) && a != Breaks(c))
  {
    hide Handled;
    var all := w + [a];
    assert forall l :: 0 <= l < |w| ==> all[l] == w[l];
    assert all[|w|] == a;
    assert forall k :: 0 <= k <= |w| ==> all[..k] == w[..k];
    assert all[..|w|] == w;
    if Answered(handlers, w, c, name, v) && a != Breaks(c) {
      var k :| 0 <= k < |w| && Handled(handlers, w[..k], c, name, v) && w[k].ServerReplies? && w[k].c == c && w[k].delivered
               && forall l :: k < l < |w| ==> w[l] != Breaks(c);
      assert Handled(handlers, all[..k], c, name, v) && all[k] == w[k];
    }
    if Handled(handlers, w, c, name, v) && a.ServerReplies? && a.c == c && a.delivered {
      assert Handled(handlers, all[..|w|], c, name, v);
    }
  }

  lemma DispatchesValue(handlers: set<string>, req: Request, outcome: Outcome, v: string)
    requires req.version == "2.0"
    ensures Dispatch(handlers, req, outcome) == Result(v, req.id) <==> req.name in handlers && outcome == Value(v)
  {}

  lemma {:induction false} StageMeans(handlers: set<string>, c: nat, req: Request, w: seq<Action>, v: string)
    requires req.version == "2.0"
    ensures var st := StageAfter(handlers, c, req, w);
            && (st.Queued? <==> Untouched(w, c)) && (st.Reads? <==> Taken(w, c))
            && (st == Replies(Result(v, req.id)) <==> Handled(handlers, w, c, req.name, v))
            && (st == Arrived(Result(v, req.id)) <==> Answered(handlers, w, c, req.name, v))
    decreases |w|
  {
    hide Dispatch, Untouched, Taken, Handled, Answered, Registered;
    if w == [] {
      NothingYet(handlers, c, req.name, v);
    } else {
      var n := |w| - 1;
      var init, a := w[..n], w[n];
      assert w == init + [a];
      StageMeans(handlers, c, req, init, v);
      UntouchedSnoc(init, a, c);
      TakenSnoc(init, a, c);
      HandledSnoc(handlers, init, a, c, req.name, v);
      AnsweredSnoc(handlers, init, a, c, req.name, v);
      if a.ServerHandles? { DispatchesValue(Registered(handlers, init), req, a.outcome, v); }
    }
  }

  lemma NothingYet(handlers: set<string>, c: nat, name: string, v: string)
    ensures Untouched([], c) && !Taken([], c) && !Handled(handlers, [], c, name, v) && !Answered(handlers, [], c, name, v)
  {}

  /** The connection a call will use, and whether a server loop is reading it. */
  function Line(s: State): nat { if s.current.Some? then s.current.value else |s.conns| }

  predicate Reached(s: State) { s.current.Some? ==> s.current.value < |s.conns| && s.conns[s.current.value].loop.Reading? }

  /** Exactly when a call returns `v`: its request is sent and arrives, is read, handled by a registered handler
      that answers `v`, and the reply comes back over a connection that does not break before the read. */
  ghost predicate Returns(s: State, name: string, io: CallIO, v: string) {
    && Sends(s, io) && io.delivered && Reached(s) && io.read
    && Answered(s.handlers, io.waiting, Line(s), name, v)
  }

  /** The steps at which the client drops its connection: a write or a read that fails, and Close. */
  predicate Closes(s: State, a: Action) {
    || (a.Send? && Ready(s) && !a.ok)
    || (a.ReceiveFails? && Waiting(s))
    || (a.CloseClient? && s.holder.None?)
  }

  /** It keeps the connection through everything else, an error response and a failed marshal included, and
      dials only when it has none. */
  lemma ConnectionMeans(s: State, a: Action)
    ensures Next(s, a).current ==
            if Closes(s, a) then None
            else if a.Dial? && a.ok && s.holder.Some? && s.current.None? then Some(|s.conns|)
            else s.current
    ensures Next(s, a).nextId == s.nextId + if Ready(s) && (a.Send? || a.MarshalFails?) then 1 else 0
  {}

  /** The plain case: a registered handler answers, every step succeeds, and the call returns its answer. */
  lemma UnbrokenRoundTrip(s: State, name: string, v: string)
    requires Reached(s) && name in s.handlers
    ensures var c := Line(s);
            Returns(s, name, CallIO(true, true, true, true, [ServerReads(c), ServerHandles(c, Value(v)), ServerReplies(c, true, true)], true), v)
  {
    var c := Line(s);
    var w := [ServerReads(c), ServerHandles(c, Value(v)), ServerReplies(c, true, true)];
    assert w[..2][..1] == w[..1] && w[..2][1] == w[1] && w[..1][..0] == [] && w[..1][0] == w[0];
    assert Untouched(w[..1][..0], c);
    assert Taken(w[..1], c);
    assert Taken(w[..2][..1], c) && Handled(s.handlers, w[..2], c, name, v);
    assert Answered(s.handlers, w, c, name, v);
  }

  /** What waits on the client's side when the caller reads. */
  lemma WaitingFor(s: State, req: Request, io: CallIO, reached: bool, v: string)
    requires s.current.Some? && s.current.value < |s.conns| && req.version == "2.0" && ServerSide(io.waiting)
    requires if reached then s.conns[s.current.value] == Conn([req], Reading, []) else AtStage(s.conns[s.current.value], req, Lost)
    ensures var e, c := Run(s, io.waiting), s.current.value;
            c < |e.conns| && (e.conns[c].toClient == [Result(v, req.id)] <==> reached && Answered(s.handlers, io.waiting, c, req.name, v))
  {
    hide Answered, Next, Run, StageAfter;
    var c := s.current.value;
    if reached {
      FollowsRequest(s, c, req, io.waiting);
      StageMeans(s.handlers, c, req, io.waiting, v);
    } else {
      StaysLost(s, c, req, io.waiting);
    }
  }

  /** At most one response waits for the caller, and it bears its request's ID. */
  lemma OneResponse(s: State)
    requires Inv(s) && Waiting(s)
    ensures var k := s.conns[s.current.value].toClient; k == [] || k == [k[0].(id := s.holder.value.sent.value.id)]
  {
    var k, req := s.conns[s.current.value].toClient, s.holder.value.sent.value;
    if k != [] {
      var i :| 0 <= i < |s.log| && s.log[i].req == req && s.log[i].resp == k[0];
      assert Genuine(s.log[i]);
    }
  }

  /** Client and Server with the connections between them. */
  class Agent {
    var handlers: set<string>
    var conns: seq<Conn>
    var current: Option<nat>
    var nextId: int
    var holder: Option<Holder>
    var log: seq<Dispatched>
    var done: seq<Finished>

    function View(): State reads this { State(handlers, conns, current, nextId, holder, log, done) }

    constructor ()
      ensures View() == Init()
    {
      handlers, conns, current, nextId, holder, log, done := {}, [], None, 0, None, [], [];
    }

    method Register(name: string)
      modifies this`handlers
      ensures View() == Next(old(View()), Action.Register(name))
    {
      handlers := handlers + {name};
    }

    /** Steps taken by others. */
    method Meanwhile(actions: seq<Action>)
      modifies this
      ensures View() == Run(old(View()), actions)
    {
      var e := Run(View(), actions);
      handlers, conns, current, nextId, holder, log, done := e.handlers, e.conns, e.current, e.nextId, e.holder, e.log, e.done;
    }

    /** Client.Close, once it has the mutex. */
    method Close()
      requires holder.None?
      modifies this`current
      ensures View() == Next(old(View()), CloseClient)
    {
      current := None;
    }

    method Fail(who: int)
      modifies this`holder, this`done
      ensures View() == Finish(old(View()), Failed(who))
    {
      holder, done := None, done + [Failed(who)];
    }

    method EnsureConn(dial: bool) returns (ok: bool)
      modifies this`conns, this`current
      ensures ok == (old(current).Some? || dial)
      ensures if old(current).Some? || !dial then conns == old(conns) && current == old(current)
              else conns == old(conns) + [Conn([], Reading, [])] && current == Some(|old(conns)|)
    {
      if current.Some? { return true; }
      if !dial { return false; }
      conns, current := conns + [Conn([], Reading, [])], Some(|conns|);
      return true;
    }

    /** One call, from taking the mutex to giving it back: these are steps of the protocol, and a
        value that comes back is the handler's answer to this very request. */
    method Call(who: int, name: string, params: string, io: CallIO) returns (r: Option<string>)
      requires Inv(View()) && holder.None? && ServerSide(io.waiting)
      modifies this
      ensures View() == Run(old(View()), CallSteps(old(View()), who, name, params, io))
      ensures Inv(View()) && holder.None?
      ensures done == old(done) + [if r.Some? then Returned(who, name, params, nextId, r.value) else Failed(who)]
      ensures r.Some? ==> Dispatched(Request("2.0", name, params, nextId), Value(r.value), Result(r.value, nextId)) in log
      ensures forall v :: r == Some(v) <==> Returns(old(View()), name, io, v)
    {
      ghost var s0 := View();
      ghost var steps := SendSteps(s0, who, name, params, io);
      RunKeepsInv(s0, steps);
      RunConcat(s0, steps, if Sends(s0, io) then AwaitSteps(io) else []);
      assert LiveConn(s0);
      hide Inv, LiveConn, Next, Run, Answered;
      var sent := SendRequest(who, name, params, io);
      if !sent {
        assert steps + [] == steps;
        return None;
      }
      ghost var s1, req := View(), holder.value.sent.value;
      r := Await(who, io);
      forall v ensures r == Some(v) <==> Returns(s0, name, io, v) { WaitingFor(s1, req, io, io.delivered && Reached(s0), v); }
    }

    method SendRequest(who: int, name: string, params: string, io: CallIO) returns (sent: bool)
      requires LiveConn(View()) && holder.None?
      modifies this
      ensures View() == Run(old(View()), SendSteps(old(View()), who, name, params, io))
      ensures sent == Sends(old(View()), io)
      ensures sent ==> Waiting(View()) && holder == Some(Holder(who, name, params, Some(Request("2.0", name, params, nextId))))
      ensures if sent then done == old(done) else holder.None? && done == old(done) + [Failed(who)]
      ensures sent ==>
        && current == Some(Line(old(View()))) && handlers == old(handlers)
        && var k, req := conns[current.value], holder.value.sent.value;
           if io.delivered && Reached(old(View())) then k == Conn([req], Reading, []) else AtStage(k, req, Lost)
    {
      hide Run;
      StartSteps(View(), who, name, params, io.dial, if io.marshal then Send(io.delivered, io.send) else MarshalFails);
      holder := Some(Holder(who, name, params, None));
      var connected := EnsureConn(io.dial);
      if !connected {
        Fail(who);
        return false;
      }
      nextId := nextId + 1;
      if !io.marshal {
        Fail(who);
        return false;
      }
      var req := Request("2.0", name, params, nextId);
      if io.delivered {
        conns := conns[current.value := conns[current.value].(toServer := conns[current.value].toServer + [req])];
      }
      if !io.send {
        current := None;
        Fail(who);
        return false;
      }
      holder := Some(Holder(who, name, params, Some(req)));
      return true;
    }

    /** The caller's read: its response, or an error that closes the connection. */
    method Await(who: int, io: CallIO) returns (r: Option<string>)
      requires Inv(View()) && Waiting(View()) && holder.value.who == who && ServerSide(io.waiting)
      modifies this
      ensures View() == Run(old(View()), AwaitSteps(io))
      ensures Inv(View()) && holder.None? && nextId == old(nextId)
      ensures var h := old(holder.value);
              && done == old(done) + [if r.Some? then Returned(who, h.name, h.params, h.sent.value.id, r.value) else Failed(who)]
              && (r.Some? ==> Dispatched(Request("2.0", h.name, h.params, h.sent.value.id), Value(r.value), Result(r.value, h.sent.value.id)) in log)
      ensures var e, c := Run(old(View()), io.waiting), old(current.value);
              forall v :: r == Some(v) <==> io.read && c < |e.conns| && e.conns[c].toClient == [Result(v, old(holder.value.sent.value.id))]
    {
      hide DispatchOnce, LogSane, LiveConn, HolderSane, Run;
      ghost var s0 := View();
      ServerSideKeepsClient(s0, io.waiting);
      RunKeepsInv(s0, io.waiting);
      RunKeepsInv(s0, AwaitSteps(io));
      Meanwhile(io.waiting);
      OneResponse(View());
      if io.read {
        RunSnoc(s0, io.waiting, Receive);
        RunSnoc(s0, io.waiting + [Receive], ReceiveFails);
        if conns[current.value].toClient != [] {
          r := TakeResponse();
          assert r.Some? ==> OwnResult(log, done[|done| - 1]);
          return;
        }
      } else {
        RunSnoc(s0, io.waiting, ReceiveFails);
        assert io.waiting + [] == io.waiting;
      }
      current := None;
      Fail(who);
      return None;
    }

    /** The decoded response, as the caller's result. */
    method TakeResponse() returns (r: Option<string>)
      requires Waiting(View()) && conns[current.value].toClient != []
      modifies this`conns, this`holder, this`done
      ensures View() == Next(old(View()), Receive) && holder.None?
      ensures var resp, h := old(conns[current.value].toClient[0]), old(holder.value);
              && r == (if resp.Result? then Some(resp.value) else None)
              && done == old(done) + [if r.Some? then Returned(h.who, h.name, h.params, h.sent.value.id, r.value) else Failed(h.who)]
    {
      var k, h := conns[current.value], holder.value;
      conns := conns[current.value := k.(toClient := k.toClient[1..])];
      holder := None;
      match k.toClient[0] {
        case Error(_, _, _) =>
          done := done + [Failed(h.who)];
          return None;
        case Result(v, _) =>
          done := done + [Returned(h.who, h.name, h.params, h.sent.value.id, v)];
          return Some(v);
      }
    }

    /** Server.handleConn: decode, dispatch and encode until one of them fails. */
    method HandleConn(c: nat, turns: seq<Turn>) returns (served: nat)
      requires c < |conns| && conns[c].loop.Reading?
      requires forall i :: 0 <= i < |turns| ==> LeavesLoop(turns[i].others, c)
      modifies this
      ensures served <= |turns| && View() == Run(old(View()), Rounds(c, turns[..served]))
      ensures c < |conns| && if served < |turns| then conns[c].loop.Gone? else conns[c].loop.Reading? || conns[c].loop.Gone?
    {
      served := 0;
      while served < |turns| && conns[c].loop.Reading?
        invariant served <= |turns| && View() == Run(old(View()), Rounds(c, turns[..served]))
        invariant c < |conns| && (conns[c].loop.Reading? || conns[c].loop.Gone?)
      {
        var t := turns[served];
        assert turns[..served + 1][..served] == turns[..served];
        RunConcat(old(View()), Rounds(c, turns[..served]), t.others + Round(c, t));
        RunConcat(View(), t.others, Round(c, t));
        OthersLeaveLoop(View(), t.others, c);
        Meanwhile(t.others);
        Serve(c, t);
        served := served + 1;
      }
    }

    method Serve(c: nat, t: Turn)
      requires c < |conns| && (conns[c].loop.Reading? || conns[c].loop.Gone?)
      modifies this`conns, this`log
      ensures View() == Run(old(View()), Round(c, t))
      ensures c < |conns| && (conns[c].loop.Reading? || conns[c].loop.Gone?)
    {
      RoundRun(View(), c, t);
      var k := conns[c];
      if k.loop.Gone? { return; }
      if !t.read {
        conns := conns[c := k.(loop := Gone)];
        return;
      }
      if k.toServer == [] { return; }
      var req := k.toServer[0];
      var resp := Dispatch(handlers, req, t.outcome);
      log := log + [Dispatched(req, t.outcome, resp)];
      k := k.(toServer := k.toServer[1..], loop := if t.reply then Reading else Gone);
      if t.delivered {
        k := k.(toClient := k.toClient + [resp]);
      }
      conns := conns[c := k];
    }
  }
}
