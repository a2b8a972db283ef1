/** Request pipelining in arlib/http.cpp (http_t::request) as a state machine.

    A step is what one request does from one co_await to the next. The network is a list of connections;
    on each, the server answers the requests in the order in which it got them. */
module HttpModel {
  import opened Wrappers

  /** What the protocol depends on in a request. */
  datatype Req = Req(pipelinable: bool, goodScheme: bool, origin: nat)

  /** A connection: the requests transmitted on it, the number of responses that were read to the end, and
      whether a response was left half-read. */
  datatype Conn = Conn(origin: nat, log: seq<nat>, done: nat, dirty: bool)

  datatype Result = Answered(from: Option<nat>) | Failed(status: int)

  const E_BAD_URL := -1
  const E_CONNECT := -2
  const E_BROKEN := -3
  const E_NOT_HTTP := -4
  const E_TOO_BIG := -5

  /** Where a request is suspended. conn and idx say where its last transmission is; gen and due are
      the local variables of the program. */
  datatype Pc =
    | WaitMut1
    | WaitMut2
    | Making
    | WaitTurn(gen: nat, due: nat, conn: nat, idx: nat)
    | AwaitStatus(conn: nat, idx: nat)
    | Reading(conn: nat, idx: nat, from: Option<nat>)
    | Finished(result: Result)
    | Cancelled

  /** piped and reused record which way the request went, sends how often it was transmitted. */
  datatype Task = Task(q: Req, pc: Pc, canRetry: bool, piped: bool, reused: bool, sends: nat)

  /** The head of a mutex queue is its holder, or the one it has been handed to. */
  datatype Net = Net(
    sock: Option<nat>, origin: nat, generation: nat, sent: nat, received: nat,
    mut1: seq<nat>, mut2: seq<nat>, tasks: seq<Task>, conns: seq<Conn>)

  type World = w: Net | w.sock.Some? ==> w.sock.value < |w.conns| witness Net(None, 0, 0, 0, 0, [], [], [], [])

  datatype Line = NoLine | BadLine | GoodLine

  datatype Event =
    | Start(q: Req)
    | GotMut1(r: nat, alive: bool)
    | GotMut2(r: nat, alive: bool)
    | MadeSock(r: nat, ok: bool)
    | GotStatus(r: nat, line: Line)
    | GotBody(r: nat, error: Option<int>)
    | Cancel(r: nat)

  function Remove(q: seq<nat>, r: nat): (s: seq<nat>)
    ensures forall x :: x in s ==> x in q
  {
    if |q| == 0 then [] else if q[0] == r then q[1..] else [q[0]] + Remove(q[1..], r)
  }

  predicate Head(q: seq<nat>, r: nat) {
    |q| > 0 && q[0] == r
  }

  // ----- the pieces of request() -----

  function SetPc(w: World, r: nat, pc: Pc): World
    requires r < |w.tasks|
  {
    w.(tasks := w.tasks[r := w.tasks[r].(pc := pc)])
  }

  /** can_keepalive; alive says whether sock_keepalive_until lies in the future. */
  predicate CanKeepalive(w: World, q: Req, alive: bool) {
    w.sock.Some? && alive && w.origin == q.origin
  }

  predicate CanPipeline(w: World, q: Req, alive: bool) {
    q.pipelinable && CanKeepalive(w, q, alive)
  }

  /** set_error and the return: both locks are given up. */
  function SetError(w: World, r: nat, status: int): World
    requires r < |w.tasks|
  {
    SetPc(w, r, Finished(Failed(status))).(sock := None, mut1 := Remove(w.mut1, r), mut2 := Remove(w.mut2, r))
  }

  /** send_request, and sock_sent++. */
  function Send(w: World, r: nat): World
    requires r < |w.tasks| && w.sock.Some?
  {
    var c := w.sock.value;
    w.(conns := w.conns[c := w.conns[c].(log := w.conns[c].log + [r])],
       sent := (w.sent + 1) % 0x1_0000,
       tasks := w.tasks[r := w.tasks[r].(sends := w.tasks[r].sends + 1)])
  }

  /** recreate_sock up to the co_await. */
  function Recreate(w: World, r: nat): World
    requires r < |w.tasks|
  {
    if !w.tasks[r].canRetry then SetError(w, r, E_BROKEN)
    else if !w.tasks[r].q.goodScheme then SetError(w, r, E_BAD_URL)
    else SetPc(w, r, Making)
  }

  /** From l1.release() on when mut2 is already held. */
  function SendAndRead(w: World, r: nat, reused: bool): World
    requires r < |w.tasks| && w.sock.Some?
  {
    var v := Send(w.(mut1 := Remove(w.mut1, r)), r);
    v.(tasks := v.tasks[r := v.tasks[r].(pc := AwaitStatus(w.sock.value, |w.conns[w.sock.value].log|), canRetry := false, reused := reused)])
  }

  function NewSocket(w: World, q: Req): World {
    w.(sock := Some(|w.conns|), conns := w.conns + [Conn(q.origin, [], 0, false)], origin := q.origin,
       generation := (w.generation + 1) % 0x1_0000_0000, sent := 0, received := 0)
  }

  /** The check after waiting for mut2. */
  predicate Passes(w: World, pc: Pc)
    requires pc.WaitTurn?
  {
    w.sock.Some? && pc.gen == w.generation && pc.due == w.received
  }

  /** What a GET without body does once it has mut1 and a usable socket. */
  function Pipeline(w: World, r: nat): World
    requires r < |w.tasks| && w.sock.Some?
  {
    var c := w.sock.value;
    var v := Send(w.(mut1 := Remove(w.mut1, r), mut2 := w.mut2 + [r]), r);
    v.(tasks := v.tasks[r := v.tasks[r].(pc := WaitTurn(w.generation, w.sent, c, |w.conns[c].log|), piped := true)])
  }

  /** The response that comes next on a connection, if its position is known. */
  function NextResponse(c: Conn): Option<nat> {
    if c.dirty || c.done >= |c.log| then None else Some(c.log[c.done])
  }

  function Complete(w: World, r: nat, from: Option<nat>): World
    requires r < |w.tasks| && w.sock.Some?
  {
    var c := w.sock.value;
    SetPc(w, r, Finished(Answered(from))).(
      conns := w.conns[c := w.conns[c].(done := w.conns[c].done + 1)],
      received := (w.received + 1) % 0x1_0000, mut1 := Remove(w.mut1, r), mut2 := Remove(w.mut2, r))
  }

  /** The coroutine is destroyed; a response it was in the middle of stays half-read. */
  function Drop(w: World, r: nat): World
    requires r < |w.tasks|
    requires w.tasks[r].pc.Reading? ==> w.sock.Some?
  {
    var conns := if w.tasks[r].pc.Reading? then w.conns[w.sock.value := w.conns[w.sock.value].(dirty := true)] else w.conns;
    SetPc(w, r, Cancelled).(conns := conns, mut1 := Remove(w.mut1, r), mut2 := Remove(w.mut2, r))
  }

  // ----- steps -----

  /** A request can be dropped anywhere except after it was handed a mutex and before it runs again. */
  predicate Droppable(w: World, r: nat)
    requires r < |w.tasks|
  {
    match w.tasks[r].pc
    case WaitMut1 => !Head(w.mut1, r)
    case WaitMut2 => !Head(w.mut2, r)
    case WaitTurn(_, _, _, _) => !Head(w.mut2, r)
    case Finished(_) => false
    case Cancelled => false
    case _ => true
  }

  /** The server answers only what it was sent. */
  predicate Enabled(w: World, e: Event) {
    match e
    case Start(_) => true
    case GotMut1(r, _) => r < |w.tasks| && w.tasks[r].pc == WaitMut1 && Head(w.mut1, r)
    case GotMut2(r, _) => r < |w.tasks| && (w.tasks[r].pc == WaitMut2 || w.tasks[r].pc.WaitTurn?) && Head(w.mut2, r)
    case MadeSock(r, _) => r < |w.tasks| && w.tasks[r].pc == Making
    case GotStatus(r, line) =>
      && r < |w.tasks| && w.tasks[r].pc.AwaitStatus? && w.sock.Some?
      && (line == GoodLine ==> var c := w.conns[w.sock.value]; c.dirty || c.done < |c.log|)
    case GotBody(r, error) =>
      && r < |w.tasks| && w.tasks[r].pc.Reading? && w.sock.Some?
      && (error.Some? ==> error.value in {E_BROKEN, E_NOT_HTTP, E_TOO_BIG})
    case Cancel(r) =>
      && r < |w.tasks| && Droppable(w, r)
      && (w.tasks[r].pc.Reading? ==> w.sock.Some?)
  }

  function Begin(): World {
    Net(None, 0, 0, 0, 0, [], [], [], [])
  }

  function Step(w: World, e: Event): World
    requires Enabled(w, e)
  {
    match e
    case Start(q) => w.(tasks := w.tasks + [Task(q, WaitMut1, true, false, false, 0)], mut1 := w.mut1 + [|w.tasks|])
    case GotMut1(r, alive) =>
      if CanPipeline(w, w.tasks[r].q, alive) then Pipeline(w, r)
      else SetPc(w, r, WaitMut2).(mut2 := w.mut2 + [r])
    case GotMut2(r, alive) =>
      var t := w.tasks[r];
      if t.pc.WaitTurn? then
        if Passes(w, t.pc) then SetPc(w, r, AwaitStatus(t.pc.conn, t.pc.idx)) else Recreate(w, r)
      else if CanKeepalive(w, t.q, alive) then SendAndRead(w, r, true)
      else Recreate(w, r)
    case MadeSock(r, ok) =>
      if ok then SendAndRead(NewSocket(w, w.tasks[r].q), r, false) else SetError(w, r, E_CONNECT)
    case GotStatus(r, line) =>
      var pc := w.tasks[r].pc;
      if line == NoLine then Recreate(w, r)
      else if line == BadLine then SetError(w, r, E_NOT_HTTP)
      else SetPc(w, r, Reading(pc.conn, pc.idx, NextResponse(w.conns[w.sock.value])))
    case GotBody(r, error) =>
      if error.Some? then SetError(w, r, error.value) else Complete(w, r, w.tasks[r].pc.from)
    case Cancel(r) => Drop(w, r)
  }
}
