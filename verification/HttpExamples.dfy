/** Runs in which a request reads another request's response. */
module HttpExamples {
  import opened Wrappers
  import opened HttpModel
  import opened HttpRuns

  ghost predicate Reaches(w: World) {
    exists ws, es :: Run(ws, es) && ws[|es|] == w
  }

  lemma BeginReaches()
    ensures Reaches(Begin())
  {
    assert Run([Begin()], []);
  }

  lemma More(w: World, e: Event)
    requires Reaches(w) && Enabled(w, e)
    ensures Reaches(Step(w, e))
  {
    var ws, es :| Run(ws, es) && ws[|es|] == w;
    hide Enabled, Step;
    var vs, fs := ws + [Step(w, e)], es + [e];
    assert Run(vs, fs);
    assert vs[|fs|] == Step(w, e);
  }

  function Get(): Req {
    Req(true, true, 0)
  }

  function Post(): Req {
    Req(false, true, 0)
  }

  // ----- a request that is alone -----

  /** w, idle, and one more request in state t. */
  function Alone(w: World, t: Task, mut1: seq<nat>, mut2: seq<nat>): World {
    w.(tasks := w.tasks + [t], mut1 := mut1, mut2 := mut2)
  }

  predicate Idle(w: World) {
    w.mut1 == [] && w.mut2 == []
  }

  lemma RemoveOnly(r: nat)
    ensures Remove([r], r) == [] && Remove([], r) == []
  {
  }

  lemma LastTask(ts: seq<Task>, t: Task, u: Task)
    ensures (ts + [t])[|ts|] == t && (ts + [t])[|ts| := u] == ts + [u]
  {
  }

  lemma AloneStart(w: World, q: Req)
    requires Reaches(w) && Idle(w)
    ensures Reaches(Alone(w, Task(q, WaitMut1, true, false, false, 0), [|w.tasks|], []))
  {
    hide Reaches;
    assert w.mut1 + [|w.tasks|] == [|w.tasks|];
    More(w, Start(q));
  }

  /** To the socket being made, or to the old one being used. */
  lemma AloneEarly(w: World)
    requires Idle(w) && Reaches(Alone(w, Task(Post(), WaitMut1, true, false, false, 0), [|w.tasks|], []))
    ensures Reaches(Alone(w, Task(Post(), WaitMut2, true, false, false, 0), [|w.tasks|], [|w.tasks|]))
  {
    hide Reaches;
    var r, t, u := |w.tasks|, Task(Post(), WaitMut1, true, false, false, 0), Task(Post(), WaitMut2, true, false, false, 0);
    LastTask(w.tasks, t, u);
    var none: seq<nat> := [];
    assert none + [r] == [r];
    More(Alone(w, t, [r], []), GotMut1(r, true));
  }

  lemma AloneMaking(w: World)
    requires Idle(w) && w.sock.None? && Reaches(Alone(w, Task(Post(), WaitMut2, true, false, false, 0), [|w.tasks|], [|w.tasks|]))
    ensures Reaches(Alone(w, Task(Post(), Making, true, false, false, 0), [|w.tasks|], [|w.tasks|]))
  {
    hide Reaches;
    var r, t, u := |w.tasks|, Task(Post(), WaitMut2, true, false, false, 0), Task(Post(), Making, true, false, false, 0);
    LastTask(w.tasks, t, u);
    More(Alone(w, t, [r], [r]), GotMut2(r, true));
  }

  lemma AloneRead(w: World, t: Task)
    requires Idle(w) && w.sock.Some? && t.pc.AwaitStatus? && Reaches(Alone(w, t, [], [|w.tasks|]))
    requires var c := w.conns[w.sock.value]; c.done < |c.log| && !c.dirty
    ensures var c := w.conns[w.sock.value];
      Reaches(Alone(w.(conns := w.conns[w.sock.value := c.(done := c.done + 1)], received := (w.received + 1) % 0x1_0000),
                    t.(pc := Finished(Answered(Some(c.log[c.done])))), [], []))
  {
    hide Reaches;
    var r, c := |w.tasks|, w.conns[w.sock.value];
    var u := t.(pc := Reading(t.pc.conn, t.pc.idx, Some(c.log[c.done])));
    var v := t.(pc := Finished(Answered(Some(c.log[c.done]))));
    LastTask(w.tasks, t, u);
    LastTask(w.tasks, u, v);
    RemoveOnly(r);
    hide Remove;
    More(Alone(w, t, [], [r]), GotStatus(r, GoodLine));
    More(Alone(w, u, [], [r]), GotBody(r, None));
  }

  // ----- both examples begin alike -----

  function Served(): Task {
    Task(Post(), Finished(Answered(Some(0))), false, false, false, 1)
  }

  function Dropped(): Task {
    Task(Get(), Cancelled, true, true, false, 1)
  }

  function UpTo(n: nat): (s: seq<nat>)
    ensures |s| == n
  {
    seq(n, k => k)
  }

  function Others(n: nat): (s: seq<Task>)
    ensures |s| == n + 1
  {
    [Served()] + seq(n, i => Dropped())
  }

  /** After a POST that was answered and n GETs that were sent on its connection and then cancelled. */
  function After(n: nat): World {
    Net(Some(0), 0, 1, (n + 1) % 0x1_0000, 1, [], [], Others(n), [Conn(0, UpTo(n + 1), 1, false)])
  }

  lemma MadeFirst()
    requires Reaches(Alone(Begin(), Task(Post(), Making, true, false, false, 0), [0], [0]))
    ensures Reaches(Net(Some(0), 0, 1, 1, 0, [], [0], [Task(Post(), AwaitStatus(0, 0), false, false, false, 1)], [Conn(0, [0], 0, false)]))
  {
    hide Reaches;
    RemoveOnly(0);
    hide Remove;
    var w := Alone(Begin(), Task(Post(), Making, true, false, false, 0), [0], [0]);
    More(w, MadeSock(0, true));
    var none: seq<nat>, c := [], Conn(0, [], 0, false);
    assert none + [0] == [0];
    assert w.conns + [c] == [c] && [c][0 := Conn(0, [0], 0, false)] == [Conn(0, [0], 0, false)];
    var t, u, ts: seq<Task> := Task(Post(), Making, true, false, false, 0), Task(Post(), AwaitStatus(0, 0), false, false, false, 1), [];
    LastTask(ts, t, t.(sends := 1));
    LastTask(ts, t.(sends := 1), u);
    assert ts + [u] == [u];
    assert Step(w, MadeSock(0, true)).tasks == [u];
    assert Step(w, MadeSock(0, true)).conns == [Conn(0, [0], 0, false)];
  }

  lemma FirstServed()
    ensures Reaches(After(0))
  {
    BeginReaches();
    AloneStart(Begin(), Post());
    AloneEarly(Begin());
    AloneMaking(Begin());
    MadeFirst();
    hide Reaches;
    var t, w := Task(Post(), AwaitStatus(0, 0), false, false, false, 1), Net(Some(0), 0, 1, 1, 0, [], [], [], [Conn(0, [0], 0, false)]);
    assert Alone(w, t, [], [0]) == Net(Some(0), 0, 1, 1, 0, [], [0], [t], [Conn(0, [0], 0, false)]);
    AloneRead(w, t);
    assert w.conns[0 := Conn(0, [0], 1, false)] == [Conn(0, [0], 1, false)];
    assert Others(0) == [Served()] && UpTo(1) == [0];
  }

  /** The state with one more GET sent, and the request itself. */
  function OneSent(n: nat): World {
    After(n).(sent := (n + 2) % 0x1_0000, conns := [Conn(0, UpTo(n + 2), 1, false)])
  }

  function Waiting(n: nat): Task {
    Task(Get(), WaitTurn(1, (n + 1) % 0x1_0000, 0, n + 1), true, true, false, 1)
  }

  lemma SendOne(n: nat)
    requires Reaches(After(n))
    ensures Reaches(Alone(OneSent(n), Waiting(n), [], [n + 1]))
  {
    AloneStart(After(n), Get());
    hide Reaches;
    var r, t := n + 1, Task(Get(), WaitMut1, true, false, false, 0);
    var w := Alone(After(n), t, [r], []);
    RemoveOnly(r);
    hide Remove;
    More(w, GotMut1(r, true));
    LastTask(Others(n), t, t.(sends := 1));
    LastTask(Others(n), t.(sends := 1), Waiting(n));
    assert UpTo(n + 1) + [r] == UpTo(n + 2);
    assert w.conns[0 := Conn(0, UpTo(n + 2), 1, false)] == [Conn(0, UpTo(n + 2), 1, false)];
    NextSent(n);
  }

  lemma NextSent(n: nat)
    ensures ((n + 1) % 0x1_0000 + 1) % 0x1_0000 == (n + 2) % 0x1_0000
  {
  }

  lemma DropOne(n: nat)
    requires Reaches(After(n))
    ensures Reaches(After(n + 1))
  {
    SendOne(n);
    hide Reaches;
    var r, t := n + 1, Waiting(n);
    var w := Alone(OneSent(n), t, [], [r]);
    RemoveOnly(r);
    hide Remove;
    More(w, GotMut2(r, true));
    var u := t.(pc := if Passes(w, t.pc) then AwaitStatus(0, r) else Making);
    LastTask(Others(n), t, u);
    More(Alone(OneSent(n), u, [], [r]), Cancel(r));
    LastTask(Others(n), u, Dropped());
    assert Others(n) + [Dropped()] == Others(n + 1);
  }

  lemma {:induction false} DropMany(n: nat)
    ensures Reaches(After(n))
  {
    hide Reaches;
    if n == 0 {
      FirstServed();
    } else {
      DropMany(n - 1);
      DropOne(n - 1);
    }
  }

  // ----- the examples -----

  /** One GET is pipelined and cancelled; a POST takes the socket over and reads the response to the GET. */
  lemma ReuseExample()
    ensures exists w :: Reaches(w) && |w.tasks| == 3 && w.tasks[2].pc == Finished(Answered(Some(1)))
  {
    DropMany(1);
    AloneStart(After(1), Post());
    AloneEarly(After(1));
    hide Reaches;
    var t, u := Task(Post(), WaitMut2, true, false, false, 0), Task(Post(), AwaitStatus(0, 2), false, false, true, 1);
    RemoveOnly(2);
    hide Remove;
    var w := Alone(After(1), t, [2], [2]);
    More(w, GotMut2(2, true));
    LastTask(Others(1), t, t.(sends := 1));
    LastTask(Others(1), t.(sends := 1), u);
    assert UpTo(2) + [2] == UpTo(3);
    var v := After(1).(sent := 3, conns := [Conn(0, UpTo(3), 1, false)]);
    assert w.conns[0 := Conn(0, UpTo(3), 1, false)] == [Conn(0, UpTo(3), 1, false)];
    assert Step(w, GotMut2(2, true)) == Alone(v, u, [], [2]);
    AloneRead(v, u);
  }

  predicate PipedAndAnswered(t: Task, from: nat) {
    t.piped && !t.reused && t.pc == Finished(Answered(Some(from)))
  }

  /** The counters are 16 bits wide: after 65536 cancelled GETs, the next one passes the check for the wrong
      response although it was pipelined. */
  lemma WrapExample()
    ensures exists w :: Reaches(w) && |w.tasks| == 65538 && PipedAndAnswered(w.tasks[65537], 1)
  {
    DropMany(65536);
    SendOne(65536);
    hide Reaches, UpTo, Others;
    var n, t := 65536, Waiting(65536);
    var w := Alone(OneSent(n), t, [], [n + 1]);
    assert Passes(w, t.pc);
    var u := t.(pc := AwaitStatus(0, n + 1));
    LastTask(Others(n), t, u);
    More(w, GotMut2(n + 1, true));
    Second(n + 2);
    AloneRead(OneSent(n), u);
  }

  lemma Second(n: nat)
    requires n > 1
    ensures UpTo(n)[1] == 1
  {
  }
}
