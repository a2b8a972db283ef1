/** http_t of arlib/http.h: each method is what a request does from one co_await to the next, and refines the
    step of the same name. The local variables of the suspended coroutines are in tasks. */
module HttpClient {
  import opened Wrappers
  import opened HttpModel
  import HttpRuns

  class Client {
    var sock: Option<nat>
    var sockOrigin: nat
    var sockGeneration: nat
    var sockSent: nat
    var sockReceived: nat
    var mut1: seq<nat>
    var mut2: seq<nat>
    var tasks: seq<Task>
    // the network
    var conns: seq<Conn>
    // what has happened so far
    ghost var states: seq<World>
    ghost var events: seq<Event>

    ghost predicate Valid()
      reads this
    {
      sock.Some? ==> sock.value < |conns|
    }

    ghost function Abstract(): World
      reads this
      requires Valid()
    {
      Net(sock, sockOrigin, sockGeneration, sockSent, sockReceived, mut1, mut2, tasks, conns)
    }

    /** The object is at the end of a run, so all that holds of runs holds of it. */
    ghost predicate Traced()
      reads this
    {
      Valid() && HttpRuns.Run(states, events) && states[|events|] == Abstract()
    }

    ghost method Note(e: Event)
      requires Valid() && HttpRuns.Run(states, events) && Enabled(states[|events|], e) && Abstract() == Step(states[|events|], e)
      modifies this`states, this`events
      ensures Traced()
    {
      hide Step, Enabled;
      states, events := states + [Abstract()], events + [e];
    }

    constructor ()
      ensures Traced() && Abstract() == HttpModel.Begin()
    {
      sock, sockOrigin, sockGeneration, sockSent, sockReceived := None, 0, 0, 0, 0;
      mut1, mut2, tasks, conns := [], [], [], [];
      states, events := [HttpModel.Begin()], [];
    }

    method CanKeepalive(q: Req, alive: bool) returns (b: bool)
      requires Valid()
      ensures b == HttpModel.CanKeepalive(Abstract(), q, alive)
    {
      b := sock.Some? && alive && sockOrigin == q.origin;
    }

    /** send_request, and what the caller does with sock_sent. */
    method Transmit(r: nat) returns (generation: nat, due: nat, idx: nat)
      requires Valid() && r < |tasks| && sock.Some?
      modifies this`sockSent, this`tasks, this`conns
      ensures Valid() && Abstract() == HttpModel.Send(old(Abstract()), r)
      ensures generation == sockGeneration && due == old(sockSent) && idx == |old(conns)[sock.value].log|
    {
      var c := sock.value;
      idx := |conns[c].log|;
      conns := conns[c := conns[c].(log := conns[c].log + [r])];
      tasks := tasks[r := tasks[r].(sends := tasks[r].sends + 1)];
      generation := sockGeneration;
      due := sockSent;
      sockSent := (sockSent + 1) % 0x1_0000;
    }

    method Release(r: nat)
      modifies this`mut1, this`mut2
      ensures mut1 == Remove(old(mut1), r) && mut2 == Remove(old(mut2), r)
    {
      mut2 := Remove(mut2, r);
      mut1 := Remove(mut1, r);
    }

    /** co_return set_error(r, status) */
    method SetError(r: nat, status: int)
      requires Valid() && r < |tasks|
      modifies this`sock, this`tasks, this`mut1, this`mut2
      ensures Valid() && Abstract() == HttpModel.SetError(old(Abstract()), r, status)
    {
      sock := None;
      tasks := tasks[r := tasks[r].(pc := Finished(Failed(status)))];
      Release(r);
    }

    /** goto recreate_sock, up to the co_await */
    method RecreateSock(r: nat)
      requires Valid() && r < |tasks|
      modifies this`sock, this`tasks, this`mut1, this`mut2
      ensures Valid() && Abstract() == HttpModel.Recreate(old(Abstract()), r)
    {
      if !tasks[r].canRetry {
        SetError(r, E_BROKEN);
      } else if !tasks[r].q.goodScheme {
        SetError(r, E_BAD_URL);
      } else {
        tasks := tasks[r := tasks[r].(pc := Making)];
      }
    }

    /** can_retry = false; l1.release(); send; mut2 being held already, read. */
    method SendHoldingBoth(r: nat, reused: bool)
      requires Valid() && r < |tasks| && sock.Some?
      modifies this`mut1, this`sockSent, this`tasks, this`conns
      ensures Valid() && Abstract() == HttpModel.SendAndRead(old(Abstract()), r, reused)
    {
      mut1 := Remove(mut1, r);
      var generation, due, idx;
      generation, due, idx := Transmit(r);
      tasks := tasks[r := tasks[r].(canRetry := false, reused := reused, pc := AwaitStatus(sock.value, idx))];
    }

    /** request(), to its first co_await */
    method Request(q: Req) returns (r: nat)
      requires Traced()
      modifies this
      ensures Traced() && r == |old(tasks)| && Abstract() == Step(old(Abstract()), Start(q))
    {
      r := |tasks|;
      tasks := tasks + [Task(q, WaitMut1, true, false, false, 0)];
      mut1 := mut1 + [r];
      Note(Start(q));
    }

    /** l1 = co_await mut1 */
    method OnMut1(r: nat, alive: bool)
      requires Traced() && Enabled(Abstract(), GotMut1(r, alive))
      modifies this
      ensures Traced() && Abstract() == Step(old(Abstract()), GotMut1(r, alive))
    {
      var keep := CanKeepalive(tasks[r].q, alive);
      if !(tasks[r].q.pipelinable && keep) {
        tasks := tasks[r := tasks[r].(pc := WaitMut2)];
        mut2 := mut2 + [r];
        Note(GotMut1(r, alive));
        return;
      }
      mut1 := Remove(mut1, r);
      var generation, due, idx;
      generation, due, idx := Transmit(r);
      tasks := tasks[r := tasks[r].(piped := true, pc := WaitTurn(generation, due, sock.value, idx))];
      mut2 := mut2 + [r];
      Note(GotMut1(r, alive));
    }

    /** l2 = co_await mut2, in either place */
    method OnMut2(r: nat, alive: bool)
      requires Traced() && Enabled(Abstract(), GotMut2(r, alive))
      modifies this
      ensures Traced() && Abstract() == Step(old(Abstract()), GotMut2(r, alive))
    {
      var pc := tasks[r].pc;
      if pc.WaitTurn? {
        if sock.None? || pc.gen != sockGeneration || pc.due != sockReceived {
          RecreateSock(r);
          Note(GotMut2(r, alive));
        return;
        }
        tasks := tasks[r := tasks[r].(pc := AwaitStatus(pc.conn, pc.idx))];
        Note(GotMut2(r, alive));
        return;
      }
      var keep := CanKeepalive(tasks[r].q, alive);
      if !keep {
        RecreateSock(r);
        Note(GotMut2(r, alive));
        return;
      }
      SendHoldingBoth(r, true);
      Note(GotMut2(r, alive));
    }

    /** The new socket, and the counters that go with it. */
    method Connect(q: Req)
      requires Valid()
      modifies this`sock, this`conns, this`sockOrigin, this`sockGeneration, this`sockSent, this`sockReceived
      ensures Valid() && Abstract() == NewSocket(old(Abstract()), q)
    {
      sock := Some(|conns|);
      conns := conns + [Conn(q.origin, [], 0, false)];
      sockOrigin := q.origin;
      sockGeneration := (sockGeneration + 1) % 0x1_0000_0000;
      sockSent := 0;
      sockReceived := 0;
    }

    /** sock = co_await cb_mksock(...) */
    method OnSocket(r: nat, ok: bool)
      requires Traced() && Enabled(Abstract(), MadeSock(r, ok))
      modifies this
      ensures Traced() && Abstract() == Step(old(Abstract()), MadeSock(r, ok))
    {
      if !ok {
        SetError(r, E_CONNECT);
        Note(MadeSock(r, ok));
        return;
      }
      Connect(tasks[r].q);
      SendHoldingBoth(r, false);
      Note(MadeSock(r, ok));
    }

    /** status = co_await sock.line() */
    method OnLine(r: nat, line: Line)
      requires Traced() && Enabled(Abstract(), GotStatus(r, line))
      modifies this
      ensures Traced() && Abstract() == Step(old(Abstract()), GotStatus(r, line))
    {
      if line == NoLine {
        RecreateSock(r);
      } else if line == BadLine {
        SetError(r, E_NOT_HTTP);
      } else {
        var pc := tasks[r].pc;
        tasks := tasks[r := tasks[r].(pc := Reading(pc.conn, pc.idx, NextResponse(conns[sock.value])))];
      }
      Note(GotStatus(r, line));
    }

    /** The rest of the response. */
    method OnBody(r: nat, error: Option<int>)
      requires Traced() && Enabled(Abstract(), GotBody(r, error))
      modifies this
      ensures Traced() && Abstract() == Step(old(Abstract()), GotBody(r, error))
    {
      if error.Some? {
        SetError(r, error.value);
        Note(GotBody(r, error));
        return;
      }
      var c := sock.value;
      conns := conns[c := conns[c].(done := conns[c].done + 1)];
      tasks := tasks[r := tasks[r].(pc := Finished(Answered(tasks[r].pc.from)))];
      sockReceived := (sockReceived + 1) % 0x1_0000;
      Release(r);
      Note(GotBody(r, error));
    }

    /** The coroutine is destroyed. */
    method Destroy(r: nat)
      requires Traced() && Enabled(Abstract(), Cancel(r))
      modifies this
      ensures Traced() && Abstract() == Step(old(Abstract()), Cancel(r))
    {
      if tasks[r].pc.Reading? {
        var c := sock.value;
        conns := conns[c := conns[c].(dirty := true)];
      }
      tasks := tasks[r := tasks[r].(pc := HttpModel.Cancelled)];
      Release(r);
      Note(Cancel(r));
    }

    /** What the runs promise, of this object: a finished request was sent at most twice, and if it read from a
        socket of its own it got its own response. */
    lemma Promises(r: nat)
      requires Traced() && r < |tasks|
      ensures tasks[r].sends <= if tasks[r].q.pipelinable then 2 else 1
      ensures tasks[r].piped ==> tasks[r].q.pipelinable
      ensures var t := tasks[r]; !t.canRetry && !t.reused && t.pc.Finished? && t.pc.result.Answered? ==> t.pc.result.from == Some(r)
    {
      HttpRuns.Transmissions(states, events, |events|, r);
      HttpRuns.PairingFresh(states, events, |events|, r);
    }

    /** Any finished request got its own response exactly under the condition of its case, at the moment j when it
        took mut2. */
    lemma PromisesPairing(r: nat) returns (j: nat)
      requires Traced() && r < |tasks| && tasks[r].pc.Finished? && tasks[r].pc.result.Answered?
      ensures j < |states|
      ensures var t := tasks[r]; t.canRetry || t.reused ==> HttpRuns.TookMut2(states, events, j, r, t.canRetry) && j < |events|
      ensures var t := tasks[r];
        t.pc.result.from == Some(r) <==>
          if t.canRetry then HttpRuns.Own(states[j], r)
          else if t.reused then states[j].sock.Some? && HttpRuns.Settled(states[j])
          else true
    {
      j := HttpRuns.PairingExact(states, events, |events|, r);
    }

    /** While a request is unfinished, one of the methods can be called that does not destroy a coroutine. */
    lemma PromisesProgress(r: nat) returns (e: Event)
      requires Traced() && r < |tasks| && !HttpRuns.Done(tasks[r].pc)
      ensures Enabled(Abstract(), e) && !e.Start? && !e.Cancel?
    {
      e := HttpRuns.NoDeadlock(states, events, |events|, r);
    }
  }
}
