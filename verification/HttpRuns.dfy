/** The guarantees of pipelining over whole runs. */
module HttpRuns {
  import opened Wrappers
  import opened HttpModel
  import opened HttpPipeline
  import opened HttpBase

  /** The states of a run, one after each event. */
  ghost predicate Run(ws: seq<World>, es: seq<Event>) {
    && |ws| == |es| + 1 && ws[0] == Begin()
    && forall i :: 0 <= i < |es| ==>
         Enabled(ws[i], es[i]) && ws[i + 1] == Step(ws[i], es[i])
  }

  lemma {:induction false} Reachable(ws: seq<World>, es: seq<Event>, i: nat)
    requires Run(ws, es) && i < |ws|
    ensures Base(ws[i])
  {
    hide Base, Step, Enabled;
    if i == 0 {
      BeginBase();
    } else {
      Reachable(ws, es, i - 1);
      StepBase(ws[i - 1], es[i - 1]);
    }
  }

  /** Only requests that are safe to repeat are pipelined. */
  lemma {:induction false} PipedSafely(ws: seq<World>, es: seq<Event>, i: nat, r: nat)
    requires Run(ws, es) && i < |ws| && r < |ws[i].tasks|
    ensures ws[i].tasks[r].piped ==> ws[i].tasks[r].q.pipelinable
  {
    if i > 0 {
      var w, e := ws[i - 1], es[i - 1];
      if r < |w.tasks| {
        PipedSafely(ws, es, i - 1, r);
      }
      PipedStep(w, e, r);
      hide Step, Enabled;
    } else {
      NobodyYet(r);
    }
  }

  lemma PipedStep(w: World, e: Event, r: nat)
    requires Enabled(w, e) && r < |Step(w, e).tasks| && (r < |w.tasks| ==> w.tasks[r].piped ==> w.tasks[r].q.pipelinable)
    ensures Step(w, e).tasks[r].piped ==> Step(w, e).tasks[r].q.pipelinable
  {
    if e.Start? && r == |w.tasks| {
      NewTask(w, e);
    } else {
      StartOnly(w, e);
      SentExactly(w, e, r);
    }
    hide Step, Enabled;
  }

  lemma StartOnly(w: World, e: Event)
    requires Enabled(w, e)
    ensures |Step(w, e).tasks| == |w.tasks| + if e.Start? then 1 else 0
  {
    hide Remove;
  }

  lemma NewTask(w: World, e: Event)
    requires e.Start?
    ensures var v := Step(w, e); |v.tasks| == |w.tasks| + 1 && v.tasks[|w.tasks|] == Task(e.q, WaitMut1, true, false, false, 0)
  {
  }

  /** A request is transmitted at most twice, and at most once if it was not pipelined, so if it is not safe to repeat
      or has a body; and only to its own origin. */
  lemma Transmissions(ws: seq<World>, es: seq<Event>, i: nat, r: nat)
    requires Run(ws, es) && i < |ws| && r < |ws[i].tasks|
    ensures var t := ws[i].tasks[r]; t.sends <= (if t.piped then 2 else 1) && (t.piped ==> t.q.pipelinable)
    ensures var t := ws[i].tasks[r]; t.sends <= if t.q.pipelinable then 2 else 1
    ensures forall c :: 0 <= c < |ws[i].conns| && r in ws[i].conns[c].log ==> ws[i].conns[c].origin == ws[i].tasks[r].q.origin
  {
    Reachable(ws, es, i);
    PipedSafely(ws, es, i, r);
    hide Links, Queues, Spots, Fresh, Run;
  }

  // ----- what a step does to its request -----

  /** When a request is transmitted: at once if it is safe to repeat and there is a live socket for its origin; with
      both mutexes if there is; and on a new socket. */
  lemma SentExactly(w: World, e: Event, r: nat)
    requires Enabled(w, e) && r < |w.tasks|
    ensures var t, u := w.tasks[r], Step(w, e).tasks[r];
      && u.q == t.q
      && (u.sends == t.sends + 1 <==>
            || (e == GotMut1(r, true) && w.sock.Some? && w.origin == t.q.origin && t.q.pipelinable)
            || (e == GotMut2(r, true) && t.pc.WaitMut2? && w.sock.Some? && w.origin == t.q.origin)
            || e == MadeSock(r, true))
      && (u.sends == t.sends || u.sends == t.sends + 1)
      && (u.piped ==> t.piped || t.q.pipelinable)
  {
    StartOnly(w, e);
    if e.Start? || e.r != r {
      OtherTask(w, e, r);
    } else {
      SentOwn(w, e);
    }
    hide Step, Enabled;
  }

  lemma SentOwn(w: World, e: Event)
    requires Enabled(w, e) && !e.Start?
    ensures e.r < |w.tasks| && |Step(w, e).tasks| == |w.tasks|
    ensures var r := e.r; var t, u := w.tasks[r], Step(w, e).tasks[r];
      && u.q == t.q && (u.piped ==> t.piped || t.q.pipelinable)
      && u.sends == t.sends +
           (if (e == GotMut1(r, true) && w.sock.Some? && w.origin == t.q.origin && t.q.pipelinable)
               || (e == GotMut2(r, true) && t.pc.WaitMut2? && w.sock.Some? && w.origin == t.q.origin)
               || e == MadeSock(r, true) then 1 else 0)
  {
    hide Remove;
  }

  /** After its turn a pipelined request goes on to read exactly if the socket is there, has not been made anew, and
      as many responses have been read as were due; otherwise it makes a new one or fails. */
  lemma TurnTaken(w: World, r: nat, alive: bool)
    requires Enabled(w, GotMut2(r, alive)) && w.tasks[r].pc.WaitTurn?
    ensures var pc, next := w.tasks[r].pc, Step(w, GotMut2(r, alive)).tasks[r].pc;
      && (next.AwaitStatus? <==> w.sock.Some? && pc.gen == w.generation && pc.due == w.received)
      && (next.AwaitStatus? || next.Making? || (next.Finished? && next.result.Failed?))
  {
    hide Remove;
  }

  /** When a request fails: why, and with which status. The socket is given up then. */
  lemma FailedExactly(w: World, e: Event)
    requires Enabled(w, e) && !e.Start?
    ensures e.r < |w.tasks| && |Step(w, e).tasks| == |w.tasks|
    ensures var t, v := w.tasks[e.r], Step(w, e);
      var remade := (e.GotStatus? && e.line.NoLine?) || (e.GotMut2? && !v.tasks[e.r].pc.AwaitStatus?);
      var status :=
        if e.MadeSock? && !e.ok then Some(-2)
        else if e.GotStatus? && e.line.BadLine? then Some(-4)
        else if e.GotBody? then e.error
        else if remade && !t.canRetry then Some(-3)
        else if remade && !t.q.goodScheme then Some(-1)
        else None;
      if status.Some? then v.tasks[e.r].pc == Finished(Failed(status.value)) && v.sock == None
      else !(v.tasks[e.r].pc.Finished? && v.tasks[e.r].pc.result.Failed?)
  {
    hide Remove;
  }

  /** After a request was dropped in the middle of a response, nobody reads a whole response from that connection. */
  lemma HalfRead(ws: seq<World>, es: seq<Event>, j: nat, i: nat)
    requires Run(ws, es) && j < i < |es| && es[j].Cancel? && es[j].r < |ws[j].tasks| && ws[j].tasks[es[j].r].pc.Reading?
    requires es[i].GotStatus? && es[i].line.GoodLine? && ws[i].sock == ws[j].sock
    ensures es[i].r < |ws[i + 1].tasks|
    ensures var pc := ws[i + 1].tasks[es[i].r].pc; pc.Reading? && pc.from == None
  {
    var c := ws[j].sock.value;
    assert c < |ws[j + 1].conns| && ws[j + 1].conns[c].dirty;
    StaysDirty(ws, es, j + 1, i, c);
  }

  lemma {:induction false} StaysDirty(ws: seq<World>, es: seq<Event>, j: nat, i: nat, c: nat)
    requires Run(ws, es) && j <= i < |ws| && c < |ws[j].conns| && ws[j].conns[c].dirty
    ensures c < |ws[i].conns| && ws[i].conns[c].dirty
    decreases i
  {
    hide Enabled, Step;
    if i > j {
      StaysDirty(ws, es, j, i - 1, c);
      DirtyStep(ws[i - 1], es[i - 1], c);
    }
  }

  lemma DirtyStep(w: World, e: Event, c: nat)
    requires Enabled(w, e) && c < |w.conns| && w.conns[c].dirty
    ensures c < |Step(w, e).conns| && Step(w, e).conns[c].dirty
  {
    hide Remove;
  }

  predicate Same(t: Task, u: Task) {
    t.canRetry == u.canRetry && t.reused == u.reused
  }

  lemma RecreateTask(w: World, r: nat)
    requires r < |w.tasks|
    ensures var v := Recreate(w, r);
      |v.tasks| == |w.tasks| && Same(v.tasks[r], w.tasks[r]) && (v.tasks[r].pc == Making || (v.tasks[r].pc.Finished? && v.tasks[r].pc.result.Failed?))
    ensures var v := Recreate(w, r); v.tasks == w.tasks[r := v.tasks[r]]
  {
    hide Remove;
  }

  predicate Ended(pc: Pc) {
    pc == Making || pc == Cancelled || (pc.Finished? && pc.result.Failed?)
  }

  lemma Mut2Task(w: World, e: Event)
    requires Enabled(w, e) && e.GotMut2?
    ensures var v := Step(w, e); |v.tasks| == |w.tasks|
    ensures var t, u := w.tasks[e.r], Step(w, e).tasks[e.r];
      if t.pc.WaitTurn? then Same(t, u) && (if Passes(w, t.pc) then u.pc == AwaitStatus(t.pc.conn, t.pc.idx) else Ended(u.pc))
      else if CanKeepalive(w, t.q, e.alive) then u.pc.AwaitStatus? && !u.canRetry && u.reused
      else Same(t, u) && Ended(u.pc)
  {
    RecreateTask(w, e.r);
    hide Remove, Recreate;
  }

  lemma OwnTask(w: World, e: Event)
    requires Enabled(w, e) && !e.Start? && !e.GotMut2?
    ensures var v := Step(w, e); |v.tasks| == |w.tasks|
    ensures var t, u := w.tasks[e.r], Step(w, e).tasks[e.r];
      match e
      case GotMut1(_, _) => Same(t, u) && (u.pc == WaitMut2 || u.pc.WaitTurn?)
      case MadeSock(_, ok) => if ok then u.pc.AwaitStatus? && !u.canRetry && !u.reused else Same(t, u) && Ended(u.pc)
      case GotStatus(_, line) => Same(t, u) && (if line == GoodLine then u.pc.Reading? else Ended(u.pc))
      case GotBody(_, error) => Same(t, u) && (if error.Some? then Ended(u.pc) else u.pc == Finished(Answered(t.pc.from)))
      case Cancel(_) => Same(t, u) && u.pc == Cancelled
  {
    RecreateTask(w, e.r);
    hide Remove, Recreate;
  }

  /** Nobody else's task changes, and a new one has just begun. */
  lemma OtherTask(w: World, e: Event, r: nat)
    requires Enabled(w, e) && r < |Step(w, e).tasks| && (e.Start? || e.r != r)
    ensures if r < |w.tasks| then Step(w, e).tasks[r] == w.tasks[r] else Step(w, e).tasks[r].pc == WaitMut1
  {
    if e.GotMut2? || e.GotStatus? {
      RecreateTask(w, e.r);
    }
    hide Remove, Recreate;
  }

  // ----- whose response a request reads: three cases that exclude each other -----

  /** First, a request that reads from a socket it has made itself, at once or when it retried: always its own. */
  lemma PairingFresh(ws: seq<World>, es: seq<Event>, i: nat, r: nat)
    requires Run(ws, es) && i < |ws| && r < |ws[i].tasks|
    ensures var t := ws[i].tasks[r];
      !t.canRetry && !t.reused && t.pc.Finished? && t.pc.result.Answered? ==> t.pc.result.from == Some(r)
  {
    Reachable(ws, es, i);
    hide Links, Queues, Spots, Tallies, Run;
  }

  /** A request that was transmitted once reads its own response exactly when its connection is the socket
      and what comes next there is the response to it. */
  lemma OwnResponse(w: World, r: nat)
    requires Base(w) && Enabled(w, GotStatus(r, GoodLine))
    ensures var c, pc := w.conns[w.sock.value], Step(w, GotStatus(r, GoodLine)).tasks[r].pc;
      pc.Reading? && (pc.from == Some(r) <==> Own(w, r))
  {
    hide Links, Queues, Fresh;
    assert Spot(w, r);
    var s, pc := w.sock.value, w.tasks[r].pc;
    assert w.conns[pc.conn].log[pc.idx] == r;
  }

  predicate Own(w: World, r: nat) {
    Turn(w, r) && !w.conns[w.sock.value].dirty
  }

  /** r holds mut2 after passing the check or taking over a socket, or is done; own says whether what it
      reads, or is going to read, is its own response. If the connection broke and r retries, nothing is said. */
  ghost predicate Track(w: World, r: nat, canRetry: bool, own: bool) {
    r < |w.tasks| && (w.tasks[r].canRetry == canRetry ==>
      match w.tasks[r].pc
      case AwaitStatus(_, _) => own <==> Own(w, r)
      case Reading(_, _, from) => own <==> from == Some(r)
      case Finished(Answered(from)) => own <==> from == Some(r)
      case Finished(Failed(_)) => true
      case Cancelled => true
      case Making => canRetry
      case _ => false)
  }

  /** Who waits for a mutex or a socket may still retry. */
  lemma MayRetry(w: World, r: nat)
    requires Tallies(w) && r < |w.tasks|
    ensures w.tasks[r].pc.WaitMut1? || w.tasks[r].pc.WaitMut2? || w.tasks[r].pc.WaitTurn? || w.tasks[r].pc.Making? ==> w.tasks[r].canRetry
  {
    assert TaskOk(w.tasks[r]);
  }

  lemma TrackOwn(w: World, e: Event, r: nat, canRetry: bool, own: bool)
    requires Base(w) && Track(w, r, canRetry, own) && Enabled(w, e) && !e.Start? && e.r == r && (!canRetry ==> !w.tasks[r].canRetry)
    ensures Track(Step(w, e), r, canRetry, own) && (!canRetry ==> !Step(w, e).tasks[r].canRetry)
  {
    MayRetry(w, r);
    if e.GotMut2? {
      Mut2Task(w, e);
    } else {
      OwnTask(w, e);
      if e.GotStatus? && e.line == GoodLine {
        hide Step, CanKeepalive;
        OwnResponse(w, r);
      }
    }
    hide Base, Step, Own, Passes, CanKeepalive;
  }

  lemma TrackOther(w: World, e: Event, r: nat, canRetry: bool, own: bool)
    requires Base(w) && Track(w, r, canRetry, own) && Enabled(w, e) && (e.Start? || e.r != r) && (!canRetry ==> !w.tasks[r].canRetry)
    ensures Track(Step(w, e), r, canRetry, own) && (!canRetry ==> !Step(w, e).tasks[r].canRetry)
  {
    hide Links, Spots, Tallies, Fresh, Remove, Distinct, Last, NextResponse;
  }

  lemma {:induction false} TrackRun(ws: seq<World>, es: seq<Event>, j: nat, i: nat, r: nat, canRetry: bool, own: bool)
    requires Run(ws, es) && j <= i < |ws| && Track(ws[j], r, canRetry, own) && (!canRetry ==> !ws[j].tasks[r].canRetry)
    ensures Track(ws[i], r, canRetry, own) && (!canRetry ==> !ws[i].tasks[r].canRetry)
    decreases i
  {
    hide Base, Track, Enabled, Step;
    if i > j {
      TrackRun(ws, es, j, i - 1, r, canRetry, own);
      Reachable(ws, es, i - 1);
      InTasks(ws[i - 1], r, canRetry, own);
      if es[i - 1].Start? || es[i - 1].r != r {
        TrackOther(ws[i - 1], es[i - 1], r, canRetry, own);
      } else {
        TrackOwn(ws[i - 1], es[i - 1], r, canRetry, own);
      }
    }
  }

  lemma InTasks(w: World, r: nat, canRetry: bool, own: bool)
    requires Track(w, r, canRetry, own)
    ensures r < |w.tasks|
  {
  }

  /** Second, a pipelined request that passes the check and does not retry: exactly if it was its turn then,
      and no response was left half-read. */
  lemma TurnExact(ws: seq<World>, es: seq<Event>, j: nat, i: nat, r: nat)
    requires Run(ws, es) && j < i < |ws| && es[j].GotMut2? && es[j].r == r
    requires r < |ws[j].tasks| && ws[j].tasks[r].pc.WaitTurn? && Passes(ws[j], ws[j].tasks[r].pc)
    ensures r < |ws[i].tasks|
    ensures var t := ws[i].tasks[r];
      t.canRetry && t.pc.Finished? && t.pc.result.Answered? ==> (t.pc.result.from == Some(r) <==> Own(ws[j], r))
  {
    Reachable(ws, es, j);
    assert TaskOk(ws[j].tasks[r]);
    assert Track(ws[j + 1], r, true, Own(ws[j], r)) by {
      hide Base;
    }
    TrackRun(ws, es, j + 1, i, r, true, Own(ws[j], r));
    hide Run, Own, Base, Step, Enabled;
  }

  /** When the check is passed, it is the request's turn exactly if neither counter has gone round: fewer than
      2^32 connections were made since, and it is less than 2^16 responses away from being next. */
  lemma TurnGaps(w: World, r: nat)
    requires Base(w) && r < |w.tasks| && w.tasks[r].pc.WaitTurn? && Passes(w, w.tasks[r].pc)
    ensures var pc := w.tasks[r].pc;
      pc.conn < |w.conns| && (Turn(w, r) <==>
        |w.conns| - (pc.conn + 1) < 0x1_0000_0000 && -0x1_0000 < pc.idx - w.conns[pc.conn].done < 0x1_0000)
  {
    hide Queues, Tallies, Fresh;
    var pc := w.tasks[r].pc;
    assert Spot(w, r);
    SameResidue32(|w.conns|, pc.conn + 1);
    if pc.conn + 1 == |w.conns| {
      SameResidue16(pc.idx, w.conns[pc.conn].done);
    }
  }

  lemma SameResidue16(a: nat, b: nat)
    requires a % 0x1_0000 == b % 0x1_0000
    ensures a == b <==> -0x1_0000 < a - b < 0x1_0000
  {
  }

  lemma SameResidue32(a: nat, b: nat)
    requires b <= a && a % 0x1_0000_0000 == b % 0x1_0000_0000
    ensures a == b <==> a - b < 0x1_0000_0000
  {
  }

  /** Everything sent on the socket has been answered and read. */
  predicate Settled(w: World)
    requires w.sock.Some?
  {
    var c := w.conns[w.sock.value];
    c.done == |c.log| && !c.dirty
  }

  /** Third, a request that takes mut2 early and then uses the kept-alive socket: exactly if everything sent on
      that socket had been answered. This is what the late path checks and the early one does not. */
  lemma ReuseExact(ws: seq<World>, es: seq<Event>, j: nat, i: nat, r: nat)
    requires Run(ws, es) && j < i < |ws| && es[j].GotMut2? && es[j].r == r
    requires r < |ws[j].tasks| && ws[j].tasks[r].pc.WaitMut2? && CanKeepalive(ws[j], ws[j].tasks[r].q, es[j].alive)
    ensures r < |ws[i].tasks|
    ensures var pc := ws[i].tasks[r].pc;
      pc.Finished? && pc.result.Answered? ==> (pc.result.from == Some(r) <==> Settled(ws[j]))
  {
    Reachable(ws, es, j);
    assert Track(ws[j + 1], r, false, Settled(ws[j])) by {
      hide Base, Remove;
    }
    TrackRun(ws, es, j + 1, i, r, false, Settled(ws[j]));
    hide Run, Settled, Base, Step, Enabled;
  }

  predicate Reads(t: Task) {
    t.pc.AwaitStatus? || t.pc.Reading? || (t.pc.Finished? && t.pc.result.Answered?)
  }

  /** One step into the second case. */
  lemma EntersSecond(w: World, e: Event, r: nat)
    requires Base(w) && Enabled(w, e) && r < |Step(w, e).tasks|
    ensures var t := Step(w, e).tasks[r];
      Reads(t) && t.canRetry && !(r < |w.tasks| && Reads(w.tasks[r]) && w.tasks[r].canRetry) ==>
        e.GotMut2? && e.r == r && r < |w.tasks| && w.tasks[r].pc.WaitTurn? && Passes(w, w.tasks[r].pc)
  {
    if r < |w.tasks| {
      MayRetry(w, r);
    }
    if e.Start? || e.r != r {
      OtherTask(w, e, r);
    } else if e.GotMut2? {
      Mut2Task(w, e);
    } else {
      OwnTask(w, e);
    }
    hide Base, Step, Passes, CanKeepalive;
  }

  /** One step into the third case. */
  lemma EntersThird(w: World, e: Event, r: nat)
    requires Base(w) && Enabled(w, e) && r < |Step(w, e).tasks|
    ensures var t := Step(w, e).tasks[r];
      Reads(t) && t.reused && !(r < |w.tasks| && Reads(w.tasks[r]) && w.tasks[r].reused) ==>
        e.GotMut2? && e.r == r && r < |w.tasks| && w.tasks[r].pc.WaitMut2? && CanKeepalive(w, w.tasks[r].q, e.alive)
  {
    if r < |w.tasks| {
      MayRetry(w, r);
    }
    if e.Start? || e.r != r {
      OtherTask(w, e, r);
    } else if e.GotMut2? {
      Mut2Task(w, e);
    } else {
      OwnTask(w, e);
    }
    hide Base, Step, Passes, CanKeepalive;
  }

  /** Who has reused a socket does not retry. */
  lemma ReusedOnce(w: World, r: nat)
    requires Base(w) && r < |w.tasks| && w.tasks[r].reused
    ensures !w.tasks[r].canRetry
  {
    assert TaskOk(w.tasks[r]);
  }

  /** Every request that reads without having made a socket has come there by one of the two ways. */
  lemma {:induction false} HowItReads(ws: seq<World>, es: seq<Event>, i: nat, r: nat) returns (j: nat)
    requires Run(ws, es) && i < |ws| && r < |ws[i].tasks| && Reads(ws[i].tasks[r])
    requires ws[i].tasks[r].canRetry || ws[i].tasks[r].reused
    ensures j < i && es[j].GotMut2? && es[j].r == r && r < |ws[j].tasks|
    ensures ws[i].tasks[r].canRetry ==> ws[j].tasks[r].pc.WaitTurn? && Passes(ws[j], ws[j].tasks[r].pc)
    ensures !ws[i].tasks[r].canRetry ==> ws[j].tasks[r].pc.WaitMut2? && CanKeepalive(ws[j], ws[j].tasks[r].q, es[j].alive)
    decreases i
  {
    hide Base, Step, Enabled, Reads, Passes, CanKeepalive;
    if i > 0 {
      var w, e := ws[i - 1], es[i - 1];
      Reachable(ws, es, i - 1);
      EntersSecond(w, e, r);
      EntersThird(w, e, r);
      if r < |w.tasks| && Reads(w.tasks[r]) && (if ws[i].tasks[r].canRetry then w.tasks[r].canRetry else w.tasks[r].reused) {
        if w.tasks[r].reused {
          ReusedOnce(w, r);
        }
        j := HowItReads(ws, es, i - 1, r);
      } else {
        j := i - 1;
      }
    } else {
      NobodyYet(r);
    }
  }

  lemma NobodyYet(r: nat)
    ensures |Begin().tasks| == 0
  {
  }

  /** At j the request got mut2: late, and passed the check, or early, and could use the socket there was. */
  ghost predicate TookMut2(ws: seq<World>, es: seq<Event>, j: nat, r: nat, late: bool) {
    && j < |es| && j < |ws| && es[j].GotMut2? && es[j].r == r && r < |ws[j].tasks|
    && var pc := ws[j].tasks[r].pc;
       if late then pc.WaitTurn? && Passes(ws[j], pc) else pc.WaitMut2? && CanKeepalive(ws[j], ws[j].tasks[r].q, es[j].alive)
  }

  /** The three cases together: in every run, whatever is cancelled, a request that got a response got its own
      exactly under the condition of its case, at the moment j when it took mut2. */
  lemma PairingExact(ws: seq<World>, es: seq<Event>, i: nat, r: nat) returns (j: nat)
    requires Run(ws, es) && i < |ws| && r < |ws[i].tasks|
    requires ws[i].tasks[r].pc.Finished? && ws[i].tasks[r].pc.result.Answered?
    ensures j < |ws|
    ensures var t := ws[i].tasks[r];
      t.canRetry || t.reused ==> TookMut2(ws, es, j, r, t.canRetry) && j < i
    ensures var t := ws[i].tasks[r];
      t.pc.result.from == Some(r) <==>
        if t.canRetry then Own(ws[j], r) else if t.reused then ws[j].sock.Some? && Settled(ws[j]) else true
  {
    hide Own, Settled, Step, Enabled;
    j := i;
    var t := ws[i].tasks[r];
    if t.canRetry || t.reused {
      j := HowItReads(ws, es, i, r);
      if t.canRetry {
        TurnExact(ws, es, j, i, r);
      } else {
        ReuseExact(ws, es, j, i, r);
      }
    } else {
      PairingFresh(ws, es, i, r);
    }
  }

  // ----- runs in which no check is passed out of turn -----

  ghost predicate AllHonest(ws: seq<World>, es: seq<Event>) {
    |ws| == |es| + 1 && forall i :: 0 <= i < |es| ==> Honest(ws[i], es[i])
  }

  lemma {:induction false} HonestReachable(ws: seq<World>, es: seq<Event>, i: nat)
    requires Run(ws, es) && AllHonest(ws, es) && i < |ws|
    ensures Inv(ws[i])
  {
    hide Inv, Honest, Step, Enabled;
    if i == 0 {
      BeginInv();
    } else {
      HonestReachable(ws, es, i - 1);
      StepInv(ws[i - 1], es[i - 1]);
    }
  }

  /** Then, whatever is cancelled, a request that did not take an old socket over together with mut2 reads the
      response to itself or none. */
  lemma Pairing(ws: seq<World>, es: seq<Event>, i: nat, r: nat)
    requires Run(ws, es) && AllHonest(ws, es) && i < |ws| && r < |ws[i].tasks|
    ensures var t := ws[i].tasks[r];
      !t.reused && t.pc.Finished? && t.pc.result.Answered? ==> t.pc.result.from == Some(r)
    ensures var t := ws[i].tasks[r]; t.piped ==> !t.reused
  {
    HonestReachable(ws, es, i);
    hide Counters, Queues, Places, AllHonest, Run;
  }

  // ----- runs without cancellation -----

  ghost predicate MakingNow(w: World) {
    |w.mut2| > 0 && w.mut2[0] < |w.tasks| && w.tasks[w.mut2[0]].pc.Making?
  }

  /** Without cancellation, every request that is sent and unanswered is still there to read its response,
      except while the socket is being replaced. */
  ghost predicate Quiet(w: World) {
    && (forall c :: 0 <= c < |w.conns| ==> !w.conns[c].dirty)
    && (w.sock.Some? && !MakingNow(w) ==> Attended(w, w.sock.value))
    && forall r {:trigger w.tasks[r]} :: 0 <= r < |w.tasks| ==>
         match w.tasks[r].pc
         case AwaitStatus(c, i) => c < |w.conns| && w.conns[c].done == i
         case Reading(_, _, from) => from == Some(r)
         case Finished(Answered(from)) => from == Some(r)
         case _ => true
  }

  predicate Attended(w: World, c: nat)
    requires c < |w.conns|
  {
    forall k :: w.conns[c].done <= k < |w.conns[c].log| ==>
      var x := w.conns[c].log[k];
      x < |w.tasks| && Placed(w.tasks[x].pc) && w.tasks[x].pc.conn == c && w.tasks[x].pc.idx == k
  }

  lemma NonePlaced(w: World, r: nat)
    requires Queues(w) && r < |w.tasks| && w.tasks[r].pc.WaitMut2? && Head(w.mut2, r)
    ensures !MakingNow(w) && forall x :: 0 <= x < |w.tasks| ==> !Placed(w.tasks[x].pc)
  {
    HeadAhead(w.mut2, r);
    hide Ahead, Distinct;
  }

  lemma SomePlaced(w: World, c: nat)
    requires c < |w.conns| && Attended(w, c) && w.conns[c].done < |w.conns[c].log|
    ensures exists x :: 0 <= x < |w.tasks| && Placed(w.tasks[x].pc)
  {
    var x := w.conns[c].log[w.conns[c].done];
    assert Placed(w.tasks[x].pc);
  }

  /** Who takes mut2 early on a kept-alive socket finds everything on it answered. */
  lemma AllAnswered(w: World, r: nat)
    requires Inv(w) && Quiet(w) && r < |w.tasks| && w.tasks[r].pc.WaitMut2? && Head(w.mut2, r) && w.sock.Some?
    ensures w.conns[w.sock.value].done == |w.conns[w.sock.value].log|
  {
    NonePlaced(w, r);
    hide Places, Tallies, Answers, Queues, Attended, Placed;
    if w.conns[w.sock.value].done < |w.conns[w.sock.value].log| {
      SomePlaced(w, w.sock.value);
    }
  }

  lemma QuietReuse(w: World, r: nat, alive: bool)
    requires Inv(w) && Quiet(w) && Enabled(w, GotMut2(r, alive)) && w.tasks[r].pc.WaitMut2? && CanKeepalive(w, w.tasks[r].q, alive)
    ensures Quiet(Step(w, GotMut2(r, alive)))
  {
    AllAnswered(w, r);
    hide Places, Tallies, Answers, Remove, Queues;
  }

  lemma QuietPass(w: World, r: nat, alive: bool)
    requires Inv(w) && Quiet(w) && Turn(w, r) && Enabled(w, GotMut2(r, alive)) && w.tasks[r].pc.WaitTurn? && Passes(w, w.tasks[r].pc)
    ensures Quiet(Step(w, GotMut2(r, alive)))
  {
    PassInv(w, r, alive);
    hide Places, Queues, Remove, Counters, Tallies;
  }

  lemma QuietRecreate(w: World, r: nat)
    requires Quiet(w) && r < |w.tasks| && Head(w.mut2, r)
    ensures Quiet(Recreate(w, r))
  {
    hide Remove;
  }

  lemma QuietMut2(w: World, r: nat, alive: bool)
    requires Inv(w) && Quiet(w) && Honest(w, GotMut2(r, alive)) && Enabled(w, GotMut2(r, alive))
    ensures Quiet(Step(w, GotMut2(r, alive)))
  {
    hide Inv, Quiet, Recreate, SendAndRead;
    if w.tasks[r].pc.WaitMut2? && CanKeepalive(w, w.tasks[r].q, alive) {
      QuietReuse(w, r, alive);
    } else if w.tasks[r].pc.WaitTurn? && Passes(w, w.tasks[r].pc) {
      QuietPass(w, r, alive);
    } else {
      QuietRecreate(w, r);
    }
  }

  lemma QuietStart(w: World, q: Req)
    requires Inv(w) && Quiet(w)
    ensures Quiet(Step(w, Start(q)))
  {
    hide Places, Queues, Tallies, Answers;
  }

  lemma QuietMut1(w: World, r: nat, alive: bool)
    requires Inv(w) && Quiet(w) && Enabled(w, GotMut1(r, alive))
    ensures Quiet(Step(w, GotMut1(r, alive)))
  {
    hide Places, Tallies, Answers, Remove;
  }

  lemma QuietSock(w: World, r: nat, ok: bool)
    requires Inv(w) && Quiet(w) && Enabled(w, MadeSock(r, ok))
    ensures Quiet(Step(w, MadeSock(r, ok)))
  {
    hide Places, Tallies, Answers, Remove;
  }

  lemma QuietLine(w: World, r: nat)
    requires Places(w) && Quiet(w) && Enabled(w, GotStatus(r, GoodLine))
    ensures NextResponse(w.conns[w.sock.value]) == Some(r)
  {
    hide Ahead, Before;
  }

  lemma QuietStatus(w: World, r: nat, line: Line)
    requires Inv(w) && Quiet(w) && Enabled(w, GotStatus(r, line))
    ensures Quiet(Step(w, GotStatus(r, line)))
  {
    if line == GoodLine {
      QuietLine(w, r);
      hide Inv;
    } else if line == NoLine {
      HeldAtHead(w, r);
      hide Inv, Recreate;
      QuietRecreate(w, r);
    }
    hide Inv, Remove;
  }

  lemma QuietBody(w: World, r: nat, error: Option<int>)
    requires Inv(w) && Quiet(w) && Enabled(w, GotBody(r, error))
    ensures Quiet(Step(w, GotBody(r, error)))
  {
    NoOtherReader(w, r);
    hide Tallies, Answers, Remove, Ahead;
  }

  lemma QuietStep(w: World, e: Event)
    requires Inv(w) && Quiet(w) && Honest(w, e) && Enabled(w, e) && !e.Cancel?
    ensures Quiet(Step(w, e))
  {
    hide *;
    match e
    case Start(q) => QuietStart(w, q);
    case GotMut1(r, alive) => QuietMut1(w, r, alive);
    case GotMut2(r, alive) => QuietMut2(w, r, alive);
    case MadeSock(r, ok) => QuietSock(w, r, ok);
    case GotStatus(r, line) => QuietStatus(w, r, line);
    case GotBody(r, error) => QuietBody(w, r, error);
  }

  lemma QuietBegin()
    ensures Quiet(Begin())
  {
  }

  /** Without cancellation, the first in line for mut2 is next on its connection: so the check is passed out of
      turn only if 2^32 connections were made meanwhile. */
  lemma QuietHonest(w: World, e: Event)
    requires Inv(w) && Quiet(w) && Enabled(w, e) && |w.conns| <= 0x1_0000_0000
    ensures Honest(w, e)
  {
    if e.GotMut2? && w.tasks[e.r].pc.WaitTurn? && Passes(w, w.tasks[e.r].pc) {
      var pc := w.tasks[e.r].pc;
      assert pc.conn < |w.conns|;
      SameResidue32(|w.conns|, pc.conn + 1);
      NextInLine(w, e.r);
    }
  }

  lemma NextInLine(w: World, r: nat)
    requires Inv(w) && Quiet(w) && r < |w.tasks| && w.tasks[r].pc.WaitTurn? && Head(w.mut2, r)
    requires w.sock == Some(w.tasks[r].pc.conn)
    ensures w.conns[w.sock.value].done == w.tasks[r].pc.idx
  {
    HeadAhead(w.mut2, r);
    hide Tallies, Answers, Ahead, Distinct;
    var c, idx := w.conns[w.sock.value], w.tasks[r].pc.idx;
    assert c.done <= idx;
    if c.done < idx {
      var x := c.log[c.done];
      assert Placed(w.tasks[x].pc) && x in w.mut2 && c.log[idx] == r;
      BeforeOnly(w, r, x);
    }
  }

  lemma BeforeOnly(w: World, x: nat, y: nat)
    requires Places(w) && x < |w.tasks| && y < |w.tasks| && Placed(w.tasks[x].pc) && Placed(w.tasks[y].pc)
    requires w.tasks[x].pc.conn == w.tasks[y].pc.conn
    ensures Ahead(w.mut2, x, y) ==> w.tasks[x].pc.idx < w.tasks[y].pc.idx
  {
    hide Ahead;
    assert Ahead(w.mut2, x, y) ==> Before(w, x, y);
  }

  /** Fewer than 2^32 connections. */
  ghost predicate FewConnections(ws: seq<World>) {
    forall i :: 0 <= i < |ws| ==> |ws[i].conns| <= 0x1_0000_0000
  }

  lemma {:induction false} StaysQuiet(ws: seq<World>, es: seq<Event>, i: nat)
    requires Run(ws, es) && FewConnections(ws) && i < |ws| && forall k :: 0 <= k < |es| ==> !es[k].Cancel?
    ensures Inv(ws[i]) && Quiet(ws[i])
  {
    hide Inv, Quiet, Step, Enabled, Honest;
    if i == 0 {
      BeginInv();
      QuietBegin();
    } else {
      StaysQuiet(ws, es, i - 1);
      QuietHonest(ws[i - 1], es[i - 1]);
      StepInv(ws[i - 1], es[i - 1]);
      QuietStep(ws[i - 1], es[i - 1]);
    }
  }

  /** Without cancellation every request that gets a response gets its own, however many are in flight. */
  lemma PairingUncancelled(ws: seq<World>, es: seq<Event>, i: nat, r: nat)
    requires Run(ws, es) && FewConnections(ws) && i < |ws| && r < |ws[i].tasks| && forall k :: 0 <= k < |es| ==> !es[k].Cancel?
    ensures var pc := ws[i].tasks[r].pc; pc.Finished? && pc.result.Answered? ==> pc.result.from == Some(r)
  {
    StaysQuiet(ws, es, i);
    hide Inv, Run, FewConnections;
  }

  // ----- no deadlock, no livelock -----

  predicate Done(pc: Pc) {
    pc.Finished? || pc.Cancelled?
  }

  /** How many more steps a request can take. */
  function Rank(t: Task): nat {
    match t.pc
    case WaitMut1 => 6
    case WaitMut2 => 5
    case WaitTurn(_, _, _, _) => 5
    case AwaitStatus(_, _) => if t.canRetry then 4 else 2
    case Making => 3
    case Reading(_, _, _) => 1
    case Finished(_) => 0
    case Cancelled => 0
  }

  function Ranks(ts: seq<Task>): nat {
    if |ts| == 0 then 0 else Ranks(ts[..|ts| - 1]) + Rank(ts[|ts| - 1])
  }

  lemma {:induction false} RanksUpdate(ts: seq<Task>, r: nat, t: Task)
    requires r < |ts|
    ensures Ranks(ts[r := t]) == Ranks(ts) - Rank(ts[r]) + Rank(t)
  {
    hide Rank;
    var n := |ts| - 1;
    if r == n {
      assert ts[r := t][..n] == ts[..n];
    } else {
      RanksUpdate(ts[..n], r, t);
      assert ts[r := t][..n] == ts[..n][r := t];
    }
  }

  /** A retry is a step forward. */
  lemma RecreateOne(w: World, r: nat)
    requires r < |w.tasks| && (w.tasks[r].pc.WaitMut2? || w.tasks[r].pc.WaitTurn? || w.tasks[r].pc.AwaitStatus?)
    ensures var v := Recreate(w, r); |v.tasks| == |w.tasks| && v.tasks == w.tasks[r := v.tasks[r]] && Rank(v.tasks[r]) < Rank(w.tasks[r])
  {
    hide Remove;
  }

  lemma OnlyOne(w: World, e: Event)
    requires Enabled(w, e) && !e.Start?
    ensures e.r < |w.tasks|
    ensures var v := Step(w, e); |v.tasks| == |w.tasks| && v.tasks == w.tasks[e.r := v.tasks[e.r]] && Rank(v.tasks[e.r]) < Rank(w.tasks[e.r])
  {
    if e.GotMut2? || e.GotStatus? {
      RecreateOne(w, e.r);
    }
    hide Remove, Recreate;
  }

  function Starts(es: seq<Event>): nat {
    if |es| == 0 then 0 else Starts(es[..|es| - 1]) + if es[|es| - 1].Start? then 1 else 0
  }

  lemma {:induction false} Spent(ws: seq<World>, es: seq<Event>, i: nat)
    requires Run(ws, es) && i < |ws|
    ensures Ranks(ws[i].tasks) + i <= 7 * Starts(es[..i])
  {
    hide Rank, Enabled, Step;
    if i > 0 {
      Spent(ws, es, i - 1);
      assert es[..i][..i - 1] == es[..i - 1];
      var w, e, v := ws[i - 1], es[i - 1], ws[i];
      if e.Start? {
        OneMore(w, e);
      } else {
        OnlyOne(w, e);
        RanksUpdate(w.tasks, e.r, v.tasks[e.r]);
      }
    }
  }

  lemma OneMore(w: World, e: Event)
    requires e.Start?
    ensures Ranks(Step(w, e).tasks) == Ranks(w.tasks) + 6
  {
    assert Step(w, e).tasks[..|w.tasks|] == w.tasks;
  }

  /** Every request is over after at most six steps: a run is at most seven times as long as it has requests. */
  lemma NoLivelock(ws: seq<World>, es: seq<Event>)
    requires Run(ws, es)
    ensures |es| <= 7 * Starts(es)
  {
    Spent(ws, es, |es|);
    assert es[..|es|] == es;
  }

  /** While any request is unfinished, some request can take its next step without anything being cancelled:
      the two mutexes never block each other. */
  lemma NoDeadlock(ws: seq<World>, es: seq<Event>, i: nat, r: nat) returns (e: Event)
    requires Run(ws, es) && i < |ws| && r < |ws[i].tasks| && !Done(ws[i].tasks[r].pc)
    ensures Enabled(ws[i], e) && !e.Start? && !e.Cancel?
  {
    Reachable(ws, es, i);
    hide Run;
    e := NextStep(ws[i], r);
  }

  lemma NextStep(w: World, r: nat) returns (e: Event)
    requires Base(w) && r < |w.tasks| && !Done(w.tasks[r].pc)
    ensures Enabled(w, e) && !e.Start? && !e.Cancel?
  {
    hide Tallies, Fresh, Links, Distinct, Only;
    if |w.mut2| > 0 {
      var h := w.mut2[0];
      assert h in w.mut2;
      e := match w.tasks[h].pc
        case Making => MadeSock(h, false)
        case AwaitStatus(_, _) => GotStatus(h, NoLine)
        case Reading(_, _, _) => GotBody(h, None)
        case _ => GotMut2(h, true);
    } else {
      var h := w.mut1[0];
      assert h in w.mut1;
      e := GotMut1(h, true);
    }
  }
}
