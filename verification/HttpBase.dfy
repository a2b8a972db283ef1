/** What holds in every state of every run, whatever is cancelled and however far the counters have wrapped. */
module HttpBase {
  import opened Wrappers
  import opened HttpModel
  import opened HttpPipeline

  /** r was transmitted at idx on connection conn, and nowhere else. */
  predicate Only(w: World, r: nat, conn: nat, idx: nat) {
    forall c, k :: 0 <= c < |w.conns| && 0 <= k < |w.conns[c].log| && w.conns[c].log[k] == r ==> c == conn && k == idx
  }

  /** A response can be read. */
  predicate Begun(c: Conn) {
    c.dirty || c.done < |c.log|
  }

  /** Where the transmissions are, and from which socket the holder of mut2 reads. */
  ghost predicate Spots(w: World) {
    forall r {:trigger w.tasks[r]} :: 0 <= r < |w.tasks| && Placed(w.tasks[r].pc) ==> Spot(w, r)
  }

  ghost predicate Spot(w: World, r: nat)
    requires r < |w.tasks| && Placed(w.tasks[r].pc)
  {
    var pc := w.tasks[r].pc;
    && pc.conn < |w.conns| && pc.idx < |w.conns[pc.conn].log| && w.conns[pc.conn].log[pc.idx] == r
    && (pc.WaitTurn? ==> pc.gen == (pc.conn + 1) % 0x1_0000_0000 && pc.due == pc.idx % 0x1_0000)
    && (!pc.WaitTurn? ==> w.sock.Some?)
    && (pc.Reading? && w.sock.Some? ==> Begun(w.conns[w.sock.value]) && pc.from == NextResponse(w.conns[w.sock.value]))
    && (if w.tasks[r].canRetry then Only(w, r, pc.conn, pc.idx) else !pc.WaitTurn? && w.sock == Some(pc.conn))
  }

  /** Who reads from a socket that it has made itself reads its own response. */
  ghost predicate Fresh(w: World) {
    forall r {:trigger w.tasks[r]} :: 0 <= r < |w.tasks| && !w.tasks[r].canRetry && !w.tasks[r].reused ==>
      match w.tasks[r].pc
      case AwaitStatus(c, i) => i == 0 && c < |w.conns| && w.conns[c].done == 0 && !w.conns[c].dirty
      case Reading(_, _, from) => from == Some(r)
      case Finished(Answered(from)) => from == Some(r)
      case _ => true
  }

  ghost predicate Base(w: World) {
    Links(w) && Queues(w) && Tallies(w) && Spots(w) && Fresh(w)
  }

  lemma BeginBase()
    ensures Base(Begin())
  {
    BeginInv();
    hide Queues, Tallies, Places, Answers;
  }

  lemma StartBase(w: World, q: Req)
    requires Base(w)
    ensures Base(Step(w, Start(q)))
  {
    var v := Step(w, Start(q));
    StartQueues(w, v, Task(q, WaitMut1, true, false, false, 0));
    hide Queues, Ahead;
    assert Tallies(v);
    hide Tallies;
    assert Spots(v);
  }

  lemma QueueBase(w: World, r: nat, alive: bool)
    requires Base(w) && Enabled(w, GotMut1(r, alive)) && !CanPipeline(w, w.tasks[r].q, alive)
    ensures Base(Step(w, GotMut1(r, alive)))
  {
    var v := Step(w, GotMut1(r, alive));
    JoinedQueues(w, v, r);
    hide Queues;
    assert Tallies(v);
    hide Tallies;
  }

  /** One more transmission of r keeps everybody else's spot. */
  lemma SentSpots(w: World, v: World, r: nat, c: nat)
    requires Spots(w) && r < |w.tasks| && c < |w.conns| && v.sock == w.sock && |v.tasks| == |w.tasks|
    requires v.conns == w.conns[c := w.conns[c].(log := w.conns[c].log + [r])]
    requires forall x :: 0 <= x < |w.tasks| && x != r ==> v.tasks[x] == w.tasks[x]
    requires Placed(v.tasks[r].pc) && Spot(v, r)
    ensures Spots(v)
  {
    forall x | 0 <= x < |v.tasks| && x != r && Placed(v.tasks[x].pc)
      ensures Spot(v, x)
    {
      assert Spot(w, x);
    }
  }

  /** A step that leaves the logs alone, of a request that holds mut2 or is not placed. */
  lemma KeptSpots(w: World, v: World, r: nat)
    requires Spots(w) && r < |w.tasks| && |v.tasks| == |w.tasks| && |v.conns| == |w.conns|
    requires forall c :: 0 <= c < |w.conns| ==> v.conns[c].log == w.conns[c].log
    requires forall x :: 0 <= x < |w.tasks| && x != r ==> v.tasks[x] == w.tasks[x] && (HasMut2(w.tasks[x].pc) ==> v.sock == w.sock && v.conns == w.conns)
    requires Placed(v.tasks[r].pc) ==> Spot(v, r)
    ensures Spots(v)
  {
    forall x | 0 <= x < |v.tasks| && x != r && Placed(v.tasks[x].pc)
      ensures Spot(v, x)
    {
      assert Spot(w, x);
    }
  }

  lemma PipelineBase(w: World, r: nat, alive: bool)
    requires Base(w) && Enabled(w, GotMut1(r, alive)) && CanPipeline(w, w.tasks[r].q, alive)
    ensures Base(Step(w, GotMut1(r, alive)))
  {
    var v := Step(w, GotMut1(r, alive));
    SentQueues(w, v, r);
    NotSent(w, r);
    SentTallies(w, v, r, w.sock.value);
    hide Queues, Tallies, Remove;
    assert Spot(v, r);
    SentSpots(w, v, r, w.sock.value);
    hide Spots;
    assert Links(v) && Fresh(v);
  }

  lemma ReuseBase(w: World, r: nat, alive: bool)
    requires Base(w) && Enabled(w, GotMut2(r, alive)) && w.tasks[r].pc.WaitMut2? && CanKeepalive(w, w.tasks[r].q, alive)
    ensures Base(Step(w, GotMut2(r, alive)))
  {
    var v := Step(w, GotMut2(r, alive));
    HeldQueues(w, v, r);
    NotSent(w, r);
    SentTallies(w, v, r, w.sock.value);
    hide Queues, Tallies, Remove;
    assert Spot(v, r);
    SentSpots(w, v, r, w.sock.value);
    hide Spots;
    assert Links(v) && Fresh(v);
  }

  /** A new connection, nothing being sent on it yet. */
  lemma ConnectedBase(w: World, r: nat)
    requires Base(w) && r < |w.tasks| && w.tasks[r].pc == Making
    ensures var u := NewSocket(w, w.tasks[r].q); Links(u) && Tallies(u) && Fresh(u)
    ensures var u := NewSocket(w, w.tasks[r].q);
      forall x {:trigger u.tasks[x]} :: 0 <= x < |u.tasks| && Placed(u.tasks[x].pc) ==> x != r && Spot(u, x)
  {
    var u := NewSocket(w, w.tasks[r].q);
    NoOtherReader(w, r);
    hide Queues;
    assert Tallies(u);
    hide Tallies;
    forall x | 0 <= x < |u.tasks| && Placed(u.tasks[x].pc)
      ensures Spot(u, x)
    {
      assert Spot(w, x);
    }
  }

  lemma SocketBase(w: World, r: nat)
    requires Base(w) && Enabled(w, MadeSock(r, true))
    ensures Base(Step(w, MadeSock(r, true)))
  {
    var u, v := NewSocket(w, w.tasks[r].q), Step(w, MadeSock(r, true));
    HeldAtHead(w, r);
    HeldQueues(w, v, r);
    ConnectedBase(w, r);
    assert TaskOk(w.tasks[r]);
    NoOtherReader(w, r);
    hide Queues, Remove, Links;
    assert Spots(u);
    SentTallies(u, v, r, |w.conns|);
    hide Tallies;
    assert Spot(v, r);
    SentSpots(u, v, r, |w.conns|);
    hide Spots, Spot;
    assert Fresh(v);
    LinksSent(u, v, r);
  }

  lemma HeldAtHead(w: World, r: nat)
    requires Queues(w) && r < |w.tasks| && HasMut2(w.tasks[r].pc)
    ensures HasMut2Now(w, r) && Head(w.mut2, r)
  {
  }

  lemma LinksSent(u: World, v: World, r: nat)
    requires Links(u) && u.sock.Some? && v.sock == u.sock && v.generation == u.generation && v.origin == u.origin
    requires var c := u.sock.value; v.conns == u.conns[c := u.conns[c].(log := u.conns[c].log + [r])]
    requires v.received == u.received && v.sent == (u.sent + 1) % 0x1_0000
    ensures Links(v)
  {
  }

  lemma PassBase(w: World, r: nat, alive: bool)
    requires Base(w) && Enabled(w, GotMut2(r, alive)) && w.tasks[r].pc.WaitTurn? && Passes(w, w.tasks[r].pc)
    ensures Base(Step(w, GotMut2(r, alive)))
  {
    var v := Step(w, GotMut2(r, alive));
    HeldQueues(w, v, r);
    assert TaskOk(w.tasks[r]);
    hide Queues;
    assert Spot(w, r);
    KeptSpots(w, v, r);
    assert Tallies(v);
    hide Spots, Tallies;
  }

  lemma MakingBase(w: World, r: nat)
    requires Base(w) && r < |w.tasks| && HasMut2Now(w, r) && w.tasks[r].canRetry && !w.tasks[r].pc.Reading? && !w.tasks[r].pc.Making?
    ensures Base(SetPc(w, r, Making))
  {
    var v := SetPc(w, r, Making);
    HeldQueues(w, v, r);
    hide Queues;
    KeptSpots(w, v, r);
    assert Tallies(v);
    hide Spots, Tallies;
  }

  lemma ErrorBase(w: World, r: nat, status: int)
    requires Base(w) && r < |w.tasks| && HasMut2Now(w, r)
    ensures Base(SetError(w, r, status))
  {
    var v := SetError(w, r, status);
    LeftQueues(w, v, r);
    LeftTallies(w, v, r);
    NoOtherReader(w, r);
    hide Queues, Tallies, Remove;
    KeptSpots(w, v, r);
    hide Spots;
  }

  lemma LineBase(w: World, r: nat)
    requires Base(w) && Enabled(w, GotStatus(r, GoodLine))
    ensures Base(Step(w, GotStatus(r, GoodLine)))
  {
    var v := Step(w, GotStatus(r, GoodLine));
    HeldAtHead(w, r);
    HeldQueues(w, v, r);
    NoOtherReader(w, r);
    hide Queues;
    assert Spot(w, r);
    KeptSpots(w, v, r);
    assert Tallies(v);
    hide Spots, Tallies;
    assert Fresh(v);
  }

  lemma CompleteQueues(w: World, r: nat)
    requires Queues(w) && Tallies(w) && Enabled(w, GotBody(r, None))
    ensures Queues(Step(w, GotBody(r, None))) && Tallies(Step(w, GotBody(r, None)))
    ensures forall x {:trigger w.tasks[x]} :: 0 <= x < |w.tasks| && x != r ==> !HasMut2(w.tasks[x].pc)
  {
    HeldAtHead(w, r);
    NoOtherReader(w, r);
    hide Queues, Tallies, Remove;
    var v := Step(w, GotBody(r, None));
    LeftQueues(w, v, r);
    LeftTallies(w, v, r);
  }

  lemma CompleteBase(w: World, r: nat)
    requires Base(w) && Enabled(w, GotBody(r, None))
    ensures Base(Step(w, GotBody(r, None)))
  {
    hide Queues, Tallies, Remove;
    var v := Step(w, GotBody(r, None));
    CompleteQueues(w, r);
    KeptSpots(w, v, r);
    hide Spots;
  }

  lemma DropBase(w: World, r: nat)
    requires Base(w) && Enabled(w, Cancel(r))
    ensures Base(Step(w, Cancel(r)))
  {
    var v := Step(w, Cancel(r));
    LeftQueues(w, v, r);
    LeftTallies(w, v, r);
    if w.tasks[r].pc.Reading? {
      HeldAtHead(w, r);
      NoOtherReader(w, r);
    }
    hide Queues, Tallies, Remove;
    KeptSpots(w, v, r);
    hide Spots;
  }

  lemma RecreateBase(w: World, r: nat)
    requires Base(w) && r < |w.tasks| && HasMut2Now(w, r) && !w.tasks[r].pc.Reading? && !w.tasks[r].pc.Making?
    ensures Base(Recreate(w, r))
  {
    hide Base, SetError, SetPc;
    if !w.tasks[r].canRetry {
      ErrorBase(w, r, E_BROKEN);
    } else if !w.tasks[r].q.goodScheme {
      ErrorBase(w, r, E_BAD_URL);
    } else {
      MakingBase(w, r);
    }
  }

  /** Every step of every run keeps it. */
  lemma StepBase(w: World, e: Event)
    requires Base(w) && Enabled(w, e)
    ensures Base(Step(w, e))
  {
    if e.MadeSock? || e.GotStatus? || e.GotBody? {
      HeldAtHead(w, e.r);
    }
    hide Links, Queues, Tallies, Spots, Fresh;
    match e
    case Start(q) => StartBase(w, q);
    case GotMut1(r, alive) =>
      if CanPipeline(w, w.tasks[r].q, alive) {
        PipelineBase(w, r, alive);
      } else {
        QueueBase(w, r, alive);
      }
    case GotMut2(r, alive) =>
      if w.tasks[r].pc.WaitTurn? && Passes(w, w.tasks[r].pc) {
        PassBase(w, r, alive);
      } else if w.tasks[r].pc.WaitMut2? && CanKeepalive(w, w.tasks[r].q, alive) {
        ReuseBase(w, r, alive);
      } else {
        RecreateBase(w, r);
      }
    case MadeSock(r, ok) =>
      if ok {
        SocketBase(w, r);
      } else {
        ErrorBase(w, r, E_CONNECT);
      }
    case GotStatus(r, line) =>
      if line == NoLine {
        RecreateBase(w, r);
      } else if line == BadLine {
        ErrorBase(w, r, E_NOT_HTTP);
      } else {
        LineBase(w, r);
      }
    case GotBody(r, error) =>
      if error.Some? {
        ErrorBase(w, r, error.value);
      } else {
        CompleteBase(w, r);
      }
    case Cancel(r) => DropBase(w, r);
  }
}
