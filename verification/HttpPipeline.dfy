/** Which response a request reads, how often it is sent, and that the two mutexes cannot deadlock. */
module HttpPipeline {
  import opened Wrappers
  import opened HttpModel

  // ----- the invariant -----

  /** The socket is the newest connection, and the counters agree with it as far as their width goes. */
  ghost predicate Links(w: World) {
    && (w.sock.Some? ==> |w.conns| > 0 && w.sock.value == |w.conns| - 1)
    && w.generation == |w.conns| % 0x1_0000_0000
    && (w.sock.Some? ==> var c := w.conns[w.sock.value];
          w.sent == |c.log| % 0x1_0000 && w.received == c.done % 0x1_0000 && w.origin == c.origin)
  }

  /** No more responses were begun than requests sent. */
  ghost predicate Counters(w: World) {
    Links(w) && forall c :: 0 <= c < |w.conns| ==> Used(w.conns[c]) <= |w.conns[c].log|
  }

  /** The responses begun on a connection. */
  function Used(c: Conn): nat {
    c.done + if c.dirty then 1 else 0
  }

  predicate InMut2(pc: Pc) {
    pc.WaitMut2? || pc.WaitTurn? || pc.Making? || pc.AwaitStatus? || pc.Reading?
  }

  predicate HasMut2(pc: Pc) {
    pc.Making? || pc.AwaitStatus? || pc.Reading?
  }

  predicate Distinct(q: seq<nat>) {
    forall a, b :: 0 <= a < b < |q| ==> q[a] != q[b]
  }

  predicate Last(q: seq<nat>, r: nat) {
    |q| > 0 && q[|q| - 1] == r
  }

  /** Who is in which queue. A request that waits for mut2 while it holds mut1 is the last in line. */
  ghost predicate Queues(w: World) {
    && Distinct(w.mut1) && Distinct(w.mut2)
    && (forall r :: r in w.mut1 ==> r < |w.tasks| && var pc := w.tasks[r].pc; pc.WaitMut1? || pc.WaitMut2? || pc.Making?)
    && (forall r :: r in w.mut2 ==> r < |w.tasks| && InMut2(w.tasks[r].pc))
    && forall r {:trigger w.tasks[r]} :: 0 <= r < |w.tasks| ==> var pc := w.tasks[r].pc;
         && (pc.WaitMut1? || pc.WaitMut2? ==> r in w.mut1)
         && (InMut2(pc) ==> r in w.mut2)
         && (HasMut2(pc) ==> Head(w.mut2, r))
         && (r in w.mut1 && !pc.WaitMut1? ==> Head(w.mut1, r) && Last(w.mut2, r))
  }

  predicate Placed(pc: Pc) {
    pc.WaitTurn? || pc.AwaitStatus? || pc.Reading?
  }

  /** Where the transmissions are. On the newest connection no response begun is that of a request still
      waiting, and requests wait in the order of their transmission. */
  ghost predicate Places(w: World) {
    && (forall r {:trigger w.tasks[r]} :: 0 <= r < |w.tasks| && Placed(w.tasks[r].pc) ==> var pc := w.tasks[r].pc;
          && pc.conn < |w.conns| && pc.idx < |w.conns[pc.conn].log| && w.conns[pc.conn].log[pc.idx] == r
          && (pc.WaitTurn? ==> pc.gen == (pc.conn + 1) % 0x1_0000_0000 && pc.due == pc.idx % 0x1_0000)
          && (!pc.WaitTurn? ==> w.sock == Some(pc.conn))
          && (pc.Reading? ==> pc.from == NextResponse(w.conns[pc.conn]))
          && (pc.conn == |w.conns| - 1 ==> Used(w.conns[pc.conn]) <= pc.idx))
    && forall x, y :: Ahead(w.mut2, x, y) ==> Before(w, x, y)
  }

  /** x comes before y in the queue. */
  ghost predicate Ahead(q: seq<nat>, x: nat, y: nat) {
    exists a, b :: 0 <= a < b < |q| && q[a] == x && q[b] == y
  }

  predicate Before(w: World, x: nat, y: nat) {
    x < |w.tasks| && y < |w.tasks| &&
    var p, q := w.tasks[x].pc, w.tasks[y].pc;
    Placed(p) && Placed(q) && p.conn == q.conn ==> p.idx < q.idx
  }

  /** How often each request was sent, and where. */
  ghost predicate Tallies(w: World) {
    && (forall c :: 0 <= c < |w.conns| ==> Distinct(w.conns[c].log))
    && (forall c, k :: 0 <= c < |w.conns| && 0 <= k < |w.conns[c].log| ==>
          var r := w.conns[c].log[k];
          r < |w.tasks| && w.tasks[r].sends > 0 && w.tasks[r].q.origin == w.conns[c].origin)
    && forall r :: 0 <= r < |w.tasks| ==> TaskOk(w.tasks[r])
  }

  predicate TaskOk(t: Task) {
    && t.sends <= 2 && (!t.piped ==> t.sends <= 1) && (t.reused ==> !t.piped && !t.canRetry)
    && match t.pc
       case WaitMut1 => t.sends == 0 && t.canRetry && !t.piped && !t.reused
       case WaitMut2 => t.sends == 0 && t.canRetry && !t.piped && !t.reused
       case Making => t.canRetry && t.sends == (if t.piped then 1 else 0) && !t.reused
       case WaitTurn(_, _, _, _) => t.canRetry && t.sends == 1 && t.piped && !t.reused
       case AwaitStatus(_, _) => t.canRetry ==> t.sends == 1 && t.piped
       case Reading(_, _, _) => true
       case Finished(_) => true
       case Cancelled => true
  }

  /** A request that did not reuse a kept-alive socket unchecked reads its own response. */
  ghost predicate Answers(w: World) {
    forall r {:trigger w.tasks[r]} :: 0 <= r < |w.tasks| && !w.tasks[r].reused ==>
      match w.tasks[r].pc
      case AwaitStatus(c, i) => c < |w.conns| && w.conns[c].done == i && !w.conns[c].dirty
      case Reading(_, _, from) => from == Some(r)
      case Finished(Answered(from)) => from == Some(r)
      case _ => true
  }

  ghost predicate Inv(w: World) {
    Counters(w) && Queues(w) && Places(w) && Tallies(w) && Answers(w)
  }

  /** It is r's turn: its connection is the socket, and the responses before its own have been read. */
  predicate Turn(w: World, r: nat) {
    r < |w.tasks| && Placed(w.tasks[r].pc) && w.sock == Some(w.tasks[r].pc.conn) && w.sock.value < |w.conns|
      && w.conns[w.sock.value].done == w.tasks[r].pc.idx
  }

  /** The check after waiting for mut2 is not passed out of turn. */
  predicate Honest(w: World, e: Event) {
    e.GotMut2? && e.r < |w.tasks| && w.tasks[e.r].pc.WaitTurn? && Passes(w, w.tasks[e.r].pc) ==> Turn(w, e.r)
  }

  lemma BeginInv()
    ensures Inv(Begin())
  {
    var w := Begin();
    assert Counters(w) && Tallies(w) && Answers(w);
    hide Counters, Tallies, Answers, TaskOk;
    NothingDistinct();
    assert Queues(w) by {
      hide Ahead, Distinct;
    }
    assert Places(w) by {
      NobodyAhead();
      hide Ahead, Before;
    }
  }

  lemma NothingDistinct()
    ensures Distinct([])
  {
  }

  lemma NobodyAhead()
    ensures forall x, y :: !Ahead([], x, y)
  {
  }

  lemma {:induction false} RemoveSplit(q: seq<nat>, r: nat) returns (p: nat)
    ensures r in q ==> p < |q| && q[p] == r && Remove(q, r) == q[..p] + q[p + 1..]
    ensures r !in q ==> Remove(q, r) == q
  {
    p := 0;
    if |q| > 0 && q[0] != r {
      p := RemoveSplit(q[1..], r);
      assert q == [q[0]] + q[1..];
      if r in q[1..] {
        assert q[..p + 1] == [q[0]] + q[1..][..p];
        p := p + 1;
      }
    }
  }

  /** What is left after a removal is in the same order. */
  lemma RemoveFacts(q: seq<nat>, r: nat)
    requires Distinct(q)
    ensures Distinct(Remove(q, r)) && (forall x :: x in Remove(q, r) <==> x in q && x != r)
    ensures forall x, y :: Ahead(Remove(q, r), x, y) ==> Ahead(q, x, y)
    ensures Head(q, r) ==> Remove(q, r) == q[1..]
    ensures forall h :: h != r && Head(q, h) ==> Head(Remove(q, r), h)
    ensures forall l :: l != r && Last(q, l) ==> Last(Remove(q, r), l)
  {
    var p := RemoveSplit(q, r);
    hide Remove;
    var s := Remove(q, r);
    forall x, y | Ahead(s, x, y)
      ensures Ahead(q, x, y)
    {
      var a, b :| 0 <= a < b < |s| && s[a] == x && s[b] == y;
      if r in q {
        var c, d := if a < p then a else a + 1, if b < p then b else b + 1;
        assert q[c] == x && q[d] == y;
      }
    }
  }

  lemma AppendFacts(q: seq<nat>, r: nat)
    requires Distinct(q) && r !in q
    ensures Distinct(q + [r]) && (forall x :: x in q + [r] <==> x in q || x == r)
    ensures forall x, y :: Ahead(q + [r], x, y) ==> Ahead(q, x, y) || (x in q && y == r)
    ensures forall h :: Head(q, h) ==> Head(q + [r], h)
    ensures Last(q + [r], r) && (q == [] ==> Head(q + [r], r))
  {
    var s := q + [r];
    forall x, y | Ahead(s, x, y)
      ensures Ahead(q, x, y) || (x in q && y == r)
    {
      var a, b :| 0 <= a < b < |s| && s[a] == x && s[b] == y;
      assert s[a] == q[a];
      if b < |q| {
        assert s[b] == q[b];
      }
    }
  }

  // ----- each step keeps it -----

  lemma StartQueues(w: World, v: World, t: Task)
    requires Queues(w) && t.pc.WaitMut1? && v.tasks == w.tasks + [t] && v.mut1 == w.mut1 + [|w.tasks|] && v.mut2 == w.mut2
    ensures Queues(v)
  {
    AppendFacts(w.mut1, |w.tasks|);
    hide Ahead;
  }

  lemma StartPlaces(w: World, v: World, t: Task)
    requires Queues(w) && Places(w) && t.pc.WaitMut1? && v.tasks == w.tasks + [t] && v.mut2 == w.mut2 && v.conns == w.conns && v.sock == w.sock
    ensures Places(v)
  {
    hide Ahead, Queues;
  }

  lemma StartInv(w: World, q: Req)
    requires Inv(w)
    ensures Inv(Step(w, Start(q)))
  {
    var v := Step(w, Start(q));
    StartQueues(w, v, Task(q, WaitMut1, true, false, false, 0));
    StartPlaces(w, v, Task(q, WaitMut1, true, false, false, 0));
    hide Ahead, Queues, Places;
    assert Counters(v);
    assert Tallies(v);
    assert Answers(v);
  }

  /** r goes from mut1 into the queue of mut2, keeping mut1. */
  lemma JoinedQueues(w: World, v: World, r: nat)
    requires Queues(w) && r < |w.tasks| && w.tasks[r].pc.WaitMut1? && Head(w.mut1, r)
    requires v.tasks == w.tasks[r := w.tasks[r].(pc := WaitMut2)] && v.mut1 == w.mut1 && v.mut2 == w.mut2 + [r]
    ensures Queues(v)
  {
    AppendFacts(w.mut2, r);
  }

  /** The same, giving up mut1. */
  lemma SentQueues(w: World, v: World, r: nat)
    requires Queues(w) && r < |w.tasks| && w.tasks[r].pc.WaitMut1? && Head(w.mut1, r)
    requires |v.tasks| == |w.tasks| && v.tasks[r].pc.WaitTurn? && v.mut1 == Remove(w.mut1, r) && v.mut2 == w.mut2 + [r]
    requires forall x :: 0 <= x < |w.tasks| && x != r ==> v.tasks[x].pc == w.tasks[x].pc
    ensures Queues(v)
  {
    AppendFacts(w.mut2, r);
    RemoveFacts(w.mut1, r);
    hide Remove;
  }

  /** r joins the queue of mut2, its place being the newest if it has one. */
  lemma JoinedPlaces(w: World, v: World, r: nat)
    requires Places(w) && Distinct(w.mut2) && r !in w.mut2 && r < |w.tasks| && w.tasks[r].pc.WaitMut1?
    requires forall x :: x in w.mut2 ==> x < |w.tasks|
    requires v.mut2 == w.mut2 + [r] && v.sock == w.sock && |v.tasks| == |w.tasks| && |v.conns| == |w.conns|
    requires forall x :: 0 <= x < |w.tasks| && x != r ==> v.tasks[x].pc == w.tasks[x].pc
    requires forall c :: 0 <= c < |w.conns| ==> v.conns[c].done == w.conns[c].done && v.conns[c].dirty == w.conns[c].dirty && w.conns[c].log <= v.conns[c].log
    requires var pc := v.tasks[r].pc;
      pc.WaitMut2? || (
        && pc.WaitTurn? && pc.conn < |w.conns| && pc.idx == |w.conns[pc.conn].log| && v.conns[pc.conn].log == w.conns[pc.conn].log + [r]
        && pc.gen == (pc.conn + 1) % 0x1_0000_0000 && pc.due == pc.idx % 0x1_0000 && Used(w.conns[pc.conn]) <= pc.idx)
    requires forall x {:trigger w.tasks[x]} :: 0 <= x < |w.tasks| && w.tasks[x].pc.Reading? ==>
      var c := w.tasks[x].pc.conn; c < |w.conns| ==> w.conns[c].dirty || w.conns[c].done < |w.conns[c].log|
    ensures Places(v)
  {
    AppendFacts(w.mut2, r);
    hide Ahead, Distinct;
    forall x, y | Ahead(v.mut2, x, y)
      ensures Before(v, x, y)
    {
      assert Ahead(w.mut2, x, y) ==> Before(w, x, y);
    }
  }

  /** A response that is being read was begun. */
  lemma ReadingBegun(w: World)
    requires Counters(w) && Places(w)
    ensures forall x {:trigger w.tasks[x]} :: 0 <= x < |w.tasks| && w.tasks[x].pc.Reading? ==>
      var c := w.tasks[x].pc.conn; c < |w.conns| ==> w.conns[c].dirty || w.conns[c].done < |w.conns[c].log|
  {
    hide Ahead, Distinct;
  }

  lemma QueueInv(w: World, r: nat, alive: bool)
    requires Inv(w) && Enabled(w, GotMut1(r, alive)) && !CanPipeline(w, w.tasks[r].q, alive)
    ensures Inv(Step(w, GotMut1(r, alive)))
  {
    var v := Step(w, GotMut1(r, alive));
    JoinedQueues(w, v, r);
    assert r !in w.mut2;
    ReadingBegun(w);
    JoinedPlaces(w, v, r);
    hide Queues, Places;
    assert Counters(v);
    assert Queues(v);
    assert Places(v);
    assert Tallies(v);
    assert Answers(v);
  }

  lemma HeadAhead(q: seq<nat>, r: nat)
    requires Head(q, r)
    ensures forall x :: x in q && x != r ==> Ahead(q, r, x)
    ensures Distinct(q) && Last(q, r) ==> forall x :: x in q ==> x == r
  {
    forall x | x in q && x != r
      ensures Ahead(q, r, x)
    {
      var b :| 0 <= b < |q| && q[b] == x;
      assert q[0] == r;
    }
  }

  /** v is w after r has returned or been dropped, apart from the socket and the connections. */
  ghost predicate Left(w: World, v: World, r: nat) {
    && r < |w.tasks| && |v.tasks| == |w.tasks|
    && (v.tasks[r].pc.Finished? || v.tasks[r].pc.Cancelled?)
    && v.tasks == w.tasks[r := w.tasks[r].(pc := v.tasks[r].pc)]
    && v.mut1 == Remove(w.mut1, r) && v.mut2 == Remove(w.mut2, r) && v.generation == w.generation
    && |v.conns| == |w.conns|
    && forall c :: 0 <= c < |w.conns| ==> v.conns[c].log == w.conns[c].log && v.conns[c].origin == w.conns[c].origin
  }

  lemma LeftQueues(w: World, v: World, r: nat)
    requires Queues(w) && Left(w, v, r)
    ensures Queues(v)
  {
    RemoveFacts(w.mut1, r);
    RemoveFacts(w.mut2, r);
    hide Remove;
  }

  lemma LeftTallies(w: World, v: World, r: nat)
    requires Tallies(w) && Left(w, v, r)
    ensures Tallies(v)
  {
    hide Remove;
  }

  /** No waiting request is overtaken by a response. */
  ghost predicate StillAhead(v: World) {
    forall x {:trigger v.tasks[x]} :: 0 <= x < |v.tasks| && v.tasks[x].pc.WaitTurn? && v.tasks[x].pc.conn == |v.conns| - 1 ==>
      Used(v.conns[v.tasks[x].pc.conn]) <= v.tasks[x].pc.idx
  }

  lemma LeftPlaces(w: World, v: World, r: nat)
    requires Queues(w) && Places(w) && Left(w, v, r) && StillAhead(v)
    requires HasMut2Now(w, r) || (v.sock == w.sock && v.conns == w.conns)
    ensures Places(v)
  {
    RemoveFacts(w.mut2, r);
    hide Remove, Distinct;
    forall x, y | Ahead(v.mut2, x, y)
      ensures Before(v, x, y)
    {
      assert Before(w, x, y);
    }
  }

  /** The reader is ahead of all that wait. */
  lemma ReaderAhead(w: World, r: nat)
    requires Queues(w) && Places(w) && r < |w.tasks| && w.tasks[r].pc.Reading?
    ensures forall x {:trigger w.tasks[x]} :: 0 <= x < |w.tasks| && w.tasks[x].pc.WaitTurn? && w.tasks[x].pc.conn == w.tasks[r].pc.conn ==>
      w.tasks[r].pc.idx < w.tasks[x].pc.idx
  {
    HeadAhead(w.mut2, r);
    hide Ahead, Distinct;
    forall x | 0 <= x < |w.tasks| && w.tasks[x].pc.WaitTurn? && w.tasks[x].pc.conn == w.tasks[r].pc.conn
      ensures w.tasks[r].pc.idx < w.tasks[x].pc.idx
    {
      assert Before(w, r, x);
    }
  }

  lemma ErrorInv(w: World, r: nat, status: int)
    requires Inv(w) && r < |w.tasks| && HasMut2Now(w, r)
    ensures Inv(SetError(w, r, status))
  {
    hide Remove, Queues, Tallies;
    var v := SetError(w, r, status);
    LeftQueues(w, v, r);
    LeftTallies(w, v, r);
    LeftPlaces(w, v, r);
    hide Places;
    assert Answers(v) by {
      NoOtherReader(w, r);
    }
  }

  /** Nobody but the holder of mut2 makes a socket or reads. */
  lemma NoOtherReader(w: World, r: nat)
    requires Queues(w) && Head(w.mut2, r)
    ensures forall x {:trigger w.tasks[x]} :: 0 <= x < |w.tasks| && x != r ==> !HasMut2(w.tasks[x].pc)
  {
  }

  /** The request holds mut2. */
  predicate HasMut2Now(w: World, r: nat)
    requires r < |w.tasks|
  {
    InMut2(w.tasks[r].pc) && Head(w.mut2, r)
  }

  lemma MakingPlaces(w: World, v: World, r: nat)
    requires Places(w) && r < |w.tasks| && v.tasks == w.tasks[r := w.tasks[r].(pc := Making)]
    requires v.mut2 == w.mut2 && v.conns == w.conns && v.sock == w.sock
    ensures Places(v)
  {
    hide Ahead;
  }

  lemma RecreateInv(w: World, r: nat)
    requires Inv(w) && r < |w.tasks| && HasMut2Now(w, r) && !w.tasks[r].pc.Reading? && !w.tasks[r].pc.Making?
    ensures Inv(Recreate(w, r))
  {
    if !w.tasks[r].canRetry {
      ErrorInv(w, r, E_BROKEN);
    } else if !w.tasks[r].q.goodScheme {
      ErrorInv(w, r, E_BAD_URL);
    } else {
      var v := SetPc(w, r, Making);
      HeldQueues(w, v, r);
      MakingPlaces(w, v, r);
      hide Ahead, Queues, Places;
      assert Counters(v);
      assert Queues(v);
      assert Tallies(v);
      assert Answers(v);
    }
  }

  /** r holds mut2 and goes on; if it still holds mut1, that is unchanged or given up. */
  lemma HeldQueues(w: World, v: World, r: nat)
    requires Queues(w) && r < |w.tasks| && HasMut2Now(w, r) && |v.tasks| == |w.tasks|
    requires HasMut2(v.tasks[r].pc) && v.mut2 == w.mut2
    requires forall x :: 0 <= x < |w.tasks| && x != r ==> v.tasks[x].pc == w.tasks[x].pc
    requires v.mut1 == Remove(w.mut1, r) || (v.mut1 == w.mut1 && (r in w.mut1 ==> v.tasks[r].pc.Making?))
    ensures Queues(v)
  {
    RemoveFacts(w.mut1, r);
    hide Remove;
  }

  /** r holds mut2 and reads or is about to: what it read before, or from a new connection. */
  lemma HeldPlaces(w: World, v: World, r: nat)
    requires Places(w) && Head(w.mut2, r) && Distinct(w.mut2) && r < |w.tasks| && v.mut2 == w.mut2 && |v.tasks| == |w.tasks|
    requires forall x :: 0 <= x < |w.tasks| && x != r ==> v.tasks[x].pc == w.tasks[x].pc && !HasMut2(w.tasks[x].pc)
    requires |w.conns| <= |v.conns| && forall c :: 0 <= c < |w.conns| ==> v.conns[c] == w.conns[c]
    requires var pc := v.tasks[r].pc;
      && HasMut2(pc) && Placed(pc) && v.sock == Some(pc.conn) && pc.conn < |v.conns| && Used(v.conns[pc.conn]) <= pc.idx
      && pc.idx < |v.conns[pc.conn].log| && v.conns[pc.conn].log[pc.idx] == r && (pc.Reading? ==> pc.from == NextResponse(v.conns[pc.conn]))
      && (pc.conn >= |w.conns| || (Placed(w.tasks[r].pc) && pc.conn == w.tasks[r].pc.conn && pc.idx == w.tasks[r].pc.idx))
    ensures Places(v)
  {
    NobodyBefore(w.mut2, r);
    hide Ahead, Distinct;
    forall x, y | Ahead(v.mut2, x, y)
      ensures Before(v, x, y)
    {
      assert Before(w, x, y);
    }
  }

  lemma NobodyBefore(q: seq<nat>, r: nat)
    requires Head(q, r) && Distinct(q)
    ensures forall x :: !Ahead(q, x, r)
  {
  }

  lemma PassInv(w: World, r: nat, alive: bool)
    requires Inv(w) && Turn(w, r) && Enabled(w, GotMut2(r, alive)) && w.tasks[r].pc.WaitTurn? && Passes(w, w.tasks[r].pc)
    ensures Inv(Step(w, GotMut2(r, alive)))
  {
    var v := Step(w, GotMut2(r, alive));
    HeldQueues(w, v, r);
    NoOtherReader(w, r);
    HeldPlaces(w, v, r);
    hide Queues, Ahead, Places;
    assert Counters(v);
    assert Queues(v);
    assert Places(v);
    assert Tallies(v);
    assert Answers(v);
  }

  /** One more transmission, on a connection that does not have the request yet. */
  lemma SentTallies(w: World, v: World, r: nat, c: nat)
    requires Tallies(w) && r < |w.tasks| && c < |w.conns| && r !in w.conns[c].log && w.conns[c].origin == w.tasks[r].q.origin
    requires v.conns == w.conns[c := w.conns[c].(log := w.conns[c].log + [r])]
    requires |v.tasks| == |w.tasks| && v.tasks == w.tasks[r := v.tasks[r]]
    requires v.tasks[r].q == w.tasks[r].q && v.tasks[r].sends == w.tasks[r].sends + 1 && TaskOk(v.tasks[r])
    ensures Tallies(v)
  {
  }

  /** A request that was never sent is on no connection. */
  lemma NotSent(w: World, r: nat)
    requires Tallies(w) && r < |w.tasks| && w.tasks[r].sends == 0
    ensures forall c :: 0 <= c < |w.conns| ==> r !in w.conns[c].log
  {
  }

  lemma PipelineInv(w: World, r: nat, alive: bool)
    requires Inv(w) && Enabled(w, GotMut1(r, alive)) && CanPipeline(w, w.tasks[r].q, alive)
    ensures Inv(Step(w, GotMut1(r, alive)))
  {
    var v := Step(w, GotMut1(r, alive));
    SentQueues(w, v, r);
    assert r !in w.mut2;
    ReadingBegun(w);
    JoinedPlaces(w, v, r);
    NotSent(w, r);
    SentTallies(w, v, r, w.sock.value);
    hide Remove, Queues, Places, Tallies;
    assert Counters(v);
    assert Queues(v);
    assert Places(v);
    assert Tallies(v);
    assert Answers(v);
  }

  lemma ReuseInv(w: World, r: nat, alive: bool)
    requires Inv(w) && Enabled(w, GotMut2(r, alive)) && w.tasks[r].pc.WaitMut2? && CanKeepalive(w, w.tasks[r].q, alive)
    ensures Inv(Step(w, GotMut2(r, alive)))
  {
    var v := Step(w, GotMut2(r, alive));
    HeadAhead(w.mut2, r);
    RemoveFacts(w.mut1, r);
    NotSent(w, r);
    SentTallies(w, v, r, w.sock.value);
    hide Remove, Tallies;
    assert Counters(v);
    assert Queues(v);
    assert Places(v);
    assert Tallies(v);
    assert Answers(v);
  }

  lemma SocketInv(w: World, r: nat)
    requires Inv(w) && Enabled(w, MadeSock(r, true))
    ensures Inv(Step(w, MadeSock(r, true)))
  {
    var v := Step(w, MadeSock(r, true));
    HeldQueues(w, v, r);
    NoOtherReader(w, r);
    HeldPlaces(w, v, r);
    hide Remove, Queues, Ahead, Places;
    assert Counters(v);
    assert Queues(v);
    assert Places(v);
    assert Tallies(v);
    assert Answers(v);
  }

  lemma LineInv(w: World, r: nat)
    requires Inv(w) && Enabled(w, GotStatus(r, GoodLine))
    ensures Inv(Step(w, GotStatus(r, GoodLine)))
  {
    var v := Step(w, GotStatus(r, GoodLine));
    HeldQueues(w, v, r);
    NoOtherReader(w, r);
    HeldPlaces(w, v, r);
    hide Queues, Ahead, Places;
    assert Counters(v);
    assert Queues(v);
    assert Places(v);
    assert Tallies(v);
    assert Answers(v);
  }

  lemma CompleteAhead(w: World, v: World, r: nat)
    requires Queues(w) && Places(w) && Enabled(w, GotBody(r, None)) && v == Complete(w, r, w.tasks[r].pc.from)
    ensures StillAhead(v)
  {
    ReaderAhead(w, r);
    NoOtherReader(w, r);
    hide Remove, Queues, Ahead;
  }

  lemma CompleteCounters(w: World, v: World, r: nat)
    requires Counters(w) && Places(w) && Enabled(w, GotBody(r, None)) && v == Complete(w, r, w.tasks[r].pc.from)
    ensures Counters(v)
  {
    hide Remove, Ahead;
  }

  lemma CompleteInv(w: World, r: nat)
    requires Inv(w) && Enabled(w, GotBody(r, None))
    ensures Inv(Step(w, GotBody(r, None)))
  {
    var v := Step(w, GotBody(r, None));
    NoOtherReader(w, r);
    CompleteAhead(w, v, r);
    CompleteCounters(w, v, r);
    hide Remove, Queues, Tallies, Ahead, Counters, StillAhead;
    LeftQueues(w, v, r);
    LeftTallies(w, v, r);
    LeftPlaces(w, v, r);
    hide Places;
    assert Answers(v);
  }

  lemma DropReaderInv(w: World, r: nat)
    requires Inv(w) && Enabled(w, Cancel(r)) && w.tasks[r].pc.Reading?
    ensures Inv(Step(w, Cancel(r)))
  {
    var v := Step(w, Cancel(r));
    DropReaderAhead(w, r);
    NoOtherReader(w, r);
    hide Remove, Queues, Tallies, Ahead, Counters, StillAhead;
    LeftQueues(w, v, r);
    LeftTallies(w, v, r);
    LeftPlaces(w, v, r);
    hide Places;
    assert Answers(v);
  }

  lemma DropReaderAhead(w: World, r: nat)
    requires Counters(w) && Queues(w) && Places(w) && Enabled(w, Cancel(r)) && w.tasks[r].pc.Reading?
    ensures StillAhead(Step(w, Cancel(r))) && Counters(Step(w, Cancel(r)))
  {
    ReaderAhead(w, r);
    NoOtherReader(w, r);
    hide Remove, Queues, Ahead;
  }

  lemma DropInv(w: World, r: nat)
    requires Inv(w) && Enabled(w, Cancel(r))
    ensures Inv(Step(w, Cancel(r)))
  {
    if w.tasks[r].pc.Reading? {
      DropReaderInv(w, r);
    } else {
      hide Remove, Queues, Tallies, Ahead;
      var v := Step(w, Cancel(r));
      LeftQueues(w, v, r);
      LeftTallies(w, v, r);
      assert StillAhead(v);
      LeftPlaces(w, v, r);
      hide Places;
    }
  }

  /** Every step keeps the invariant. */
  lemma StepInv(w: World, e: Event)
    requires Inv(w) && Enabled(w, e) && Honest(w, e)
    ensures Inv(Step(w, e))
  {
    match e
    case Start(q) => StartInv(w, q);
    case GotMut1(r, alive) =>
      if CanPipeline(w, w.tasks[r].q, alive) {
        PipelineInv(w, r, alive);
      } else {
        QueueInv(w, r, alive);
      }
    case GotMut2(r, alive) =>
      hide Counters, Queues, Places, Tallies, Answers;
      if w.tasks[r].pc.WaitTurn? && Passes(w, w.tasks[r].pc) {
        PassInv(w, r, alive);
      } else if w.tasks[r].pc.WaitMut2? && CanKeepalive(w, w.tasks[r].q, alive) {
        ReuseInv(w, r, alive);
      } else {
        RecreateInv(w, r);
      }
    case MadeSock(r, ok) =>
      Holding(w, r);
      hide Counters, Queues, Places, Tallies, Answers;
      if ok {
        SocketInv(w, r);
      } else {
        ErrorInv(w, r, E_CONNECT);
      }
    case GotStatus(r, line) =>
      Holding(w, r);
      hide Counters, Queues, Places, Tallies, Answers;
      if line == NoLine {
        RecreateInv(w, r);
      } else if line == BadLine {
        ErrorInv(w, r, E_NOT_HTTP);
      } else {
        LineInv(w, r);
      }
    case GotBody(r, error) =>
      Holding(w, r);
      hide Counters, Queues, Places, Tallies, Answers;
      if error.Some? {
        ErrorInv(w, r, error.value);
      } else {
        CompleteInv(w, r);
      }
    case Cancel(r) => DropInv(w, r);
  }

  lemma Holding(w: World, r: nat)
    requires Queues(w) && r < |w.tasks| && HasMut2(w.tasks[r].pc)
    ensures HasMut2Now(w, r)
  {
  }
}
