/** What a client that reconnects to the bouncer is given, compared with what it would have seen. */
module BouncerReplay {
  import opened IrcTracker
  import opened Bouncer

  // ----- which lines it is given -----

  /** Folded and replayed lines together are what is left of the history but for the first lines, as many as
      were trimmed; so every line is covered once exactly if nothing was trimmed or nothing is left. */
  lemma CoversExactly(h: seq<Entry>, week: nat, stop: nat)
    ensures Folded(h, week, stop) + Tail(h, week, stop) == Kept(h, week)[Skipped(h, week)..]
    ensures Folded(h, week, stop) + Tail(h, week, stop) == Kept(h, week) <==> Below(h, 0, week) == 0 || Below(h, 0, week) == |h|
    ensures |Folded(h, week, stop)| + |Tail(h, week, stop)| == if 2 * Below(h, 0, week) <= |h| then |h| - 2 * Below(h, 0, week) else 0
  {
    hide Below;
    var kept, n, j := Kept(h, week), Skipped(h, week), Cut(h, week, stop);
    assert kept[n..] == kept[n..j] + kept[j..];
    if n == 0 {
      assert kept[n..] == kept;
    } else {
      assert |kept[n..]| != |kept|;
    }
  }

  /** The replayed lines are those after the stop. */
  lemma SplitAtStop(h: seq<Entry>, week: nat, stop: nat)
    requires Increasing(h)
    ensures forall e :: e in Folded(h, week, stop) ==> e.at <= stop
    ensures forall e :: e in Tail(h, week, stop) ==> e.at > stop
  {
    hide Below;
    var kept, j := Kept(h, week), Cut(h, week, stop);
    forall e | e in Tail(h, week, stop)
      ensures e.at > stop
    {
      var i :| 0 <= i < |kept[j..]| && kept[j..][i] == e;
      assert kept[j].at >= stop + 1;
      assert kept[j + i] == e;
    }
  }

  /** If nothing is trimmed, exactly the lines since a client last left are replayed. */
  lemma ReplaysSince(h: seq<Entry>, mark: nat, week: nat, stop: nat)
    requires Splits(h, mark, stop) && Below(h, 0, week) == 0
    ensures Folded(h, week, stop) == h[..mark] && Tail(h, week, stop) == h[mark..]
  {
    assert Kept(h, week) == h && Skipped(h, week) == 0;
    BelowStep(h, 0, mark, stop + 1);
    assert Below(h, mark, stop + 1) == mark;
    hide Below;
  }

  /** An answer begins with a warning exactly if somebody has left and the stop is more than a week back, and goes on
      with the state; without a warning every line that is trimmed is from before the stop. */
  lemma WarnedExactly(base: Tracker, h: seq<Entry>, mark: nat, week: nat, stop: nat)
    ensures var a := Answer(base, h, week, stop);
      if 0 < stop < week then |a| >= 2 && a[0] == Stamped(Entry(stop, Status("** Scrollback has been truncated"))) && a[1].State?
      else |a| >= 1 && a[0].State?
    ensures Splits(h, mark, stop) && Below(h, 0, week) > mark ==> stop < week
  {
    AnswerFirst(base, h, week, stop);
    hide Answer, Below;
    if Splits(h, mark, stop) && Below(h, 0, week) > mark {
      assert h[mark].at > stop;
    }
  }

  lemma AnswerFirst(base: Tracker, h: seq<Entry>, week: nat, stop: nat)
    ensures var a, t := Answer(base, h, week, stop), Truncated(week, stop);
      |a| > |t| && a[..|t|] == t && a[|t|].State?
  {
    hide Fold, Below, Folded, Tail, Stamps, Truncated;
  }

  /** Below counts everything up to the first line that is not. */
  lemma BelowAll(h: seq<Entry>, n: nat, limit: nat)
    requires n <= |h|
    ensures Below(h, n, limit) == |h| <==> forall i :: n <= i < |h| ==> h[i].at < limit
  {
  }

  /** The line that has just come is trimmed at once exactly if neither its own time nor that of the line before
      it reaches a week back. */
  lemma TrimmedExactly(h: seq<Entry>, at: nat, body: Body, week: nat)
    requires Increasing(h)
    ensures var g := h + [Entry(Stamp(h, at), body)];
      Below(g, 0, week) == |g| <==> at < week && (|h| > 0 ==> h[|h| - 1].at + 1 < week)
  {
    var g := h + [Entry(Stamp(h, at), body)];
    BelowAll(g, 0, week);
    assert g[|h|].at == Stamp(h, at);
    assert |h| > 0 ==> g[|h| - 1] == h[|h| - 1];
    hide Below;
  }

  /** For a line that a client says, stamped in seconds, that is: exactly if there was nothing before it but lines
      more than a week old. A line with the right stamp never is. */
  lemma SaidTrimmed(h: seq<Entry>, seconds: nat, body: Body, now: nat)
    requires Increasing(h) && seconds <= now && 1600000000 <= now <= 4000000000
    ensures var g := h + [Entry(Stamp(h, seconds), body)];
      Below(g, 0, WeekBefore(now)) == |g| <==> |h| == 0 || h[|h| - 1].at + 1 < WeekBefore(now)
    ensures var g := h + [Entry(Stamp(h, now * 1000000), body)];
      Below(g, 0, WeekBefore(now)) < |g|
  {
    hide Below, Increasing;
    TrimmedExactly(h, seconds, body, WeekBefore(now));
    TrimmedExactly(h, now * 1000000, body, WeekBefore(now));
    WeekValue(now);
    hide WeekBefore;
  }

  /** And it is replayed exactly if less than half of the history is trimmed and it is later than the stop. */
  lemma ReplayedExactly(h: seq<Entry>, at: nat, body: Body, week: nat, stop: nat)
    requires Increasing(h)
    ensures var g := h + [Entry(Stamp(h, at), body)];
      var t := Tail(g, week, stop);
      && (|t| > 0 ==> t[|t| - 1] == g[|h|])
      && (|t| > 0 <==> 2 * Below(g, 0, week) < |g| && Stamp(h, at) > stop)
  {
    hide *;
    StampIncreasing(h, at, body);
    TailLast(h + [Entry(Stamp(h, at), body)], week, stop);
  }

  lemma TailLast(g: seq<Entry>, week: nat, stop: nat)
    requires Increasing(g) && |g| > 0
    ensures var t := Tail(g, week, stop);
      && (|t| > 0 ==> t[|t| - 1] == g[|g| - 1])
      && (|t| > 0 <==> 2 * Below(g, 0, week) < |g| && g[|g| - 1].at > stop)
  {
    hide Below, Increasing;
    KeptLast(g, week);
    TailFrom(Kept(g, week), Skipped(g, week), stop);
  }

  lemma TailFrom(kept: seq<Entry>, n: nat, stop: nat)
    requires Increasing(kept) && n <= |kept|
    ensures var t := kept[Below(kept, n, stop + 1)..];
      && (|t| > 0 ==> t[|t| - 1] == kept[|kept| - 1])
      && (|t| > 0 <==> n < |kept| && kept[|kept| - 1].at > stop)
  {
    BelowAll(kept, n, stop + 1);
    hide Below;
    if n < |kept| {
      LastIsLate(kept, n, stop);
    }
  }

  lemma KeptLast(g: seq<Entry>, week: nat)
    requires Increasing(g) && |g| > 0
    ensures var kept := Kept(g, week); Increasing(kept) && (|kept| > 0 ==> kept[|kept| - 1] == g[|g| - 1])
  {
    hide Below;
  }

  lemma LastIsLate(h: seq<Entry>, n: nat, stop: nat)
    requires Increasing(h) && n < |h|
    ensures (forall i :: n <= i < |h| ==> h[i].at < stop + 1) <==> h[|h| - 1].at <= stop
  {
  }

  /** A message that a client sent when the history was empty: its stamp is in seconds, so it looks older than
      a week at once and than the time a client last left. */
  lemma StampExample(now: nat, stop: nat)
    requires 1600000000 <= now <= 4000000000
    ensures var sent := Entry(Stamp([], now), Sent("PRIVMSG #c :hello"));
      Below([sent], 0, WeekBefore(now)) == 1 && Tail([sent], WeekBefore(now), stop) == []
    ensures stop > now * 1000000 - 7 * 86400 * 1000000 ==> !Splits([Entry(Stamp([], now), Sent("PRIVMSG #c :hello"))], 0, stop)
  {
    var w := WeekBefore(now);
    WeekValue(now);
    var sent := Entry(Stamp([], now), Sent("PRIVMSG #c :hello"));
    var h := [sent];
    assert h[0].at < w;
    assert Below(h, 1, w) == 1 && Below(h, 0, w) == 1;
    assert Kept(h, w) == [];
  }

  lemma WeekValue(now: nat)
    requires 1600000000 <= now <= 4000000000
    ensures now < WeekBefore(now) == now * 1000000 - 7 * 86400 * 1000000
  {
  }

  // ----- the tracker state -----

  /** The tracker of a client that hears every line. */
  function Live(t: Tracker, h: seq<Entry>): Tracker {
    if |h| == 0 then t
    else
      var u := Live(t, h[..|h| - 1]);
      match h[|h| - 1].body
      case Recv(line) => Apply(u, line)
      case Sent(_) => u
      case Status(_) => Disconnect(u)
  }

  predicate IsWelcome(e: Entry) {
    e.body.Recv? && e.body.line.cmd.Welcome?
  }

  /** What a server sends before it has accepted the connection. */
  predicate BeforeWelcome(l: Line) {
    l.cmd.Welcome? || l.cmd.Other? || (l.cmd.Notice? && IsQuery(l.cmd.target))
  }

  /** After a loss of connection, nothing but such lines comes until the server accepts the next one. */
  predicate Proper(t: Tracker, h: seq<Entry>) {
    |h| > 0 ==>
      && Proper(t, h[..|h| - 1])
      && (h[|h| - 1].body.Recv? && !Live(t, h[..|h| - 1]).connected ==> BeforeWelcome(h[|h| - 1].body.line))
  }

  /** Registered at some moment. */
  predicate Registered(t: Tracker, h: seq<Entry>) {
    t.connected || exists i :: 0 <= i < |h| && IsWelcome(h[i])
  }

  /** A loss of connection while registered, and no 001 after it. */
  predicate Down(t: Tracker, h: seq<Entry>) {
    |h| > 0 &&
    var last, rest := h[|h| - 1], h[..|h| - 1];
    if IsWelcome(last) then false else if last.body.Status? then Registered(t, rest) else Down(t, rest)
  }

  /** A tracker that is not connected is in no channel. */
  predicate Coherent(t: Tracker) {
    t.connected || Disconnect(t) == t
  }

  lemma ApplyConnected(t: Tracker, l: Line)
    ensures Apply(t, l).connected <==> t.connected || l.cmd.Welcome?
  {
  }

  lemma DisconnectTwice(t: Tracker)
    ensures Disconnect(Disconnect(t)) == Disconnect(t)
  {
    var a, b := Disconnect(t), Disconnect(Disconnect(t));
    assert a.channels == b.channels;
  }

  /** Lines before the 001 do not touch the channels. */
  lemma ApplyQuiet(t: Tracker, l: Line)
    requires BeforeWelcome(l)
    ensures l.cmd.Welcome? ==> Apply(Disconnect(t), l) == Apply(t, l)
    ensures !l.cmd.Welcome? ==> Apply(Disconnect(t), l) == Disconnect(Apply(t, l))
  {
  }

  /** One line, in the bouncer's fold and in the live one. */
  lemma OneLine(f: Tracker, l: Tracker, e: Entry)
    requires (f == l && Coherent(l)) || (f.connected && l == Disconnect(f))
    requires e.body.Recv? && !l.connected ==> BeforeWelcome(e.body.line)
    ensures var g, m := if e.body.Recv? then Apply(f, e.body.line) else f,
                        if e.body.Recv? then Apply(l, e.body.line) else if e.body.Status? then Disconnect(l) else l;
      (g == m && Coherent(m)) || (g.connected && m == Disconnect(g))
  {
    if e.body.Recv? {
      ApplyConnected(f, e.body.line);
      ApplyConnected(l, e.body.line);
      if BeforeWelcome(e.body.line) {
        ApplyQuiet(f, e.body.line);
      }
    } else {
      DisconnectTwice(f);
    }
    hide Apply;
  }

  lemma {:induction false} Related(t: Tracker, h: seq<Entry>)
    requires Coherent(t) && Proper(t, h)
    ensures var f, l := Fold(t, h), Live(t, h); (f == l && Coherent(l)) || (f.connected && l == Disconnect(f))
  {
    if |h| > 0 {
      var r := h[..|h| - 1];
      Related(t, r);
      OneLine(Fold(t, r), Live(t, r), h[|h| - 1]);
      hide Apply, Disconnect, Coherent;
    }
  }

  lemma {:induction false} Connection(t: Tracker, h: seq<Entry>)
    ensures Fold(t, h).connected <==> Registered(t, h)
    ensures Live(t, h).connected <==> Registered(t, h) && !Down(t, h)
  {
    if |h| > 0 {
      var r, e := h[..|h| - 1], h[|h| - 1];
      Connection(t, r);
      if e.body.Recv? {
        ApplyConnected(Fold(t, r), e.body.line);
        ApplyConnected(Live(t, r), e.body.line);
      }
      hide Apply;
      assert forall i :: 0 <= i < |r| ==> r[i] == h[i];
      assert Registered(t, h) <==> Registered(t, r) || IsWelcome(e);
    }
  }

  lemma {:induction false} DownRegistered(t: Tracker, h: seq<Entry>)
    ensures Down(t, h) ==> Registered(t, h)
  {
    if |h| > 0 {
      var r, e := h[..|h| - 1], h[|h| - 1];
      DownRegistered(t, r);
      assert forall i :: 0 <= i < |r| ==> r[i] == h[i];
    }
  }

  /** The state that the bouncer computes is that of a client that heard everything, exactly if no c line at a
      registered moment comes after the last 001. */
  lemma StateExact(t: Tracker, h: seq<Entry>)
    requires Coherent(t) && Proper(t, h)
    ensures Fold(t, h) == Live(t, h) <==> !Down(t, h)
  {
    Related(t, h);
    Connection(t, h);
    DownRegistered(t, h);
    hide Fold, Live, Down, Registered;
  }

  // ----- examples of both failures -----

  function Connected(): Line {
    Line("", "", Welcome("me"))
  }

  function JoinedC(): Line {
    Line("me", "", Join("#c"))
  }

  /** A server that has heard two lines, s and e seconds after the epoch. */
  method Heard2(first: Body, second: Body, s: nat, e: nat) returns (b: BouncerServer)
    requires s < e && !first.Sent? && !second.Sent?
    ensures fresh(b) && fresh(b.track) && b.Valid() && b.history == [Entry(s * 1000000, first), Entry(e * 1000000, second)]
    ensures b.track.Value() == NewTracker() && b.clients == [] && b.lastDisconnect == 0 && b.outbox == map[]
  {
    hide *;
    b := new BouncerServer();
    Put(b, first, s);
    Put(b, second, e);
    TwoStamps(first, second, s, e);
    NobodyHears(b);
  }

  /** One line, from the server or about the connection. */
  method Put(b: BouncerServer, body: Body, seconds: nat)
    requires b.Valid() && !body.Sent?
    modifies b`history, b`outbox, b`hushed
    ensures b.Valid() && b.history == old(b.history) + [Entry(Stamp(old(b.history), seconds * 1000000), body)]
    ensures b.outbox.Keys == old(b.outbox.Keys)
  {
    match body
    case Recv(line) => b.IrcLine(line, false, seconds);
    case Status(text) => b.ConnectStatus(text, seconds);
  }

  lemma TwoStamps(first: Body, second: Body, s: nat, e: nat)
    requires s < e
    ensures var none: seq<Entry> := []; var one := none + [Entry(Stamp(none, s * 1000000), first)];
      one + [Entry(Stamp(one, e * 1000000), second)] == [Entry(s * 1000000, first), Entry(e * 1000000, second)]
  {
  }

  lemma NobodyHears(b: BouncerServer)
    requires b.outbox.Keys == {}
    ensures b.outbox == map[]
  {
  }

  /** The answer to the C line of a client that has been sent nothing yet. */
  method Ask(b: BouncerServer, id: nat, now: nat) returns (answer: seq<Message>)
    requires b.Valid() && id in b.clients && id in b.outbox && b.outbox[id] == []
    modifies b`history, b`outbox, b`past, b`mark, b`asked, b.track
    ensures answer == Answer(old(b.track.Value()), old(b.history), WeekBefore(now), old(b.lastDisconnect))
  {
    hide *;
    b.Configure(id, now);
    answer := b.outbox[id];
  }

  /** Two lines, the first more than a week old, then a client that connects: it is told neither in the state
      nor in the replay that #c was joined, an hour ago. */
  method TrimRun(now: nat) returns (answer: seq<Message>)
    requires 1600000000 <= now <= 4000000000
    ensures answer == [State(Apply(NewTracker(), Connected()))]
    ensures "#c" !in Apply(NewTracker(), Connected()).channels && "#c" in Apply(Apply(NewTracker(), Connected()), JoinedC()).channels
  {
    hide *;
    JoinMatters();
    TrimLoses(now);
    var b := Heard2(Recv(Connected()), Recv(JoinedC()), now - 604801, now - 3600);
    b.Accept(1);
    answer := Ask(b, 1, now);
  }

  lemma JoinMatters()
    ensures "#c" !in Apply(NewTracker(), Connected()).channels && "#c" in Apply(Apply(NewTracker(), Connected()), JoinedC()).channels
  {
  }

  lemma TrimLoses(now: nat)
    requires 1600000000 <= now <= 4000000000
    ensures var h := [Entry((now - 604801) * 1000000, Recv(Connected())), Entry((now - 3600) * 1000000, Recv(JoinedC()))];
      Answer(NewTracker(), h, WeekBefore(now), 0) == [State(Apply(NewTracker(), Connected()))]
  {
    var w := WeekBefore(now);
    var h := [Entry((now - 604801) * 1000000, Recv(Connected())), Entry((now - 3600) * 1000000, Recv(JoinedC()))];
    WeekValue(now);
    assert Below(h, 1, w) == 1 && Below(h, 0, w) == 1;
    assert h[..1][..0] == [] && h[..1][0] == h[0];
    assert Fold(NewTracker(), h[..1]) == Apply(NewTracker(), Connected());
    assert Kept(h, w) == [h[1]];
    assert Folded(h, w, 0) == [] && Tail(h, w, 0) == [];
    hide Apply, WeekBefore, Below;
  }

  /** The connection is accepted by the server and lost again. */
  function LostHistory(now: nat): seq<Entry>
    requires now >= 60
  {
    [Entry((now - 60) * 1000000, Recv(Connected())), Entry((now - 30) * 1000000, Status("** Disconnected"))]
  }

  /** A client comes and goes, and another comes. */
  method ComeAndGo(b: BouncerServer)
    requires b.Valid() && b.clients == [] && b.outbox == map[] && |b.history| == 2
    modifies b`clients, b`outbox, b`lastDisconnect, b`mark, b`since, b`asked
    ensures b.Valid() && 2 in b.clients && 2 in b.outbox && b.outbox[2] == [] && b.lastDisconnect == b.history[1].at
  {
    b.Accept(1);
    b.Leave(1);
    NoClients(b);
    b.Accept(2);
  }

  lemma NoClients(b: BouncerServer)
    requires exists n :: 0 <= n < |[1]| && [1][n] == 1 && b.clients == [1][..n] + [1][n + 1..]
    ensures 2 !in b.clients
  {
  }

  /** The connection to the server is lost, then a client leaves: the next one is told that all is well. */
  method DownRun(now: nat) returns (answer: seq<Message>)
    requires 1600000000 <= now <= 4000000000
    ensures answer == [State(Apply(NewTracker(), Connected()))] && Apply(NewTracker(), Connected()).connected
    ensures Down(NewTracker(), LostHistory(now)) && !Live(NewTracker(), LostHistory(now)).connected
  {
    hide *;
    DownHidden(now);
    DownLive(now);
    LostParts(now);
    var b := Heard2(Recv(Connected()), Status("** Disconnected"), now - 60, now - 30);
    ComeAndGo(b);
    answer := Ask(b, 2, now);
  }

  lemma LostParts(now: nat)
    requires now >= 60
    ensures LostHistory(now) == [Entry((now - 60) * 1000000, Recv(Connected())), Entry((now - 30) * 1000000, Status("** Disconnected"))]
    ensures |LostHistory(now)| == 2
  {
  }

  lemma DownHidden(now: nat)
    requires 1600000000 <= now <= 4000000000
    ensures |LostHistory(now)| == 2
    ensures Answer(NewTracker(), LostHistory(now), WeekBefore(now), LostHistory(now)[1].at) == [State(Apply(NewTracker(), Connected()))]
  {
    var h := LostHistory(now);
    var w, stop := WeekBefore(now), h[1].at;
    WeekValue(now);
    assert Below(h, 0, w) == 0 && Kept(h, w) == h && Skipped(h, w) == 0;
    assert Below(h, 2, stop + 1) == 2 && Below(h, 1, stop + 1) == 2 && Below(h, 0, stop + 1) == 2;
    assert Folded(h, w, stop) == h && Tail(h, w, stop) == [] && h[..0] == [];
    assert h[..1][..0] == [] && h[..1][0] == h[0];
    assert Fold(NewTracker(), h[..1]) == Apply(NewTracker(), Connected());
    hide Apply, WeekBefore, Below;
  }

  lemma DownLive(now: nat)
    requires now >= 60
    ensures Apply(NewTracker(), Connected()).connected
    ensures Down(NewTracker(), LostHistory(now)) && !Live(NewTracker(), LostHistory(now)).connected
  {
    var h := LostHistory(now);
    assert IsWelcome(h[..1][0]);
    Connection(NewTracker(), h);
  }

  // ----- state and replay together -----

  lemma {:induction false} LiveConcat(t: Tracker, a: seq<Entry>, b: seq<Entry>)
    ensures Live(t, a + b) == Live(Live(t, a), b)
    ensures Proper(t, a + b) ==> Proper(t, a) && Proper(Live(t, a), b)
    decreases |b|
  {
    if |b| == 0 {
      assert a + b == a;
    } else {
      assert (a + b)[..|a + b| - 1] == a + b[..|b| - 1];
      LiveConcat(t, a, b[..|b| - 1]);
      hide Apply, Disconnect;
    }
  }

  /** Lines that put a state right that missed a loss of connection. */
  predicate Heals(h: seq<Entry>) {
    exists i :: 0 <= i < |h| && (h[i].body.Status? || IsWelcome(h[i]))
  }

  /** One line, to a state a that missed a loss of connection and to the right one. */
  lemma HealingLine(a: Tracker, e: Entry)
    requires a.connected && (e.body.Recv? ==> BeforeWelcome(e.body.line))
    ensures var x := if e.body.Recv? then Apply(a, e.body.line) else if e.body.Status? then Disconnect(a) else a;
      var y := if e.body.Recv? then Apply(Disconnect(a), e.body.line) else Disconnect(a);
      if e.body.Status? || IsWelcome(e) then x == y else x.connected && y == Disconnect(x)
  {
    if e.body.Recv? {
      ApplyConnected(a, e.body.line);
      ApplyQuiet(a, e.body.line);
    }
    hide Apply, Disconnect;
  }

  lemma {:induction false} Healing(f: Tracker, h: seq<Entry>)
    requires f.connected && Proper(Disconnect(f), h)
    ensures var a, b := Live(f, h), Live(Disconnect(f), h); if Heals(h) then a == b else a.connected && b == Disconnect(a)
  {
    if |h| > 0 {
      var r, e := h[..|h| - 1], h[|h| - 1];
      Healing(f, r);
      var a := Live(f, r);
      DisconnectTwice(a);
      assert !Disconnect(a).connected;
      hide Apply, Disconnect, BeforeWelcome;
      if !Heals(r) {
        HealingLine(a, e);
      }
      assert forall i :: 0 <= i < |r| ==> r[i] == h[i];
      assert Heals(h) <==> Heals(r) || e.body.Status? || IsWelcome(e);
    }
  }

  /** A client that loads the state after a and then hears b has the state of one that heard a and b, exactly
      if the state was right or b puts it right. */
  lemma ReplayExact(t: Tracker, a: seq<Entry>, b: seq<Entry>)
    requires Coherent(t) && Proper(t, a + b)
    ensures Live(Fold(t, a), b) == Live(t, a + b) <==> !Down(t, a) || Heals(b)
    ensures Down(t, a) && !Heals(b) ==> Live(Fold(t, a), b).connected && !Live(t, a + b).connected
  {
    LiveConcat(t, a, b);
    StateExact(t, a);
    Related(t, a);
    hide Down, Heals;
    if Down(t, a) {
      Healing(Fold(t, a), b);
    }
  }

  lemma Regroup<T>(p: seq<T>, h0: seq<T>, a: seq<T>, b: seq<T>)
    ensures ((p + h0) + a) + b == p + (h0 + (a + b))
  {
  }

  /** A history in four parts: trimmed earlier, trimmed now, folded, replayed. */
  lemma Assemble(p: seq<Entry>, h0: seq<Entry>, a: seq<Entry>, b: seq<Entry>)
    requires Proper(NewTracker(), ((p + h0) + a) + b)
    ensures (Live(Fold(Fold(Fold(NewTracker(), p), h0), a), b) == Live(NewTracker(), ((p + h0) + a) + b))
      <==> (!Down(NewTracker(), (p + h0) + a) || Heals(b))
    ensures Down(NewTracker(), (p + h0) + a) && !Heals(b) ==>
      Live(Fold(Fold(Fold(NewTracker(), p), h0), a), b).connected && !Live(NewTracker(), ((p + h0) + a) + b).connected
  {
    hide *;
    FoldConcat(NewTracker(), p, h0);
    FoldConcat(NewTracker(), p + h0, a);
    NewCoherent();
    ReplayExact(NewTracker(), (p + h0) + a, b);
  }

  /** The lines of the history that the state or the replay takes account of. */
  function Covered(h: seq<Entry>, week: nat, stop: nat): seq<Entry> {
    h[..Below(h, 0, week)] + (Folded(h, week, stop) + Tail(h, week, stop))
  }

  /** That is all of it exactly if nothing was trimmed or nothing is left. */
  lemma CoveredExactly(h: seq<Entry>, week: nat, stop: nat)
    ensures Covered(h, week, stop) == h <==> Below(h, 0, week) == 0 || Below(h, 0, week) == |h|
  {
    CoversExactly(h, week, stop);
    KeptIs(h, week);
    hide Below, Folded, Tail, Kept;
    Completes(h, Below(h, 0, week), Folded(h, week, stop) + Tail(h, week, stop));
  }

  lemma Completes<T>(h: seq<T>, k: nat, rest: seq<T>)
    requires k <= |h|
    ensures h[..k] + rest == h <==> rest == h[k..]
  {
    assert (h[..k] + rest)[k..] == rest;
    assert h[..k] + h[k..] == h;
  }

  lemma KeptIs(h: seq<Entry>, week: nat)
    ensures Kept(h, week) == h[Below(h, 0, week)..]
  {
  }

  /** Everything together: past is what was trimmed earlier, h the history when a C line comes. Who starts with
      the state that is sent and hears the replay has then the tracker of a client that heard all the covered
      lines, exactly under the condition above. */
  lemma EndToEnd(past: seq<Entry>, h: seq<Entry>, week: nat, stop: nat)
    requires Proper(NewTracker(), past + Covered(h, week, stop))
    ensures var k := Below(h, 0, week);
      var state := Fold(Fold(Fold(NewTracker(), past), h[..k]), Folded(h, week, stop));
      (Live(state, Tail(h, week, stop)) == Live(NewTracker(), past + Covered(h, week, stop)))
        <==> (!Down(NewTracker(), past + h[..k] + Folded(h, week, stop)) || Heals(Tail(h, week, stop)))
  {
    hide Below, Folded, Tail, Fold, Live, Down, Heals, Proper;
    var h0, a, b := h[..Below(h, 0, week)], Folded(h, week, stop), Tail(h, week, stop);
    Regroup(past, h0, a, b);
    Assemble(past, h0, a, b);
  }

  lemma NewCoherent()
    ensures Coherent(NewTracker())
  {
    assert Disconnect(NewTracker()).channels == map[];
  }
}
