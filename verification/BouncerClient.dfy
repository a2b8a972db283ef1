/** What a client makes of what the bouncer sends it: bouncer_client and ui::load_state of irc.cpp. */
module BouncerClient {
  import opened IrcTracker
  import opened Bouncer
  import opened BouncerReplay
  import IrcMembers

  /** A channel that the tracker does not know, or that get_channel has just created, is empty. */
  function Get(t: Tracker, name: string): Channel {
    if name in t.channels then t.channels[name] else Channel(IsQuery(name), [])
  }

  /** load_state: strings and flags are replaced, but deserialising a map or an array adds to what is there. */
  function Load(t: Tracker, s: Tracker): Tracker {
    s.(channels := map n | n in t.channels.Keys + s.channels.Keys ::
         if n in s.channels then Channel(s.channels[n].joined, Get(t, n).members + s.channels[n].members) else t.channels[n])
  }

  /** What a client makes of the messages it is sent. */
  function Client(t: Tracker, m: seq<Message>): Tracker {
    if |m| == 0 then t
    else
      var u := Client(t, m[..|m| - 1]);
      match m[|m| - 1]
      case State(s) => Load(u, s)
      case Stamped(Entry(_, Recv(line))) => Apply(u, line)
      case Stamped(Entry(_, Sent(_))) => u
      case Stamped(Entry(_, Status(_))) => Disconnect(u)
      case Pong => u
  }

  // ----- trackers that say the same -----

  /** The same but for channels that one knows as empty and the other does not know, and for queries. */
  ghost predicate Alike(t: Tracker, u: Tracker) {
    && t.connected == u.connected && t.mynick == u.mynick && t.myident == u.myident
    && forall n :: !IsQuery(n) ==> Get(t, n) == Get(u, n)
  }

  /** Nobody is listed in any channel, and no channel is joined that s does not have. */
  ghost predicate Vacant(t: Tracker, s: Tracker) {
    forall n :: !IsQuery(n) ==> Get(t, n).members == [] && (Get(t, n).joined ==> n in s.channels)
  }

  /** Loading a state takes over that state exactly if the client had forgotten all members. */
  lemma LoadExact(t: Tracker, s: Tracker)
    ensures Alike(Load(t, s), s) <==> Vacant(t, s)
  {
    forall n | !IsQuery(n)
      ensures Get(Load(t, s), n) == Get(s, n) <==> Get(t, n).members == [] && (Get(t, n).joined ==> n in s.channels)
    {
      LoadOne(t, s, n);
    }
    hide Get, Load, IsQuery;
  }

  lemma LoadOne(t: Tracker, s: Tracker, n: string)
    requires !IsQuery(n)
    ensures Get(Load(t, s), n) == Get(s, n) <==> Get(t, n).members == [] && (Get(t, n).joined ==> n in s.channels)
  {
    if n in s.channels {
      var a, b := Get(t, n).members, s.channels[n].members;
      assert |a| > 0 ==> |a + b| > |b|;
      assert |a| == 0 ==> a + b == b;
    }
  }

  /** A member list comes only for a channel that we are in. */
  predicate Polite(t: Tracker, l: Line) {
    l.cmd.Names? ==> IsQuery(l.cmd.chan) || Get(t, l.cmd.chan).joined
  }

  predicate Mannered(t: Tracker, h: seq<Entry>) {
    |h| > 0 ==>
      && Mannered(t, h[..|h| - 1])
      && (h[|h| - 1].body.Recv? ==> Polite(Live(t, h[..|h| - 1]), h[|h| - 1].body.line))
  }

  /** What a line does to one channel. */
  function Changed(c: Channel, name: string, mynick: string, l: Line): Channel {
    match l.cmd
    case Welcome(_) => Channel(false, [])
    case Join(n) => if n == name then Joined(c, l.source, l.source == mynick) else c
    case Nick(to) => Renamed(name, c, l.source, to)
    case Part(n) => if n == name then Removed(c, l.source, l.source == mynick) else c
    case Kick(n, who) => if n == name then Removed(c, who, who == mynick) else c
    case Quit => Left(name, c, l.source)
    case Names(n, users) => if n == name then c.(members := AddNames(c.members, users)) else c
    case _ => c
  }

  lemma ChannelChanged(t: Tracker, l: Line, n: string)
    requires !IsQuery(n) && Polite(t, l)
    ensures Get(Apply(t, l), n) == Changed(Get(t, n), n, t.mynick, l)
  {
    hide AddNames, Strip;
  }

  lemma OthersChanged(t: Tracker, l: Line)
    ensures Apply(t, l).connected == (l.cmd.Welcome? || t.connected)
    ensures Apply(t, l).myident == if l.source == t.mynick then l.ident else t.myident
    ensures Apply(t, l).mynick ==
      if l.cmd.Welcome? then l.cmd.nick else if l.cmd.Nick? && l.source == t.mynick then l.cmd.to else t.mynick
  {
    hide Joined, Renamed, Removed, Left, AddNames;
  }

  lemma ApplyAlike(t: Tracker, u: Tracker, l: Line)
    requires Alike(t, u) && Polite(u, l)
    ensures Alike(Apply(t, l), Apply(u, l))
  {
    hide Get, Apply, Changed;
    OthersChanged(t, l);
    OthersChanged(u, l);
    forall n | !IsQuery(n)
      ensures Get(Apply(t, l), n) == Get(Apply(u, l), n)
    {
      assert Get(t, n) == Get(u, n);
      ChannelChanged(t, l, n);
      ChannelChanged(u, l, n);
    }
  }

  lemma DisconnectAlike(t: Tracker, u: Tracker)
    requires Alike(t, u)
    ensures Alike(Disconnect(t), Disconnect(u))
  {
    forall n | !IsQuery(n)
      ensures Get(Disconnect(t), n) == Get(Disconnect(u), n)
    {
      assert Get(t, n) == Get(u, n);
    }
  }

  lemma {:induction false} LiveAlike(t: Tracker, u: Tracker, h: seq<Entry>)
    requires Alike(t, u) && Mannered(u, h)
    ensures Alike(Live(t, h), Live(u, h))
  {
    hide Alike, Apply, Disconnect, Polite;
    if |h| > 0 {
      var r, e := h[..|h| - 1], h[|h| - 1];
      LiveAlike(t, u, r);
      if e.body.Recv? {
        ApplyAlike(Live(t, r), Live(u, r), e.body.line);
      } else {
        DisconnectAlike(Live(t, r), Live(u, r));
      }
    }
  }

  // ----- the client's messages -----

  lemma {:induction false} ClientConcat(t: Tracker, a: seq<Message>, b: seq<Message>)
    ensures Client(t, a + b) == Client(Client(t, a), b)
    decreases |b|
  {
    if |b| == 0 {
      assert a + b == a;
    } else {
      assert (a + b)[..|a + b| - 1] == a + b[..|b| - 1];
      ClientConcat(t, a, b[..|b| - 1]);
      hide Apply, Disconnect, Load;
    }
  }

  lemma {:induction false} ClientStamps(t: Tracker, h: seq<Entry>)
    ensures Client(t, Stamps(h)) == Live(t, h)
  {
    if |h| > 0 {
      assert Stamps(h)[..|h| - 1] == Stamps(h[..|h| - 1]);
      ClientStamps(t, h[..|h| - 1]);
      hide Apply, Disconnect, Load;
    }
  }

  /** The state in an answer. */
  function Told(base: Tracker, h: seq<Entry>, week: nat, stop: nat): Tracker {
    Fold(Fold(base, h[..Below(h, 0, week)]), Folded(h, week, stop))
  }

  /** Whatever a client knew, and was sent between connecting and its C line: after the answer and the lines
      sent from then on it has that, with the state loaded and the replayed and the later lines applied. */
  lemma ClientKnows(t: Tracker, early: seq<Message>, base: Tracker, h: seq<Entry>, week: nat, stop: nat, later: seq<Entry>)
    ensures Client(t, early + Answer(base, h, week, stop) + Stamps(later))
      == Live(Load(Client(t, early + Truncated(week, stop)), Told(base, h, week, stop)), Tail(h, week, stop) + later)
  {
    AnswerParts(base, h, week, stop);
    hide *;
    Loaded(t, early, Truncated(week, stop), Told(base, h, week, stop), Tail(h, week, stop), later);
  }

  lemma AnswerParts(base: Tracker, h: seq<Entry>, week: nat, stop: nat)
    ensures Answer(base, h, week, stop) == Truncated(week, stop) + [State(Told(base, h, week, stop))] + Stamps(Tail(h, week, stop))
  {
    hide Below, Fold, Folded, Tail, Stamps, Truncated;
  }

  /** A state in the middle of the messages. */
  lemma Loaded(t: Tracker, early: seq<Message>, warn: seq<Message>, s: Tracker, tail: seq<Entry>, later: seq<Entry>)
    ensures Client(t, early + (warn + [State(s)] + Stamps(tail)) + Stamps(later)) == Live(Load(Client(t, early + warn), s), tail + later)
  {
    hide *;
    var u := Client(t, early + warn);
    Regroup5(early, warn, [State(s)], Stamps(tail), Stamps(later));
    ClientConcat(t, early + warn, [State(s)] + (Stamps(tail) + Stamps(later)));
    ClientConcat(u, [State(s)], Stamps(tail) + Stamps(later));
    ClientLoads(u, s);
    ClientConcat(Load(u, s), Stamps(tail), Stamps(later));
    ClientStamps(Load(u, s), tail);
    ClientStamps(Live(Load(u, s), tail), later);
    LiveConcat(Load(u, s), tail, later);
  }

  lemma ClientLoads(t: Tracker, s: Tracker)
    ensures Client(t, [State(s)]) == Load(t, s)
  {
    hide Load;
  }

  lemma Regroup5<T>(a: seq<T>, b: seq<T>, c: seq<T>, d: seq<T>, e: seq<T>)
    ensures a + (b + c + d) + e == (a + b) + (c + (d + e))
  {
  }

  /** The client's view of it all. If it had forgotten all members, it knows in the end what a client that heard
      the covered and the later lines knows, exactly under the condition of ReplayExact, the later lines counting
      as well. */
  lemma ClientExact(t: Tracker, early: seq<Message>, past: seq<Entry>, h: seq<Entry>, week: nat, stop: nat, later: seq<Entry>)
    requires Proper(NewTracker(), past + Covered(h, week, stop) + later)
    requires var s := Told(Fold(NewTracker(), past), h, week, stop);
      Vacant(Client(t, early + Truncated(week, stop)), s) && Mannered(s, Tail(h, week, stop) + later)
    ensures Alike(Client(t, early + Answer(Fold(NewTracker(), past), h, week, stop) + Stamps(later)), Live(NewTracker(), past + Covered(h, week, stop) + later))
      <==> (!Down(NewTracker(), past + h[..Below(h, 0, week)] + Folded(h, week, stop)) || Heals(Tail(h, week, stop) + later))
  {
    hide *;
    var s, u := Told(Fold(NewTracker(), past), h, week, stop), Client(t, early + Truncated(week, stop));
    var rest := Tail(h, week, stop) + later;
    ClientKnows(t, early, Fold(NewTracker(), past), h, week, stop, later);
    LoadExact(u, s);
    LiveAlike(Load(u, s), s, rest);
    ToldExact(past, h, week, stop, later);
    Connection2(Live(Load(u, s), rest), Live(s, rest), Live(NewTracker(), past + Covered(h, week, stop) + later));
  }

  /** The same for a client that starts with exactly the state it is told. */
  lemma ToldExact(past: seq<Entry>, h: seq<Entry>, week: nat, stop: nat, later: seq<Entry>)
    requires Proper(NewTracker(), past + Covered(h, week, stop) + later)
    ensures var a := Live(Told(Fold(NewTracker(), past), h, week, stop), Tail(h, week, stop) + later);
      var b := Live(NewTracker(), past + Covered(h, week, stop) + later);
      if !Down(NewTracker(), past + h[..Below(h, 0, week)] + Folded(h, week, stop)) || Heals(Tail(h, week, stop) + later) then a == b
      else a.connected && !b.connected
  {
    hide Below, Folded, Tail, Fold, Live, Down, Heals, Proper;
    var h0, a, b := h[..Below(h, 0, week)], Folded(h, week, stop), Tail(h, week, stop);
    Regroup4(past, h0, a, b, later);
    Assemble(past, h0, a, b + later);
  }

  lemma Connection2(x: Tracker, a: Tracker, b: Tracker)
    requires Alike(x, a) && (a == b || (a.connected && !b.connected))
    ensures Alike(x, b) <==> a == b
  {
    hide Get;
  }

  lemma Regroup4<T>(p: seq<T>, h0: seq<T>, a: seq<T>, b: seq<T>, l: seq<T>)
    ensures ((p + h0) + a) + (b + l) == (p + (h0 + (a + b))) + l
  {
  }

  // ----- who has forgotten all members, and who has not -----

  /** No members are listed in channels we are not in. */
  ghost predicate Tidy(t: Tracker) {
    forall n :: n in t.channels && !IsQuery(n) && !t.channels[n].joined ==> t.channels[n].members == []
  }

  /** Every tracker that a server without surprises talks to is so. */
  lemma StaysTidy(ss: seq<IrcMembers.Server>, ts: seq<Tracker>, hs: seq<IrcMembers.Happening>, idents: seq<string>, server: string, i: nat)
    requires IrcMembers.Trace(ss, ts, hs, idents, server) && i < |ss|
    ensures Tidy(ts[i])
  {
    IrcMembers.TraceSync(ss, ts, hs, idents, server, i);
    hide IrcMembers.Trace;
  }

  /** A client that has noticed the loss of its bouncer is ready for any state. */
  lemma NoticedVacant(t: Tracker, s: Tracker)
    requires Tidy(t)
    ensures Vacant(Disconnect(t), s)
  {
  }

  /** The channels of the configuration are there from the start. */
  function Configured(names: seq<string>): Tracker {
    if |names| == 0 then NewTracker() else GetChannel(Configured(names[..|names| - 1]), names[|names| - 1])
  }

  /** So is a client that has just been started. */
  lemma {:induction false} StartedVacant(names: seq<string>, s: Tracker)
    ensures Vacant(Configured(names), s)
    ensures forall n :: !IsQuery(n) ==> Get(Configured(names), n) == Channel(false, [])
  {
    if |names| > 0 {
      StartedVacant(names[..|names| - 1], s);
    }
  }

  /** One that has not noticed it, because it gave up waiting for a ping, lists everyone twice. */
  lemma ReloadExample()
    ensures var s := Apply(Apply(NewTracker(), Connected()), JoinedC());
      Get(s, "#c").members == ["me"] && Get(Load(s, s), "#c").members == ["me", "me"]
  {
    var s := Apply(Apply(NewTracker(), Connected()), JoinedC());
    assert "#c" in s.channels;
  }

  // ----- lines that come before the C line -----

  /** The numbers, among all lines ever, of those that the answer leaves out: past are the lines trimmed earlier. */
  predicate LeftOut(past: seq<Entry>, h: seq<Entry>, week: nat, i: nat) {
    var k := |past| + Below(h, 0, week);
    k <= i < k + Skipped(h, week)
  }

  /** How often a line is taken account of: among the messages before the answer, and in the answer. */
  function Times(early: seq<nat>, past: seq<Entry>, h: seq<Entry>, week: nat, i: nat): nat {
    (if i in early then 1 else 0) + if LeftOut(past, h, week, i) then 0 else 1
  }

  /** The answer takes account, once each and in order, of all lines that it does not leave out: of some in the
      state, and of the rest in the replay. */
  lemma AnswerTakes(past: seq<Entry>, h: seq<Entry>, week: nat, stop: nat) returns (a: nat, b: nat, c: nat)
    ensures var all := past + h;
      && a <= b <= c <= |all| && (forall i: nat :: a <= i < b <==> LeftOut(past, h, week, i))
      && Told(Fold(NewTracker(), past), h, week, stop) == Fold(NewTracker(), all[..a] + all[b..c])
      && Tail(h, week, stop) == all[c..]
  {
    var k, n, j := Below(h, 0, week), Skipped(h, week), Cut(h, week, stop);
    a, b, c := |past| + k, |past| + k + n, |past| + k + j;
    var all := past + h;
    Parts(past, h, k, n, j);
    FoldConcat(NewTracker(), past, h[..k]);
    FoldConcat(NewTracker(), past + h[..k], h[k..][n..j]);
    hide Fold, Below;
  }

  lemma Parts(past: seq<Entry>, h: seq<Entry>, k: nat, n: nat, j: nat)
    requires k <= |h| && n <= j <= |h| - k
    ensures var all, p := past + h, |past|;
      all[..p + k] == past + h[..k] && all[p + k + n..p + k + j] == h[k..][n..j] && all[p + k + j..] == h[k..][j..]
  {
  }

  /** When a client sends its first C line: it has been sent the lines since it connected, and is sent an answer.
      Of all lines ever, those are taken account of twice that came in between and are not left out, and every
      line once exactly if the lines that came in between are those left out. In particular, if nothing is
      trimmed: exactly if nothing came in between. */
  method FirstConfigure(b: BouncerServer, id: nat, now: nat) returns (ghost early: seq<nat>, ghost before: seq<Message>)
    requires b.Valid() && b.Followed() && b.Relayed() && id in b.clients && id !in b.asked
    modifies b`history, b`outbox, b`past, b`mark, b`asked, b.track
    ensures b.Valid() && b.All() == old(b.All()) && id in b.since && id in b.outbox && |b.hushed| == |b.All()|
    ensures forall i :: i in early <==> b.since[id] <= i < |b.All()| && id !in b.hushed[i]
    ensures Carries(before, Pick(b.All(), early))
    ensures var week := WeekBefore(now);
      && b.outbox[id] == before + Answer(Fold(NewTracker(), old(b.past)), old(b.history), week, b.lastDisconnect)
      && (forall i :: 0 <= i < |b.All()| ==> (Times(early, old(b.past), old(b.history), week, i) == 2 <==> i in early && !LeftOut(old(b.past), old(b.history), week, i)))
      && ((forall i :: 0 <= i < |b.All()| ==> Times(early, old(b.past), old(b.history), week, i) == 1)
          <==> forall i :: 0 <= i < |b.All()| ==> (i in early <==> LeftOut(old(b.past), old(b.history), week, i)))
      && (Below(old(b.history), 0, week) == 0 ==>
           ((forall i :: 0 <= i < |b.All()| ==> Times(early, old(b.past), old(b.history), week, i) == 1) <==> early == []))
  {
    early, before := Early(b.since[id], b.hushed, id), b.outbox[id];
    OnceExactly(early, b.past, b.history, WeekBefore(now), |b.All()|);
    hide Below, Answer, WeekBefore, Fold, Times, LeftOut, Carries, Pick;
    b.Configure(id, now);
  }

  lemma OnceExactly(early: seq<nat>, past: seq<Entry>, h: seq<Entry>, week: nat, n: nat)
    requires forall i :: i in early ==> i < n
    ensures forall i :: 0 <= i < n ==> (Times(early, past, h, week, i) == 2 <==> i in early && !LeftOut(past, h, week, i))
    ensures (forall i :: 0 <= i < n ==> Times(early, past, h, week, i) == 1)
      <==> forall i :: 0 <= i < n ==> (i in early <==> LeftOut(past, h, week, i))
    ensures Below(h, 0, week) == 0 ==> ((forall i :: 0 <= i < n ==> Times(early, past, h, week, i) == 1) <==> early == [])
  {
    hide LeftOut, Below;
    assert forall i :: 0 <= i < n ==> (Times(early, past, h, week, i) == 1 <==> (i in early <==> LeftOut(past, h, week, i)));
    if Below(h, 0, week) == 0 {
      NoneLeftOut(past, h, week);
      if |early| > 0 {
        assert early[0] in early;
      }
    }
  }

  lemma NoneLeftOut(past: seq<Entry>, h: seq<Entry>, week: nat)
    requires Below(h, 0, week) == 0
    ensures forall i :: !LeftOut(past, h, week, i)
  {
  }


  /** A client connects, and a line comes. */
  method EarlyLine(line: Line, now: nat) returns (b: BouncerServer)
    ensures fresh(b) && fresh(b.track) && b.Valid() && b.history == [Entry(now * 1000000, Recv(line))]
    ensures b.track.Value() == NewTracker() && 1 in b.clients && 1 in b.outbox && b.outbox[1] == [Stamped(Entry(now * 1000000, Recv(line)))]
    ensures b.lastDisconnect == 0
  {
    hide *;
    b := new BouncerServer();
    b.Accept(1);
    b.IrcLine(line, false, now);
    OnlyStamp(now, Recv(line));
    HeardIt(b, Entry(now * 1000000, Recv(line)));
  }

  /** A line that comes between a client's connecting and its C line reaches it twice. */
  method TwiceRun(line: Line, now: nat) returns (sent: seq<Message>)
    requires 1600000000 <= now <= 4000000000
    ensures var m := Stamped(Entry(now * 1000000, Recv(line))); sent == [m] + [State(NewTracker())] + [m]
  {
    hide *;
    TwiceAnswer(line, now);
    var b := EarlyLine(line, now);
    b.Configure(1, now);
    sent := b.outbox[1];
  }

  /** If it is a JOIN, the client lists the member twice. */
  lemma TwiceJoined(at: nat)
    ensures var e := Entry(at, Recv(JoinedC())); var m := Stamped(e);
      Get(Client(NewTracker(), [m] + [State(NewTracker())] + [m]), "#c").members == ["me", "me"]
        && Get(Live(NewTracker(), [e]), "#c").members == ["me"]
  {
    var e := Entry(at, Recv(JoinedC()));
    var m, t := Stamped(e), NewTracker();
    ClientConcat(t, [m] + [State(t)], [m]);
    ClientConcat(t, [m], [State(t)]);
    ClientLoads(Client(t, [m]), t);
    assert [e][..0] == [] && Stamps([e]) == [m];
    ClientStamps(t, [e]);
    ClientStamps(Load(Client(t, [m]), t), [e]);
    hide Client;
  }

  lemma OnlyStamp(now: nat, body: Body)
    ensures var none: seq<Entry> := []; none + [Entry(Stamp(none, now * 1000000), body)] == [Entry(now * 1000000, body)]
  {
  }

  lemma HeardIt(b: BouncerServer, e: Entry)
    requires b.Heard(map[1 := []], e, []) && 1 in b.clients
    ensures 1 in b.outbox && b.outbox[1] == [Stamped(e)]
  {
  }

  lemma TwiceAnswer(line: Line, now: nat)
    requires 1600000000 <= now <= 4000000000
    ensures var m := Stamped(Entry(now * 1000000, Recv(line)));
      [m] + Answer(NewTracker(), [Entry(now * 1000000, Recv(line))], WeekBefore(now), 0) == [m] + [State(NewTracker())] + [m]
  {
    var w, h := WeekBefore(now), [Entry(now * 1000000, Recv(line))];
    WeekValue(now);
    assert Below(h, 0, w) == 0 && Kept(h, w) == h && Skipped(h, w) == 0 && Below(h, 0, 1) == 0;
    assert Folded(h, w, 0) == [] && Tail(h, w, 0) == h && h[..0] == [];
    hide Apply, WeekBefore, Below;
    assert Stamps(h) == [Stamped(h[0])];
  }
}
