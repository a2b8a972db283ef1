/** The tracker's member lists against a server that follows RFC 1459 (sections 4.1.2, 4.1.6, 4.2.1, 4.2.2,
    4.2.8, and numeric 353 of section 6.2). */
module IrcMembers {
  import opened IrcTracker

  /** A channel on the server. unlisted are the members that the names list sent to us has yet to mention. */
  datatype Room = Room(members: set<string>, unlisted: set<string>)

  datatype Server = Server(me: string, online: bool, rooms: map<string, Room>)

  /** A name of the names list with the marks of its privileges in front. */
  datatype Mention = Mention(marks: string, nick: string)

  /** What happens on the server. Lists is a line of a names list, whether after our joining or asked for later. */
  datatype Happening =
    | Registers(nick: string)
    | Joins(who: string, chan: string)
    | Parts(who: string, chan: string)
    | Kicks(op: string, chan: string, who: string)
    | Quits(who: string)
    | Renames(who: string, to: string)
    | Lists(chan: string, batch: seq<Mention>)
    | ListEnds(chan: string)
    | Talks(who: string, target: string)
    | Drops

  /** What we are told about it. */
  datatype Told = Nothing | Hears(line: Line) | Lost

  /** The marks of owners, protected members, operators, half-operators and the voiced. */
  predicate IsMark(c: char) {
    c == '~' || c == '&' || c == '@' || c == '%' || c == '+'
  }

  predicate GoodNick(n: string) {
    n != "" && !IsMark(n[0])
  }

  /** Section 1.3: names that begin with # or &. */
  predicate ChannelName(c: string) {
    c != "" && (c[0] == '#' || c[0] == '&')
  }

  predicate In(s: Server, c: string, n: string) {
    c in s.rooms && n in s.rooms[c].members
  }

  predicate Meets(s: Server, n: string) {
    exists c :: c in s.rooms && s.me in s.rooms[c].members && n in s.rooms[c].members
  }

  /** The nicks a batch of the names list mentions. */
  function Listed(batch: seq<Mention>): set<string> {
    set i | 0 <= i < |batch| :: batch[i].nick
  }

  /** How the server writes them. */
  function Shown(batch: seq<Mention>): (r: seq<string>)
    ensures |r| == |batch|
  {
    seq(|batch|, i requires 0 <= i < |batch| => batch[i].marks + batch[i].nick)
  }

  predicate AllMarks(m: string) {
    forall i :: 0 <= i < |m| ==> IsMark(m[i])
  }

  predicate Possible(s: Server, h: Happening) {
    match h
    case Registers(nick) => !s.online && GoodNick(nick) && forall c :: c in s.rooms ==> nick !in s.rooms[c].members
    case Joins(who, c) => ChannelName(c) && GoodNick(who) && !In(s, c, who)
    case Parts(who, c) => ChannelName(c) && In(s, c, who)
    case Kicks(_, c, who) => ChannelName(c) && In(s, c, who)
    case Quits(who) => who != s.me
    case Renames(who, to) =>
      GoodNick(who) && GoodNick(to) && who != to && to != s.me && forall c :: c in s.rooms ==> to !in s.rooms[c].members
    case Lists(c, batch) =>
      ChannelName(c) && In(s, c, s.me) && Listed(batch) <= s.rooms[c].members && forall i :: 0 <= i < |batch| ==> AllMarks(batch[i].marks)
    case ListEnds(c) => ChannelName(c) && In(s, c, s.me) && s.rooms[c].unlisted == {}
    case Talks(_, _) => s.online
    case Drops => s.online
  }

  function WithJoined(s: Server, who: string, c: string): Room {
    var m := if c in s.rooms then s.rooms[c].members else {};
    Room(m + {who}, if who == s.me then m + {who} else if c in s.rooms then s.rooms[c].unlisted else {})
  }

  function Without(r: Room, who: string): Room {
    Room(r.members - {who}, r.unlisted - {who})
  }

  function Swap(m: set<string>, who: string, to: string): set<string> {
    if who in m then m - {who} + {to} else m
  }

  function After(s: Server, h: Happening): Server
    requires Possible(s, h)
  {
    match h
    case Registers(nick) => s.(me := nick, online := true)
    case Joins(who, c) => s.(rooms := s.rooms[c := WithJoined(s, who, c)])
    case Parts(who, c) => s.(rooms := s.rooms[c := Without(s.rooms[c], who)])
    case Kicks(_, c, who) => s.(rooms := s.rooms[c := Without(s.rooms[c], who)])
    case Quits(who) => s.(rooms := map c | c in s.rooms :: Without(s.rooms[c], who))
    case Renames(who, to) =>
      s.(me := if who == s.me then to else s.me,
         rooms := map c | c in s.rooms :: Room(Swap(s.rooms[c].members, who, to), Swap(s.rooms[c].unlisted, who, to)))
    case Lists(c, batch) => s.(rooms := s.rooms[c := s.rooms[c].(unlisted := s.rooms[c].unlisted - Listed(batch))])
    case ListEnds(_) => s
    case Talks(_, _) => s
    case Drops => s.(online := false, me := "", rooms := map c | c in s.rooms :: Without(s.rooms[c], s.me))
  }

  /** A line about a channel goes to its members; server is the name that the server gives itself. */
  function Tell(s: Server, h: Happening, ident: string, server: string): Told
    requires Possible(s, h)
  {
    match h
    case Registers(nick) => Hears(Line(server, ident, Welcome(nick)))
    case Joins(who, c) => if who == s.me || In(s, c, s.me) then Hears(Line(who, ident, Join(c))) else Nothing
    case Parts(who, c) => if In(s, c, s.me) then Hears(Line(who, ident, Part(c))) else Nothing
    case Kicks(op, c, who) => if In(s, c, s.me) then Hears(Line(op, ident, Kick(c, who))) else Nothing
    case Quits(who) => if Meets(s, who) then Hears(Line(who, ident, Quit)) else Nothing
    case Renames(who, to) => if who == s.me || Meets(s, who) then Hears(Line(who, ident, Nick(to))) else Nothing
    case Lists(c, batch) => Hears(Line(server, ident, Names(c, Shown(batch))))
    case ListEnds(_) => Hears(Line(server, ident, Other))
    case Talks(who, target) => Hears(Line(who, ident, Message(target)))
    case Drops => Lost
  }

  function Heed(t: Tracker, told: Told): Tracker {
    match told
    case Nothing => t
    case Hears(line) => Apply(t, line)
    case Lost => Disconnect(t)
  }

  // ----- what the tracker knows -----

  predicate NoDuplicates(m: seq<string>) {
    forall i, j :: 0 <= i < j < |m| ==> m[i] != m[j]
  }

  /** A member list against the room: only members, no duplicates, and none missing but the unlisted. */
  predicate Agrees(m: seq<string>, r: Room) {
    NoDuplicates(m) && (forall x :: x in m ==> x in r.members) && (forall x :: x in r.members ==> x in m || x in r.unlisted)
  }

  predicate Knows(c: Channel, s: Server, name: string) {
    && (c.joined <==> In(s, name, s.me))
    && (if c.joined then Agrees(c.members, s.rooms[name]) else c.members == [])
  }

  /** The tracker has every channel we are in, and knows its members. */
  ghost predicate Sync(t: Tracker, s: Server) {
    && t.connected == s.online
    && (s.online ==> t.mynick == s.me && s.me != "")
    && (!s.online ==> s.me == "")
    && (forall c :: c in s.rooms ==> "" !in s.rooms[c].members)
    && (forall c, n :: c in s.rooms && n in s.rooms[c].members ==> GoodNick(n))
    && (forall c :: c in s.rooms && s.me in s.rooms[c].members && !IsQuery(c) ==> c in t.channels)
    && (forall c :: c in t.channels && !IsQuery(c) ==> Knows(t.channels[c], s, c))
    && (forall c :: c in s.rooms ==> s.rooms[c].unlisted <= s.rooms[c].members)
    && (forall c :: c in s.rooms && IsQuery(c) ==> s.me !in s.rooms[c].members)
  }

  lemma {:induction false} RemoveFirstFacts(m: seq<string>, x: string)
    requires NoDuplicates(m)
    ensures NoDuplicates(RemoveFirst(m, x)) && forall y :: y in RemoveFirst(m, x) <==> y in m && y != x
  {
    if |m| > 0 && m[0] != x {
      RemoveFirstFacts(m[1..], x);
      assert m == [m[0]] + m[1..];
      assert m[0] !in m[1..];
    } else if |m| > 0 {
      assert m == [m[0]] + m[1..];
      assert m[0] !in m[1..];
    }
  }

  /** The marks come off, and nothing else. */
  lemma {:induction false} StripMarks(marks: string, nick: string)
    requires AllMarks(marks) && GoodNick(nick)
    ensures Strip(marks + nick) == nick
  {
    if |marks| > 0 {
      assert (marks + nick)[1..] == marks[1..] + nick;
      StripMarks(marks[1..], nick);
    } else {
      assert marks + nick == nick;
    }
  }

  /** Exactly the marks at the beginning come off, whatever the name is. */
  lemma {:induction false} StripExactly(user: string)
    ensures var k := |user| - |Strip(user)|;
      0 <= k <= |user| && AllMarks(user[..k]) && Strip(user) == user[k..] && (k < |user| ==> !IsMark(user[k]))
  {
    if |user| > 0 && IsMark(user[0]) {
      StripExactly(user[1..]);
      var r := Strip(user);
      var k := |user| - |r|;
      assert user[..k] == [user[0]] + user[1..][..k - 1];
      assert user[k..] == user[1..][k - 1..];
    }
  }

  lemma {:induction false} AddNamesFacts(m: seq<string>, batch: seq<Mention>)
    requires NoDuplicates(m) && forall i :: 0 <= i < |batch| ==> AllMarks(batch[i].marks) && GoodNick(batch[i].nick)
    ensures var a := AddNames(m, Shown(batch)); NoDuplicates(a) && forall y :: y in a <==> y in m || y in Listed(batch)
    decreases |batch|
  {
    hide AllMarks, Strip;
    if |batch| > 0 {
      var b, u := batch[0], batch[0].nick;
      StripMarks(b.marks, u);
      assert Shown(batch)[0] == b.marks + u && Shown(batch)[1..] == Shown(batch[1..]);
      ListedSplit(batch);
      AddNamesFacts(if u !in m then m + [u] else m, batch[1..]);
    }
  }

  lemma ListedSplit(batch: seq<Mention>)
    requires |batch| > 0
    ensures Listed(batch) == {batch[0].nick} + Listed(batch[1..])
  {
    forall x | x in Listed(batch)
      ensures x in {batch[0].nick} + Listed(batch[1..])
    {
      var i :| 0 <= i < |batch| && batch[i].nick == x;
      if i > 0 {
        assert batch[1..][i - 1] == batch[i];
      }
    }
    forall x | x in Listed(batch[1..])
      ensures x in Listed(batch)
    {
      var i :| 0 <= i < |batch[1..]| && batch[1..][i].nick == x;
      assert batch[i + 1] == batch[1..][i];
    }
  }

  lemma JoinsSync(t: Tracker, s: Server, who: string, c: string, ident: string, server: string)
    requires Sync(t, s) && Possible(s, Joins(who, c))
    ensures Sync(Heed(t, Tell(s, Joins(who, c), ident, server)), After(s, Joins(who, c)))
  {
    var t', s' := Heed(t, Tell(s, Joins(who, c), ident, server)), After(s, Joins(who, c));
    forall d | d in t'.channels && !IsQuery(d)
      ensures Knows(t'.channels[d], s', d)
    {
      JoinsKnows(t, s, who, c, ident, server, d);
    }
    hide Knows;
  }

  lemma JoinsKnows(t: Tracker, s: Server, who: string, c: string, ident: string, server: string, d: string)
    requires Sync(t, s) && Possible(s, Joins(who, c)) && !IsQuery(d)
    requires d in Heed(t, Tell(s, Joins(who, c), ident, server)).channels
    ensures Knows(Heed(t, Tell(s, Joins(who, c), ident, server)).channels[d], After(s, Joins(who, c)), d)
  {
  }

  lemma PartsSync(t: Tracker, s: Server, who: string, c: string, ident: string, server: string)
    requires Sync(t, s) && Possible(s, Parts(who, c))
    ensures Sync(Heed(t, Tell(s, Parts(who, c), ident, server)), After(s, Parts(who, c)))
  {
    if In(s, c, s.me) {
      RemoveFirstFacts(t.channels[c].members, who);
    }
    hide RemoveFirst, NoDuplicates;
  }

  lemma KicksSync(t: Tracker, s: Server, op: string, c: string, who: string, ident: string, server: string)
    requires Sync(t, s) && Possible(s, Kicks(op, c, who))
    ensures Sync(Heed(t, Tell(s, Kicks(op, c, who), ident, server)), After(s, Kicks(op, c, who)))
  {
    if In(s, c, s.me) {
      RemoveFirstFacts(t.channels[c].members, who);
    }
    hide RemoveFirst, NoDuplicates;
  }

  lemma QuitsSync(t: Tracker, s: Server, who: string, ident: string, server: string)
    requires Sync(t, s) && Possible(s, Quits(who))
    ensures Sync(Heed(t, Tell(s, Quits(who), ident, server)), After(s, Quits(who)))
  {
    forall c | c in t.channels && !IsQuery(c)
      ensures NoDuplicates(RemoveFirst(t.channels[c].members, who)) && forall y :: y in RemoveFirst(t.channels[c].members, who) <==> y in t.channels[c].members && y != who
    {
      RemoveFirstFacts(t.channels[c].members, who);
    }
    hide RemoveFirst, NoDuplicates;
  }

  lemma RenamesSync(t: Tracker, s: Server, who: string, to: string, ident: string, server: string)
    requires Sync(t, s) && Possible(s, Renames(who, to))
    ensures Sync(Heed(t, Tell(s, Renames(who, to), ident, server)), After(s, Renames(who, to)))
  {
    var t', s' := Heed(t, Tell(s, Renames(who, to), ident, server)), After(s, Renames(who, to));
    forall c | c in t'.channels && !IsQuery(c)
      ensures Knows(t'.channels[c], s', c)
    {
      RenamesKnows(t, s, who, to, ident, server, c);
    }
    hide RemoveFirst, Knows, Strip;
  }

  lemma RenamesKnows(t: Tracker, s: Server, who: string, to: string, ident: string, server: string, c: string)
    requires Sync(t, s) && Possible(s, Renames(who, to)) && c in t.channels && !IsQuery(c)
    ensures var u := Heed(t, Tell(s, Renames(who, to), ident, server)); c in u.channels && Knows(u.channels[c], After(s, Renames(who, to)), c)
  {
    if t.channels[c].joined {
      RenamedAgrees(c, t.channels[c], s.rooms[c], who, to);
    }
    hide RemoveFirst, Strip, Agrees, Swap;
  }

  lemma RenamedAgrees(name: string, c: Channel, r: Room, who: string, to: string)
    requires !IsQuery(name) && c.joined && Agrees(c.members, r) && to !in r.members
    ensures Agrees(Renamed(name, c, who, to).members, Room(Swap(r.members, who, to), Swap(r.unlisted, who, to)))
    ensures Renamed(name, c, who, to).joined && (who !in r.members ==> Renamed(name, c, who, to) == c)
  {
    RemoveFirstFacts(c.members, who);
    hide RemoveFirst, IsQuery;
  }

  lemma ListsSync(t: Tracker, s: Server, c: string, batch: seq<Mention>, ident: string, server: string)
    requires Sync(t, s) && Possible(s, Lists(c, batch))
    ensures Sync(Heed(t, Tell(s, Lists(c, batch), ident, server)), After(s, Lists(c, batch)))
  {
    forall i | 0 <= i < |batch|
      ensures GoodNick(batch[i].nick)
    {
      assert batch[i].nick in Listed(batch);
    }
    AddNamesFacts(t.channels[c].members, batch);
    hide AddNames, NoDuplicates, Listed, Shown, AllMarks, GoodNick;
  }

  lemma OthersSync(t: Tracker, s: Server, h: Happening, ident: string, server: string)
    requires Sync(t, s) && Possible(s, h) && (h.Registers? || h.ListEnds? || h.Talks? || h.Drops?)
    ensures Sync(Heed(t, Tell(s, h, ident, server)), After(s, h))
  {
  }

  lemma StepSync(t: Tracker, s: Server, h: Happening, ident: string, server: string)
    requires Sync(t, s) && Possible(s, h)
    ensures Sync(Heed(t, Tell(s, h, ident, server)), After(s, h))
  {
    hide *;
    match h
    case Joins(who, c) => JoinsSync(t, s, who, c, ident, server);
    case Parts(who, c) => PartsSync(t, s, who, c, ident, server);
    case Kicks(op, c, who) => KicksSync(t, s, op, c, who, ident, server);
    case Quits(who) => QuitsSync(t, s, who, ident, server);
    case Renames(who, to) => RenamesSync(t, s, who, to, ident, server);
    case Lists(c, batch) => ListsSync(t, s, c, batch, ident, server);
    case _ => OthersSync(t, s, h, ident, server);
  }

  // ----- whole traces -----

  /** A server that nobody has joined yet, what happens there, and the tracker that is told about it. */
  ghost predicate Trace(ss: seq<Server>, ts: seq<Tracker>, hs: seq<Happening>, idents: seq<string>, server: string) {
    && |ss| == |ts| == |hs| + 1 && |idents| == |hs|
    && ss[0] == Server("", false, map[]) && ts[0] == Tracker(false, "", "", map[])
    && forall i :: 0 <= i < |hs| ==>
         Possible(ss[i], hs[i]) && ss[i + 1] == After(ss[i], hs[i]) && ts[i + 1] == Heed(ts[i], Tell(ss[i], hs[i], idents[i], server))
  }

  lemma {:induction false} TraceSync(ss: seq<Server>, ts: seq<Tracker>, hs: seq<Happening>, idents: seq<string>, server: string, i: nat)
    requires Trace(ss, ts, hs, idents, server) && i < |ss|
    ensures Sync(ts[i], ss[i])
  {
    hide Possible, After, Heed, Tell;
    if i > 0 {
      TraceSync(ss, ts, hs, idents, server, i - 1);
      hide Sync;
      StepSync(ts[i - 1], ss[i - 1], hs[i - 1], idents[i - 1], server);
    }
  }

  /** At every moment, the tracker has exactly the channels we are in as joined; its list of a joined channel
      has no duplicates and no strangers, lacks nobody but those whom the names list has yet to mention, and
      so is complete once that list has ended. */
  lemma MembersExact(ss: seq<Server>, ts: seq<Tracker>, hs: seq<Happening>, idents: seq<string>, server: string, i: nat, c: string)
    requires Trace(ss, ts, hs, idents, server) && i < |ss| && ChannelName(c)
    ensures ts[i].connected == ss[i].online && (ss[i].online ==> ts[i].mynick == ss[i].me)
    ensures In(ss[i], c, ss[i].me) <==> c in ts[i].channels && ts[i].channels[c].joined
    ensures In(ss[i], c, ss[i].me) ==>
      var m, r := ts[i].channels[c].members, ss[i].rooms[c];
      && NoDuplicates(m) && (forall x :: x in m ==> x in r.members)
      && (forall x :: x in r.members - r.unlisted ==> x in m)
      && (r.unlisted == {} ==> forall x :: x in m <==> x in r.members)
  {
    TraceSync(ss, ts, hs, idents, server, i);
    hide NoDuplicates, Trace;
  }

  /** Once complete, a list stays so until we join anew. */
  lemma StaysListed(s: Server, h: Happening, c: string)
    requires Possible(s, h) && In(s, c, s.me) && s.rooms[c].unlisted == {} && In(After(s, h), c, After(s, h).me)
    ensures After(s, h).rooms[c].unlisted == {}
  {
  }
}
