/** What one line does to the tracker, told field by field and channel by channel. */
module IrcLaws {
  import opened IrcTracker

  /** Names that begin with # or & are channels, everything else is a query. */
  predicate IsChannel(n: string) {
    n != "" && (n[0] == '#' || n[0] == '&')
  }

  function MembersOf(t: Tracker, n: string): seq<string> {
    if n in t.channels then t.channels[n].members else []
  }

  predicate InChannel(t: Tracker, n: string) {
    n in t.channels && t.channels[n].joined
  }

  /** Without the first x, in the same order. */
  ghost predicate Without(before: seq<string>, after: seq<string>, x: string) {
    if x in before then exists i :: 0 <= i < |before| && before[i] == x && x !in before[..i] && after == before[..i] + before[i + 1..]
    else after == before
  }

  lemma {:induction false} RemovedAt(m: seq<string>, x: string) returns (i: nat)
    requires x in m
    ensures i < |m| && m[i] == x && x !in m[..i] && RemoveFirst(m, x) == m[..i] + m[i + 1..]
  {
    if m[0] == x {
      i := 0;
    } else {
      var j := RemovedAt(m[1..], x);
      InFront(m, j, x);
      i := j + 1;
    }
  }

  lemma InFront<T>(m: seq<T>, j: nat, x: T)
    requires j + 1 < |m| && m[0] != x && x !in m[1..][..j]
    ensures x !in m[..j + 1] && [m[0]] + (m[1..][..j] + m[1..][j + 1..]) == m[..j + 1] + m[j + 2..]
  {
    assert m[..j + 1] == [m[0]] + m[1..][..j];
  }

  lemma {:induction false} NotRemoved(m: seq<string>, x: string)
    requires x !in m
    ensures RemoveFirst(m, x) == m
  {
    if |m| > 0 {
      NotRemoved(m[1..], x);
    }
  }

  lemma RemovedOnce(m: seq<string>, x: string)
    ensures Without(m, RemoveFirst(m, x), x)
  {
    hide RemoveFirst;
    if x in m {
      var i := RemovedAt(m, x);
    } else {
      NotRemoved(m, x);
    }
  }

  /** Only a 001 connects; it and our own NICK say what we are called; our own lines say our ident. */
  lemma Ourselves(t: Tracker, l: Line)
    ensures Apply(t, l).connected <==> t.connected || l.cmd.Welcome?
    ensures Apply(t, l).mynick ==
      if l.cmd.Welcome? then l.cmd.nick
      else if l.cmd.Nick? && l.source == t.mynick then l.cmd.to
      else t.mynick
    ensures Apply(t, l).myident == if l.source == t.mynick then l.ident else t.myident
  {
  }

  /** Which channels and queries there are: a 001 clears them all; a JOIN, a message and a notice to a channel open
      one, and a message to us opens a query with whoever sent it. Nothing else opens or closes any. */
  lemma Opened(t: Tracker, l: Line, n: string)
    ensures n in Apply(t, l).channels <==>
      match l.cmd
      case Welcome(_) => false
      case Join(c) => n in t.channels || n == c
      case Message(target) => n in t.channels || n == if IsChannel(target) then target else l.source
      case Notice(target) => n in t.channels || (IsChannel(target) && n == target)
      case _ => n in t.channels
  {
  }

  /** A new query is joined from the start, and a new channel is not. */
  lemma OpenedAs(t: Tracker, l: Line, n: string)
    requires l.cmd.Message? && n !in t.channels && n in Apply(t, l).channels
    ensures Apply(t, l).channels[n] == Channel(!IsChannel(n), [])
  {
  }

  /** A message changes nothing in what is open, but that a query with a nameless sender is joined again. */
  lemma StaysOpen(t: Tracker, l: Line, n: string)
    requires (l.cmd.Message? || l.cmd.Notice?) && n in t.channels
    ensures n in Apply(t, l).channels
    ensures var c, d := t.channels[n], Apply(t, l).channels[n];
      && d.members == c.members
      && (d.joined <==> c.joined || (n == "" == l.source && l.cmd.Message? && !IsChannel(l.cmd.target)))
  {
  }

  /** We are in a channel after our JOIN, until our PART or KICK or a new 001. */
  lemma Staying(t: Tracker, l: Line, n: string)
    requires IsChannel(n)
    ensures InChannel(Apply(t, l), n) <==>
      match l.cmd
      case Welcome(_) => false
      case Join(c) => InChannel(t, n) || (c == n && l.source == t.mynick)
      case Part(c) => InChannel(t, n) && !(c == n && l.source == t.mynick)
      case Kick(c, who) => InChannel(t, n) && !(c == n && who == t.mynick)
      case _ => InChannel(t, n)
  {
    hide RemoveFirst, AddNames;
  }

  /** The members of a channel stay in the order in which they came, whatever the server sends; whoever changes
      nick goes to the end. */
  lemma InOrder(t: Tracker, l: Line, n: string)
    requires IsChannel(n)
    ensures var before, after := MembersOf(t, n), MembersOf(Apply(t, l), n);
      match l.cmd
      case Welcome(_) => after == []
      case Join(c) => after == if c == n then before + [l.source] else before
      case Nick(to) => if l.source in before then |after| > 0 && after[|after| - 1] == to && Without(before, after[..|after| - 1], l.source) else after == before
      case Part(c) => if c != n then after == before else if InChannel(t, n) && l.source == t.mynick then after == [] else Without(before, after, l.source)
      case Kick(c, who) => if c != n then after == before else if InChannel(t, n) && who == t.mynick then after == [] else Without(before, after, who)
      case Quit => Without(before, after, l.source)
      case Names(c, _) => before <= after && (c != n ==> after == before) && forall i :: |before| <= i < |after| ==> after[i] != "" && after[i] !in after[..i]
      case _ => after == before
  {
    match l.cmd
    case Nick(_) => NickOrder(t, l, n);
    case Part(_) => LeaveOrder(t, l, n);
    case Kick(_, _) => LeaveOrder(t, l, n);
    case Quit => LeaveOrder(t, l, n);
    case Names(_, users) => NamesAppend(MembersOf(t, n), users);
    case _ =>
    hide RemoveFirst, AddNames, Without;
  }

  lemma NickOrder(t: Tracker, l: Line, n: string)
    requires IsChannel(n) && l.cmd.Nick?
    ensures var before, after := MembersOf(t, n), MembersOf(Apply(t, l), n);
      if l.source in before then |after| > 0 && after[|after| - 1] == l.cmd.to && Without(before, after[..|after| - 1], l.source) else after == before
  {
    var before := MembersOf(t, n);
    RemovedOnce(before, l.source);
    assert (RemoveFirst(before, l.source) + [l.cmd.to])[..|RemoveFirst(before, l.source)|] == RemoveFirst(before, l.source);
    hide RemoveFirst, AddNames, Without;
  }

  lemma LeaveOrder(t: Tracker, l: Line, n: string)
    requires IsChannel(n)
    ensures var before, after := MembersOf(t, n), MembersOf(Apply(t, l), n);
      && (l.cmd.Part? ==>
           if l.cmd.chan != n then after == before
           else if InChannel(t, n) && l.source == t.mynick then after == []
           else Without(before, after, l.source))
      && (l.cmd.Kick? ==>
           if l.cmd.chan != n then after == before
           else if InChannel(t, n) && l.cmd.who == t.mynick then after == []
           else Without(before, after, l.cmd.who))
      && (l.cmd.Quit? ==> Without(before, after, l.source))
  {
    var before, who := MembersOf(t, n), if l.cmd.Kick? then l.cmd.who else l.source;
    RemovedOnce(before, who);
    if who !in before {
      NotRemoved(before, who);
    }
    hide RemoveFirst, AddNames, Without;
  }

  /** The names list adds whom it does not find, at the end. */
  lemma {:induction false} NamesAppend(m: seq<string>, users: seq<string>)
    ensures var a := AddNames(m, users); m <= a && forall i :: |m| <= i < |a| ==> a[i] != "" && a[i] !in a[..i]
    decreases |users|
  {
    if |users| > 0 {
      var u := Strip(users[0]);
      var next := if u != "" && u !in m then m + [u] else m;
      NamesAppend(next, users[1..]);
      var a := AddNames(m, users);
      assert next <= a;
      if |next| > |m| {
        assert a[|m|] == u && a[..|m|] == m;
      }
    }
  }

  /** Losing the connection takes us out of all channels; queries stay. */
  lemma Losing(t: Tracker, n: string)
    ensures !Disconnect(t).connected && Disconnect(t).channels.Keys == t.channels.Keys
    ensures n in t.channels ==> Disconnect(t).channels[n] == if IsChannel(n) && t.channels[n].joined then Channel(false, []) else t.channels[n]
    ensures Disconnect(t).mynick == t.mynick && Disconnect(t).myident == t.myident
  {
  }

  /** Whoever quits or changes nick, queries are left alone. */
  lemma QueriesApart(t: Tracker, l: Line, n: string)
    requires (l.cmd.Nick? || l.cmd.Quit?) && !IsChannel(n)
    ensures n in Apply(t, l).channels <==> n in t.channels
    ensures n in t.channels ==> Apply(t, l).channels[n] == t.channels[n]
  {
  }
}
