/** The channel tracker of irc.cpp (class tracker): what it knows, and how each line changes it. */
module IrcTracker {
  /** members is in the order of joining and may hold duplicates if the server misbehaves. */
  datatype Channel = Channel(joined: bool, members: seq<string>)

  datatype Tracker = Tracker(connected: bool, mynick: string, myident: string, channels: map<string, Channel>)

  /** The lines that can change the state; everything else is Other. Message is a PRIVMSG other than a CTCP
      query. */
  datatype Command =
    | Welcome(nick: string)
    | Join(chan: string)
    | Nick(to: string)
    | Part(chan: string)
    | Kick(chan: string, who: string)
    | Quit
    | Names(chan: string, users: seq<string>)
    | Message(target: string)
    | Notice(target: string)
    | Other

  datatype Line = Line(source: string, ident: string, cmd: Command)

  predicate IsQuery(name: string) {
    name == "" || (name[0] != '#' && name[0] != '&')
  }

  /** remove_matching: the first match only */
  function RemoveFirst(s: seq<string>, x: string): seq<string> {
    if |s| == 0 then [] else if s[0] == x then s[1..] else [s[0]] + RemoveFirst(s[1..], x)
  }

  function SetJoined(c: Channel, joined: bool): Channel {
    if c.joined == joined then c else Channel(joined, if joined then c.members else [])
  }

  function GetChannel(t: Tracker, name: string): (r: Tracker)
    ensures name in r.channels
  {
    if name in t.channels && name != "" then t
    else t.(channels := t.channels[name := Channel(IsQuery(name), if name in t.channels then t.channels[name].members else [])])
  }

  /** A name of the 353 list without its channel privileges. */
  function Strip(user: string): string {
    if |user| > 0 && user[0] in "~&@%+" then Strip(user[1..]) else user
  }

  function AddNames(members: seq<string>, users: seq<string>): seq<string>
    decreases |users|
  {
    if |users| == 0 then members
    else
      var u := Strip(users[0]);
      AddNames(if u != "" && u !in members then members + [u] else members, users[1..])
  }

  function Renamed(name: string, c: Channel, from: string, to: string): Channel {
    if !IsQuery(name) && from in c.members then c.(members := RemoveFirst(c.members, from) + [to]) else c
  }

  function Left(name: string, c: Channel, who: string): Channel {
    if !IsQuery(name) && who in c.members then c.(members := RemoveFirst(c.members, who)) else c
  }

  function Removed(c: Channel, who: string, me: bool): Channel {
    var d := c.(members := RemoveFirst(c.members, who));
    if me then SetJoined(d, false) else d
  }

  function Joined(c: Channel, who: string, me: bool): Channel {
    var d := if me then SetJoined(c, true) else c;
    d.(members := d.members + [who])
  }

  /** ircline */
  function Apply(t0: Tracker, l: Line): Tracker {
    var t := if l.source == t0.mynick then t0.(myident := l.ident) else t0;
    match l.cmd
    case Welcome(nick) => t.(channels := map[], mynick := nick, connected := true)
    case Join(n) =>
      var u := GetChannel(t, n);
      u.(channels := u.channels[n := Joined(u.channels[n], l.source, l.source == t.mynick)])
    case Nick(to) =>
      t.(channels := map n | n in t.channels :: Renamed(n, t.channels[n], l.source, to),
         mynick := if l.source == t.mynick then to else t.mynick)
    case Part(n) =>
      if n !in t.channels then t
      else t.(channels := t.channels[n := Removed(t.channels[n], l.source, l.source == t.mynick)])
    case Kick(n, who) =>
      if n !in t.channels then t
      else t.(channels := t.channels[n := Removed(t.channels[n], who, who == t.mynick)])
    case Quit => t.(channels := map n | n in t.channels :: Left(n, t.channels[n], l.source))
    case Names(n, users) =>
      if n !in t.channels then t
      else t.(channels := t.channels[n := t.channels[n].(members := AddNames(t.channels[n].members, users))])
    case Message(target) => GetChannel(t, if IsQuery(target) then l.source else target)
    case Notice(target) => if IsQuery(target) then t else GetChannel(t, target)
    case Other => t
  }

  function Offline(name: string, c: Channel): Channel {
    if c.joined && !IsQuery(name) then SetJoined(c, false) else c
  }

  /** disconnected */
  function Disconnect(t: Tracker): Tracker {
    t.(channels := map n | n in t.channels :: Offline(n, t.channels[n]), connected := false)
  }

  /** The tracker object; its methods update the fields in place. */
  class TrackerState {
    var connected: bool
    var mynick: string
    var myident: string
    var channels: map<string, Channel>

    function Value(): Tracker
      reads this
    {
      Tracker(connected, mynick, myident, channels)
    }

    constructor ()
      ensures Value() == Tracker(false, "", "", map[])
    {
      connected, mynick, myident, channels := false, "", "", map[];
    }

    constructor Copy(other: TrackerState)
      ensures Value() == other.Value()
    {
      connected, mynick, myident, channels := other.connected, other.mynick, other.myident, other.channels;
    }

    /** get_channel, up to finding the channel */
    method Create(name: string)
      modifies this`channels
      ensures Value() == GetChannel(old(Value()), name)
    {
      var unnamed := name !in channels || name == "";
      if name !in channels {
        channels := channels[name := Channel(false, [])];
      }
      if unnamed {
        channels := channels[name := channels[name].(joined := IsQuery(name))];
      }
    }

    /** channel_set_joined */
    method MarkJoined(name: string, joined: bool)
      requires name in channels
      modifies this`channels
      ensures channels == old(channels)[name := SetJoined(old(channels)[name], joined)]
    {
      var chan := channels[name];
      if chan.joined != joined {
        if !joined {
          chan := chan.(members := []);
        }
        chan := chan.(joined := joined);
        channels := channels[name := chan];
      }
      assert channels == old(channels)[name := SetJoined(old(channels)[name], joined)];
    }

    method UserJoin(name: string, who: string)
      requires name in channels
      modifies this`channels
      ensures channels == old(channels)[name := old(channels)[name].(members := old(channels)[name].members + [who])]
    {
      channels := channels[name := channels[name].(members := channels[name].members + [who])];
    }

    method UserLeave(name: string, who: string)
      requires name in channels
      modifies this`channels
      ensures channels == old(channels)[name := old(channels)[name].(members := RemoveFirst(old(channels)[name].members, who))]
    {
      channels := channels[name := channels[name].(members := RemoveFirst(channels[name].members, who))];
    }

    method Disconnected()
      modifies this
      ensures Value() == Disconnect(old(Value()))
    {
      var todo := channels.Keys;
      while todo != {}
        invariant todo <= channels.Keys == old(channels).Keys
        invariant forall n :: n in channels ==> channels[n] == if n in todo then old(channels)[n] else Offline(n, old(channels)[n])
        invariant connected == old(connected) && mynick == old(mynick) && myident == old(myident)
        decreases todo
      {
        var n :| n in todo;
        if channels[n].joined && !IsQuery(n) {
          MarkJoined(n, false);
        }
        todo := todo - {n};
      }
      connected := false;
      assert channels == Disconnect(old(Value())).channels;
    }

    method OnNick(source: string, to: string)
      modifies this`channels
      ensures channels == map n | n in old(channels) :: Renamed(n, old(channels)[n], source, to)
    {
      var todo := channels.Keys;
      while todo != {}
        invariant todo <= channels.Keys == old(channels).Keys
        invariant forall n :: n in channels ==> channels[n] == if n in todo then old(channels)[n] else Renamed(n, old(channels)[n], source, to)
        decreases todo
      {
        var n :| n in todo;
        if !IsQuery(n) && source in channels[n].members {
          UserLeave(n, source);
          UserJoin(n, to);
        }
        todo := todo - {n};
      }
    }

    method OnQuit(source: string)
      modifies this`channels
      ensures channels == map n | n in old(channels) :: Left(n, old(channels)[n], source)
    {
      var todo := channels.Keys;
      while todo != {}
        invariant todo <= channels.Keys == old(channels).Keys
        invariant forall n :: n in channels ==> channels[n] == if n in todo then old(channels)[n] else Left(n, old(channels)[n], source)
        decreases todo
      {
        var n :| n in todo;
        if !IsQuery(n) && source in channels[n].members {
          UserLeave(n, source);
        }
        todo := todo - {n};
      }
    }

    method OnNames(name: string, users: seq<string>)
      requires name in channels
      modifies this`channels
      ensures channels == old(channels)[name := old(channels)[name].(members := AddNames(old(channels)[name].members, users))]
    {
      var i := 0;
      ghost var first := channels[name].members;
      while i < |users|
        invariant i <= |users| && name in channels
        invariant channels == old(channels)[name := old(channels)[name].(members := channels[name].members)]
        invariant AddNames(channels[name].members, users[i..]) == AddNames(first, users)
      {
        var user := users[i];
        while |user| > 0 && user[0] in "~&@%+"
          invariant Strip(user) == Strip(users[i])
        {
          user := user[1..];
        }
        if user != "" {
          if user !in channels[name].members {
            UserJoin(name, user);
          }
        }
        i := i + 1;
      }
    }

    method IrcLine(l: Line)
      modifies this
      ensures Value() == Apply(old(Value()), l)
    {
      hide GetChannel, RemoveFirst;
      var source := l.source;
      if source == mynick {
        myident := l.ident;
      }
      match l.cmd
      case Welcome(nick) =>
        channels := map[];
        mynick := nick;
        connected := true;
      case Join(n) =>
        Create(n);
        if source == mynick {
          MarkJoined(n, true);
        }
        UserJoin(n, source);
      case Nick(to) =>
        OnNick(source, to);
        if source == mynick {
          mynick := to;
        }
      case Part(n) =>
        if n !in channels { return; }
        UserLeave(n, source);
        if source == mynick {
          MarkJoined(n, false);
        }
      case Kick(n, who) =>
        if n !in channels { return; }
        UserLeave(n, who);
        if who == mynick {
          MarkJoined(n, false);
        }
      case Quit => OnQuit(source);
      case Names(n, users) =>
        if n !in channels { return; }
        OnNames(n, users);
      case Message(target) => Create(if IsQuery(target) then source else target);
      case Notice(target) =>
        if !IsQuery(target) {
          Create(target);
        }
      case Other =>
    }
  }
}
