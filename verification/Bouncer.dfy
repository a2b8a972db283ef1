/** The bouncer of irc.cpp (class bouncer_server): it keeps a history of lines and gives a connecting client
    the tracker state up to a point and every line after it. */
module Bouncer {
  import opened IrcTracker

  /** A line from the IRC server, one sent to it by a client, or a note about the connection. */
  datatype Body = Recv(line: Line) | Sent(text: string) | Status(text: string)

  /** at is in microseconds. */
  datatype Entry = Entry(at: nat, body: Body)

  datatype Message = Stamped(entry: Entry) | State(tracker: Tracker) | Pong

  // ----- what the answer to a C line is made of -----

  /** A tracker that has heard nothing. */
  function NewTracker(): Tracker {
    Tracker(false, "", "", map[])
  }

  /** The tracker state after the lines of a history, as the bouncer computes it: only > lines count. */
  function Fold(t: Tracker, h: seq<Entry>): Tracker {
    if |h| == 0 then t
    else
      var u := Fold(t, h[..|h| - 1]);
      if h[|h| - 1].body.Recv? then Apply(u, h[|h| - 1].body.line) else u
  }

  /** How many lines from n on have a stamp below limit, without a gap. */
  function Below(h: seq<Entry>, n: nat, limit: nat): (k: nat)
    requires n <= |h|
    ensures n <= k <= |h|
    ensures forall i :: n <= i < k ==> h[i].at < limit
    ensures k < |h| ==> h[k].at >= limit
    decreases |h| - n
  {
    if n < |h| && h[n].at < limit then Below(h, n + 1, limit) else n
  }

  /** The lines that are left after trimming. */
  function Kept(h: seq<Entry>, week: nat): seq<Entry> {
    h[Below(h, 0, week)..]
  }

  /** Where the second loop starts: n is not reset after the trim. */
  function Skipped(h: seq<Entry>, week: nat): (n: nat)
    ensures n <= |Kept(h, week)|
  {
    var k := Below(h, 0, week);
    if k <= |h| - k then k else |h| - k
  }

  function Cut(h: seq<Entry>, week: nat, stop: nat): (j: nat)
    ensures Skipped(h, week) <= j <= |Kept(h, week)|
  {
    Below(Kept(h, week), Skipped(h, week), stop + 1)
  }

  /** The lines that go into the state. */
  function Folded(h: seq<Entry>, week: nat, stop: nat): seq<Entry> {
    Kept(h, week)[Skipped(h, week)..Cut(h, week, stop)]
  }

  /** The lines that are replayed. */
  function Tail(h: seq<Entry>, week: nat, stop: nat): seq<Entry> {
    Kept(h, week)[Cut(h, week, stop)..]
  }

  function Stamps(h: seq<Entry>): (m: seq<Message>)
    ensures |m| == |h|
  {
    seq(|h|, i requires 0 <= i < |h| => Stamped(h[i]))
  }

  function Truncated(week: nat, stop: nat): seq<Message> {
    if stop != 0 && stop < week then [Stamped(Entry(stop, Status("** Scrollback has been truncated")))] else []
  }

  /** The whole answer, t being the state after everything trimmed before. */
  function Answer(t: Tracker, h: seq<Entry>, week: nat, stop: nat): seq<Message> {
    var u := Fold(t, h[..Below(h, 0, week)]);
    Truncated(week, stop) + [State(Fold(u, Folded(h, week, stop)))] + Stamps(Tail(h, week, stop))
  }

  predicate Increasing(h: seq<Entry>) {
    forall i, j :: 0 <= i < j < |h| ==> h[i].at < h[j].at
  }

  /** time(NULL) minus a week, in microseconds and 64 bits. */
  function WeekBefore(now: nat): (w: nat) {
    (now * 1000000 - 7 * 86400 * 1000000) % 0x1_0000_0000_0000_0000
  }

  lemma FoldStep(t: Tracker, h: seq<Entry>, n: nat, k: nat)
    requires n <= k < |h|
    ensures Fold(t, h[n..k + 1]) == if h[k].body.Recv? then Apply(Fold(t, h[n..k]), h[k].body.line) else Fold(t, h[n..k])
  {
    assert h[n..k + 1][..k - n] == h[n..k];
    hide Apply;
  }

  lemma BelowStep(h: seq<Entry>, n: nat, k: nat, limit: nat)
    requires n <= k <= |h| && forall i :: n <= i < k ==> h[i].at < limit
    ensures Below(h, n, limit) == Below(h, k, limit)
    decreases k - n
  {
    if n < k {
      BelowStep(h, n + 1, k, limit);
    }
  }

  /** The stamp of a new line: later than all before. */
  function Stamp(h: seq<Entry>, at: nat): (s: nat)
    ensures s >= at && (|h| > 0 ==> s > h[|h| - 1].at)
  {
    if |h| > 0 && h[|h| - 1].at + 1 > at then h[|h| - 1].at + 1 else at
  }

  lemma StampIncreasing(h: seq<Entry>, at: nat, body: Body)
    requires Increasing(h)
    ensures Increasing(h + [Entry(Stamp(h, at), body)])
  {
  }

  /** The first mark lines have stamps up to last, the others later ones. */
  predicate Splits(h: seq<Entry>, mark: nat, last: nat) {
    && mark <= |h|
    && (forall i :: 0 <= i < mark ==> h[i].at <= last)
    && (forall i :: mark <= i < |h| ==> h[i].at > last)
    && (mark == |h| > 0 ==> h[mark - 1].at == last)
  }

  lemma SplitsAppend(h: seq<Entry>, mark: nat, last: nat, at: nat, body: Body)
    requires Splits(h, mark, last)
    ensures Splits(h + [Entry(Stamp(h, at), body)], mark, last) <==> |h| > 0 || at > last
  {
    var g := h + [Entry(Stamp(h, at), body)];
    assert g[|h|].at == Stamp(h, at);
    if |h| > 0 {
      assert g[|h| - 1] == h[|h| - 1];
    }
  }

  lemma SplitsSkip(h: seq<Entry>, mark: nat, last: nat, n: nat)
    requires Splits(h, mark, last) && n <= |h|
    ensures Splits(h[n..], if mark >= n then mark - n else 0, last)
  {
  }

  lemma AnswerIs(t: Tracker, h: seq<Entry>, week: nat, stop: nat)
    ensures var n, kept := Below(h, 0, week), Kept(h, week);
      var u := Fold(t, h[..n]);
      Answer(t, h, week, stop) ==
        if n <= |kept| then Truncated(week, stop) + [State(Fold(u, kept[n..Below(kept, n, stop + 1)]))] + Stamps(kept[Below(kept, n, stop + 1)..])
        else Truncated(week, stop) + [State(u)] + Stamps([])
  {
    hide Apply, Below;
    var n, kept := Below(h, 0, week), Kept(h, week);
    if n > |kept| {
      NothingBelow(kept, stop + 1);
      assert Folded(h, week, stop) == [] && Tail(h, week, stop) == [];
    }
  }

  lemma NothingBelow(h: seq<Entry>, limit: nat)
    ensures Below(h, |h|, limit) == |h|
  {
  }

  // ----- what a client is sent before its C line -----

  /** Of the lines from since on, those that were sent to c, by their numbers. */
  function Early(since: nat, hushed: seq<seq<nat>>, c: nat): (e: seq<nat>)
    ensures forall i :: i in e <==> since <= i < |hushed| && c !in hushed[i]
  {
    if |hushed| <= since then []
    else
      var n := |hushed| - 1;
      Early(since, hushed[..n], c) + if c in hushed[n] then [] else [n]
  }

  lemma NothingEarly(n: nat, hushed: seq<seq<nat>>, c: nat)
    requires |hushed| == n
    ensures Early(n, hushed, c) == []
  {
  }

  function Pick(lines: seq<Entry>, which: seq<nat>): (p: seq<Entry>)
    requires forall i :: i in which ==> i < |lines|
    ensures |p| == |which|
  {
    seq(|which|, j requires 0 <= j < |which| => assert which[j] in which; lines[which[j]])
  }

  /** The messages are these lines; live, a line has the time it came, and not its stamp in the history. */
  predicate Carries(m: seq<Message>, lines: seq<Entry>) {
    |m| == |lines| && forall j :: 0 <= j < |m| ==> m[j].Stamped? && m[j].entry.body == lines[j].body
  }

  /** One line more. */
  lemma EarlyMore(since: nat, hushed: seq<seq<nat>>, except: seq<nat>, c: nat, lines: seq<Entry>, line: Entry, m: seq<Message>, at: nat)
    requires |hushed| == |lines| && since <= |lines| && Carries(m, Pick(lines, Early(since, hushed, c)))
    ensures Carries(if c in except then m else m + [Stamped(Entry(at, line.body))], Pick(lines + [line], Early(since, hushed + [except], c)))
  {
    hide Carries;
    var n, e := |hushed|, Early(since, hushed, c);
    EarlySnoc(since, hushed, except, c);
    hide Early;
    PickMore(lines, line, e);
    if c !in except {
      PickLast(lines, line, e);
      CarriesMore(m, Pick(lines, e), line, at);
    }
  }

  lemma EarlySnoc(since: nat, hushed: seq<seq<nat>>, except: seq<nat>, c: nat)
    requires since <= |hushed|
    ensures Early(since, hushed + [except], c) == if c in except then Early(since, hushed, c) else Early(since, hushed, c) + [|hushed|]
  {
    assert (hushed + [except])[..|hushed|] == hushed;
  }

  lemma PickMore(lines: seq<Entry>, line: Entry, e: seq<nat>)
    requires forall i :: i in e ==> i < |lines|
    ensures Pick(lines + [line], e) == Pick(lines, e)
  {
    assert forall j :: 0 <= j < |e| ==> e[j] in e;
  }

  lemma PickLast(lines: seq<Entry>, line: Entry, e: seq<nat>)
    requires forall i :: i in e ==> i < |lines|
    ensures Pick(lines + [line], e + [|lines|]) == Pick(lines, e) + [line]
  {
    assert forall j :: 0 <= j < |e| ==> e[j] in e;
  }

  lemma CarriesMore(m: seq<Message>, lines: seq<Entry>, line: Entry, at: nat)
    requires Carries(m, lines)
    ensures Carries(m + [Stamped(Entry(at, line.body))], lines + [line])
  {
  }

  ghost predicate Relays(lines: seq<Entry>, hushed: seq<seq<nat>>, clients: seq<nat>, asked: set<nat>, since: map<nat, nat>, outbox: map<nat, seq<Message>>) {
    && |hushed| == |lines|
    && forall c :: c in clients && c !in asked ==>
         c in outbox && c in since && since[c] <= |lines| && Carries(outbox[c], Pick(lines, Early(since[c], hushed, c)))
  }

  lemma RelaysMore(lines: seq<Entry>, hushed: seq<seq<nat>>, clients: seq<nat>, asked: set<nat>, since: map<nat, nat>, outbox: map<nat, seq<Message>>,
                   outbox': map<nat, seq<Message>>, line: Entry, at: nat, except: seq<nat>)
    requires Relays(lines, hushed, clients, asked, since, outbox) && outbox'.Keys == outbox.Keys
    requires forall c :: c in outbox ==>
      outbox'[c] == if c in clients && c !in except then outbox[c] + [Stamped(Entry(at, line.body))] else outbox[c]
    ensures Relays(lines + [line], hushed + [except], clients, asked, since, outbox')
  {
    forall c | c in clients && c !in asked
      ensures Carries(outbox'[c], Pick(lines + [line], Early(since[c], hushed + [except], c)))
    {
      EarlyMore(since[c], hushed, except, c, lines, line, outbox[c], at);
    }
    hide Carries, Pick, Early;
  }

  /** A new client has been sent nothing. */
  lemma RelaysNew(lines: seq<Entry>, hushed: seq<seq<nat>>, clients: seq<nat>, asked: set<nat>, since: map<nat, nat>, outbox: map<nat, seq<Message>>, id: nat)
    requires Relays(lines, hushed, clients, asked, since, outbox)
    ensures Relays(lines, hushed, clients + [id], asked - {id}, since[id := |lines|], outbox[id := []])
  {
    NothingEarly(|lines|, hushed, id);
    hide Early;
  }

  /** Nothing changes for the others when one leaves or is answered. */
  lemma RelaysFewer(lines: seq<Entry>, hushed: seq<seq<nat>>, clients: seq<nat>, asked: set<nat>, since: map<nat, nat>, outbox: map<nat, seq<Message>>,
                    clients': seq<nat>, asked': set<nat>, outbox': map<nat, seq<Message>>)
    requires Relays(lines, hushed, clients, asked, since, outbox)
    requires forall c :: c in clients' && c !in asked' ==> c in clients && c !in asked && c in outbox' && (c in outbox ==> outbox'[c] == outbox[c])
    ensures Relays(lines, hushed, clients', asked', since, outbox')
  {
    hide Carries, Pick, Early;
  }

  lemma BeginOk()
    ensures Relays([], [], [], {}, map[], map[]) && Splits([], 0, 0) && Increasing([]) && Fold(NewTracker(), []) == NewTracker()
  {
    hide Carries, Pick, Early;
  }

  lemma Snoc(past: seq<Entry>, h: seq<Entry>, line: Entry)
    ensures past + (h + [line]) == (past + h) + [line]
  {
  }

  lemma Assembled(first: seq<Message>, note: seq<Message>, state: Message, tail: seq<Message>)
    ensures ((first + note) + [state]) + tail == first + (note + [state] + tail)
  {
  }

  class BouncerServer {
    const track: TrackerState
    var history: seq<Entry>
    var lastDisconnect: nat
    // the connected clients, in the order of connecting, and what each has been sent
    var clients: seq<nat>
    var outbox: map<nat, seq<Message>>

    // everything trimmed so far, and how many lines of the history were there when a client last left
    ghost var past: seq<Entry>
    ghost var mark: nat
    // for each line ever, whom it was not sent to; how many there were when a client connected; who has sent a C line
    ghost var hushed: seq<seq<nat>>
    ghost var since: map<nat, nat>
    ghost var asked: set<nat>

    ghost predicate Valid()
      reads this
    {
      && Increasing(history)
      && (forall c :: c in clients ==> c in outbox)
      && forall i, j :: 0 <= i < j < |clients| ==> clients[i] != clients[j]
    }

    ghost function All(): seq<Entry>
      reads this`past, this`history
    {
      past + history
    }

    /** The tracker has followed the trimmed lines. */
    ghost predicate Followed()
      reads this`past, track
    {
      track.Value() == Fold(NewTracker(), past)
    }

    /** lastDisconnect separates the lines from before a client last left from those after. */
    ghost predicate Marked()
      reads this`history, this`mark, this`lastDisconnect
    {
      Splits(history, mark, lastDisconnect)
    }

    /** A client that has not sent its C line yet has been sent the lines since it connected, and nothing else. */
    ghost predicate Relayed()
      reads this
    {
      Relays(All(), hushed, clients, asked, since, outbox)
    }

    constructor ()
      ensures Valid() && Followed() && Marked() && Relayed() && asked == {} && fresh(track) && track.Value() == NewTracker()
      ensures history == [] && All() == [] && clients == [] && outbox == map[] && lastDisconnect == 0
    {
      BeginOk();
      hide Relays, Splits, Fold, Increasing;
      track := new TrackerState();
      history, lastDisconnect, clients, outbox := [], 0, [], map[];
      past, mark := [], 0;
      hushed, since, asked := [], map[], {};
      new;
      assert All() == [];
    }

    /** uiconnect_ready */
    method Accept(id: nat)
      requires Valid() && id !in clients
      modifies this`clients, this`outbox, this`since, this`asked
      ensures Valid() && clients == old(clients) + [id] && outbox == old(outbox)[id := []]
      ensures since == old(since)[id := |All()|] && asked == old(asked) - {id} && (old(Relayed()) ==> Relayed())
    {
      clients := clients + [id];
      outbox := outbox[id := []];
      since, asked := since[id := |All()|], asked - {id};
      if old(Relayed()) {
        RelaysNew(All(), hushed, old(clients), old(asked), old(since), old(outbox), id);
      }
    }

    /** sock_line with an empty line: the client has left. */
    method Leave(id: nat)
      requires Valid() && id in clients
      modifies this`clients, this`lastDisconnect, this`mark
      ensures Valid() && Marked() && mark == |history| && lastDisconnect == (if |history| > 0 then history[|history| - 1].at else 0)
      ensures exists n :: 0 <= n < |old(clients)| && old(clients)[n] == id && clients == old(clients)[..n] + old(clients)[n + 1..]
      ensures old(Relayed()) ==> Relayed()
    {
      var n := 0;
      while clients[n] != id
        invariant 0 <= n < |clients| && id !in clients[..n]
        decreases |clients| - n
      {
        n := n + 1;
      }
      clients := clients[..n] + clients[n + 1..];
      if |history| > 0 {
        lastDisconnect := history[|history| - 1].at;
      } else {
        lastDisconnect := 0;
      }
      mark := |history|;
      if old(Relayed()) {
        RelaysFewer(All(), hushed, old(clients), asked, since, outbox, clients, asked, outbox);
      }
    }

    method SendTo(id: nat, m: Message)
      requires Valid() && id in outbox
      modifies this`outbox
      ensures Valid() && outbox == old(outbox)[id := old(outbox)[id] + [m]]
    {
      outbox := outbox[id := outbox[id] + [m]];
    }

    /** What every client but those excepted has been sent, after a line that was sent at once. */
    ghost predicate Heard(before: map<nat, seq<Message>>, entry: Entry, except: seq<nat>)
      reads this`clients, this`outbox
    {
      && outbox.Keys == before.Keys
      && forall c :: c in outbox ==> outbox[c] == if c in clients && c !in except then before[c] + [Stamped(entry)] else before[c]
    }

    method Broadcast(entry: Entry, except: seq<nat>)
      requires Valid()
      modifies this`outbox
      ensures Valid() && Heard(old(outbox), entry, except)
    {
      var i := 0;
      while i < |clients|
        invariant i <= |clients| && outbox.Keys == old(outbox).Keys && Valid()
        invariant forall c :: c in outbox ==>
          outbox[c] == if c in clients[..i] && c !in except then old(outbox)[c] + [Stamped(entry)] else old(outbox)[c]
      {
        if clients[i] !in except {
          SendTo(clients[i], Stamped(entry));
        }
        i := i + 1;
      }
      assert clients[..i] == clients;
    }

    /** send_line: to all clients but one, and into the history. */
    method SendLine(body: Body, at: nat, except: seq<nat>)
      requires Valid()
      modifies this`history, this`outbox, this`hushed
      ensures Valid() && hushed == old(hushed) + [except] && (old(Relayed()) ==> Relayed())
      ensures history == old(history) + [Entry(Stamp(old(history), at), body)]
      ensures Heard(old(outbox), Entry(at, body), except)
      ensures old(Marked()) ==> (Marked() <==> |old(history)| > 0 || at > lastDisconnect)
    {
      hide Increasing, Splits, Relays;
      Broadcast(Entry(at, body), except);
      var stamp := at;
      if |history| > 0 {
        var next := history[|history| - 1].at + 1;
        if next > stamp {
          stamp := next;
        }
      }
      StampIncreasing(history, at, body);
      if Marked() {
        SplitsAppend(history, mark, lastDisconnect, at, body);
      }
      var line := Entry(stamp, body);
      history, hushed := history + [line], hushed + [except];
      Snoc(past, old(history), line);
      if old(Relayed()) {
        RelaysMore(old(All()), old(hushed), clients, asked, since, old(outbox), outbox, line, at, except);
      }
    }

    /** connect_status */
    method ConnectStatus(text: string, seconds: nat)
      requires Valid()
      modifies this`history, this`outbox, this`hushed
      ensures Valid() && hushed == old(hushed) + [[]] && (old(Relayed()) ==> Relayed())
      ensures history == old(history) + [Entry(Stamp(old(history), seconds * 1000000), Status(text))]
      ensures Heard(old(outbox), Entry(seconds * 1000000, Status(text)), [])
      ensures old(Marked()) ==> (Marked() <==> |old(history)| > 0 || seconds * 1000000 > lastDisconnect)
    {
      SendLine(Status(text), seconds * 1000000, []);
    }

    /** ircline; PONG replies are not kept. */
    method IrcLine(line: Line, pong: bool, seconds: nat)
      requires Valid()
      modifies this`history, this`outbox, this`hushed
      ensures Valid() && (old(Relayed()) ==> Relayed())
      ensures pong ==> history == old(history) && outbox == old(outbox) && hushed == old(hushed)
      ensures !pong ==> hushed == old(hushed) + [[]]
      ensures !pong ==> history == old(history) + [Entry(Stamp(old(history), seconds * 1000000), Recv(line))]
      ensures !pong ==> Heard(old(outbox), Entry(seconds * 1000000, Recv(line)), [])
      ensures old(Marked()) ==> (Marked() <==> pong || |old(history)| > 0 || seconds * 1000000 > lastDisconnect)
    {
      if pong {
        return;
      }
      SendLine(Recv(line), seconds * 1000000, []);
    }

    /** A < line from a client; the stamp is in seconds here. */
    method Say(id: nat, text: string, seconds: nat)
      requires Valid() && id in clients
      modifies this`history, this`outbox, this`hushed
      ensures Valid() && hushed == old(hushed) + [[id]] && (old(Relayed()) ==> Relayed())
      ensures history == old(history) + [Entry(Stamp(old(history), seconds), Sent(text))]
      ensures Heard(old(outbox), Entry(seconds, Sent(text)), [id])
      ensures old(Marked()) ==> (Marked() <==> |old(history)| > 0 || seconds > lastDisconnect)
    {
      SendLine(Sent(text), seconds, [id]);
    }

    /** A C line: trims the history, then answers. */
    method Configure(id: nat, now: nat)
      requires Valid() && id in clients
      modifies this`history, this`outbox, this`past, this`mark, this`asked, track
      ensures Valid() && All() == old(All()) && (old(Followed()) ==> Followed()) && (old(Marked()) ==> Marked())
      ensures asked == old(asked) + {id} && (old(Relayed()) ==> Relayed())
      ensures history == Kept(old(history), WeekBefore(now))
      ensures track.Value() == Fold(old(track.Value()), old(history)[..Below(old(history), 0, WeekBefore(now))])
      ensures outbox == old(outbox)[id := old(outbox)[id] + Answer(old(track.Value()), old(history), WeekBefore(now), lastDisconnect)]
    {
      hide Increasing, Kept, Fold, Below, Answer, WeekBefore, Relays;
      Reply(id, now);
      asked := asked + {id};
      if old(Relayed()) {
        StaysRelayed(old(All()), old(asked), old(outbox), id);
      }
    }

    method Reply(id: nat, now: nat)
      requires Valid() && id in clients
      modifies this`history, this`outbox, this`past, this`mark, track
      ensures Valid() && All() == old(All()) && (old(Followed()) ==> Followed()) && (old(Marked()) ==> Marked())
      ensures history == Kept(old(history), WeekBefore(now))
      ensures track.Value() == Fold(old(track.Value()), old(history)[..Below(old(history), 0, WeekBefore(now))])
      ensures outbox == old(outbox)[id := old(outbox)[id] + Answer(old(track.Value()), old(history), WeekBefore(now), lastDisconnect)]
    {
      hide *;
      var week := WeekBefore(now);
      InClients(id);
      var n := Trim(week);
      InClients(id);
      ghost var first := outbox[id];
      Warn(id, week, lastDisconnect);
      var state, cut := FoldUntil(n, lastDisconnect);
      Replay(id, cut, state);
      AnswerIs(old(track.Value()), old(history), week, lastDisconnect);
      Assembled(first, Truncated(week, lastDisconnect), State(state), Stamps(if cut <= |history| then history[cut..] else []));
    }

    lemma StaysRelayed(lines: seq<Entry>, before: set<nat>, outbox': map<nat, seq<Message>>, id: nat)
      requires lines == All() && asked == before + {id} && Relays(lines, hushed, clients, before, since, outbox')
      requires outbox.Keys == outbox'.Keys && forall c :: c in outbox && c != id ==> outbox[c] == outbox'[c]
      ensures Relayed()
    {
      RelaysFewer(lines, hushed, clients, before, since, outbox', clients, asked, outbox);
      hide Relays, All;
    }

    lemma InClients(id: nat)
      requires Valid()
      ensures id in clients ==> id in outbox
    {
    }

    /** The note about lines that were trimmed. */
    method Warn(id: nat, week: nat, stop: nat)
      requires Valid() && id in outbox
      modifies this`outbox
      ensures Valid() && outbox == old(outbox)[id := old(outbox)[id] + Truncated(week, stop)]
    {
      assert outbox[id] + [] == outbox[id];
      if stop != 0 && stop < week {
        SendTo(id, Stamped(Entry(stop, Status("** Scrollback has been truncated"))));
      }
    }

    /** The second loop, on a copy of the tracker. */
    method FoldUntil(start: nat, stop: nat) returns (state: Tracker, n: nat)
      ensures start <= |history| ==> n == Below(history, start, stop + 1) && state == Fold(track.Value(), history[start..n])
      ensures start > |history| ==> n == start && state == track.Value()
    {
      var local := new TrackerState.Copy(track);
      n := start;
      while n < |history| && history[n].at <= stop
        modifies local
        invariant start <= n && (n <= |history| || n == start)
        invariant local.Value() == if start <= |history| then Fold(track.Value(), history[start..n]) else track.Value()
        invariant forall i :: start <= i < n ==> history[i].at < stop + 1
      {
        FoldStep(track.Value(), history, start, n);
        if history[n].body.Recv? {
          local.IrcLine(history[n].body.line);
        }
        n := n + 1;
      }
      if start <= |history| {
        BelowStep(history, start, n, stop + 1);
      }
      state := local.Value();
    }

    /** The first loop. */
    method FoldOld(week: nat) returns (n: nat)
      modifies track
      ensures n == Below(history, 0, week) && track.Value() == Fold(old(track.Value()), history[..n])
    {
      n := 0;
      while n < |history| && history[n].at < week
        invariant n <= |history| && forall i :: 0 <= i < n ==> history[i].at < week
        invariant track.Value() == Fold(old(track.Value()), history[..n])
      {
        FoldStep(old(track.Value()), history, 0, n);
        if history[n].body.Recv? {
          track.IrcLine(history[n].body.line);
        }
        n := n + 1;
      }
      BelowStep(history, 0, n, week);
    }

    /** The first loop, and history.skip(n). */
    method Trim(week: nat) returns (n: nat)
      requires Valid()
      modifies this`history, this`past, this`mark, track
      ensures n == Below(old(history), 0, week) && history == Kept(old(history), week) && Valid()
      ensures track.Value() == Fold(old(track.Value()), old(history)[..n])
      ensures All() == old(All()) && (old(Followed()) ==> Followed()) && (old(Marked()) ==> Marked())
    {
      hide Splits, Below, Fold;
      n := FoldOld(week);
      FoldConcat(NewTracker(), past, history[..n]);
      if Marked() {
        SplitsSkip(history, mark, lastDisconnect, n);
      }
      past := past + history[..n];
      mark := if mark >= n then mark - n else 0;
      if n != 0 {
        history := history[n..];
      }
    }

    /** The S line and the third loop. */
    method Replay(id: nat, start: nat, state: Tracker)
      requires Valid() && id in outbox
      modifies this`outbox
      ensures Valid() && outbox == old(outbox)[id := old(outbox)[id] + [State(state)] + Stamps(if start <= |history| then history[start..] else [])]
    {
      var n := start;
      SendTo(id, State(state));
      ghost var first := outbox[id];
      assert first + Stamps([]) == first;
      assert start <= |history| ==> history[start..n] == [];
      while n < |history|
        invariant start <= n && (n <= |history| || n == start) && id in outbox && Valid()
        invariant outbox == old(outbox)[id := first + Stamps(if start <= |history| then history[start..n] else [])]
      {
        assert first + (Stamps(history[start..n]) + [Stamped(history[n])]) == first + Stamps(history[start..n]) + [Stamped(history[n])];
        SendTo(id, Stamped(history[n]));
        assert history[start..n + 1] == history[start..n] + [history[n]];
        assert Stamps(history[start..n + 1]) == Stamps(history[start..n]) + [Stamped(history[n])];
        n := n + 1;
      }
      assert start <= |history| ==> history[start..n] == history[start..];
    }
  }

  lemma FoldConcat(t: Tracker, a: seq<Entry>, b: seq<Entry>)
    ensures Fold(t, a + b) == Fold(Fold(t, a), b)
  {
    if |b| == 0 {
      assert a + b == a;
    } else {
      assert (a + b)[..|a + b| - 1] == a + b[..|b| - 1];
      FoldConcat(t, a, b[..|b| - 1]);
      hide Apply;
    }
  }
}
