/** The one moment at which HttpModel does not let a request be dropped: it has been handed a mutex and has not
    run since. What co_mutex of arlib/runloop2.h does then. */
module HttpHandover {
  import opened Wrappers
  import opened HttpModel
  import opened HttpPipeline
  import opened HttpBase
  import opened HttpRuns

  /** unlock has scheduled the request, which has not run yet. */
  predicate Handed(w: World, r: nat) {
    r < |w.tasks| &&
    match w.tasks[r].pc
    case WaitMut1 => Head(w.mut1, r)
    case WaitMut2 => Head(w.mut2, r)
    case WaitTurn(_, _, _, _) => Head(w.mut2, r)
    case _ => false
  }

  /** Destroying it takes it off the list of those who wait, and releases the mutex it held before; but the one
      it was handed stays locked, and nobody has the lock. The handle in the run loop is taken to do nothing. */
  function Orphan(w: World, r: nat): World
    requires Handed(w, r)
  {
    SetPc(w, r, Cancelled).(mut1 := if w.tasks[r].pc.WaitMut1? then w.mut1 else Remove(w.mut1, r))
  }

  /** Everything else that can be dropped, can be dropped in the model. */
  lemma OnlyHandedExcluded(w: World, r: nat)
    requires r < |w.tasks| && !Done(w.tasks[r].pc)
    ensures Droppable(w, r) <==> !Handed(w, r)
  {
  }

  predicate Lost(w: World, q: seq<nat>) {
    |q| > 0 && q[0] < |w.tasks| && w.tasks[q[0]].pc.Cancelled?
  }

  /** The request waits for a mutex that nobody will release, or is going to. */
  predicate Stuck(w: World, x: nat) {
    x < |w.tasks| &&
    match w.tasks[x].pc
    case Cancelled => true
    case WaitMut1 => Lost(w, w.mut1) || Lost(w, w.mut2)
    case WaitMut2 => Lost(w, w.mut2)
    case WaitTurn(_, _, _, _) => Lost(w, w.mut2)
    case _ => false
  }

  lemma StepLost1(w: World, e: Event)
    requires Enabled(w, e) && Lost(w, w.mut1)
    ensures Lost(Step(w, e), Step(w, e).mut1)
  {
  }

  lemma StepLost2(w: World, e: Event)
    requires Enabled(w, e) && Lost(w, w.mut2)
    ensures Lost(Step(w, e), Step(w, e).mut2)
  {
  }

  lemma StepLost(w: World, e: Event)
    requires Enabled(w, e)
    ensures Lost(w, w.mut1) ==> Lost(Step(w, e), Step(w, e).mut1)
    ensures Lost(w, w.mut2) ==> Lost(Step(w, e), Step(w, e).mut2)
  {
    hide *;
    if Lost(w, w.mut1) {
      StepLost1(w, e);
    }
    if Lost(w, w.mut2) {
      StepLost2(w, e);
    }
  }

  lemma OwnStep(w: World, e: Event)
    requires Enabled(w, e) && !e.Start? && Stuck(w, e.r)
    ensures Stuck(Step(w, e), e.r)
  {
    StepLost(w, e);
    hide Remove;
  }

  lemma StepStuck(w: World, e: Event, x: nat)
    requires Enabled(w, e) && Stuck(w, x)
    ensures Stuck(Step(w, e), x)
  {
    if e.Start? || e.r != x {
      KeepsTasks(w, e);
      OtherTask(w, e, x);
      StepLost(w, e);
      hide Lost, Step, Enabled;
    } else {
      OwnStep(w, e);
    }
  }

  /** The states of a run from w. */
  ghost predicate Continues(w: World, ws: seq<World>, es: seq<Event>) {
    && |ws| == |es| + 1 && ws[0] == w
    && forall i :: 0 <= i < |es| ==> Enabled(ws[i], es[i]) && ws[i + 1] == Step(ws[i], es[i])
  }

  /** After it, whoever waits behind it, and every request that is started from then on, never gets a response or
      an error: each waits forever or is cancelled. */
  lemma {:induction false} NeverFinished(w: World, r: nat, ws: seq<World>, es: seq<Event>, i: nat, x: nat)
    requires Handed(w, r) && Continues(Orphan(w, r), ws, es) && i < |ws| && x < |ws[i].tasks|
    requires x >= |w.tasks| || Stuck(Orphan(w, r), x)
    ensures Stuck(ws[i], x) && !ws[i].tasks[x].pc.Finished?
    ensures Lost(ws[i], ws[i].mut1) || Lost(ws[i], ws[i].mut2)
  {
    hide Enabled, Step, Orphan, Handed, Lost;
    if i == 0 {
      OrphanLost(w, r);
    } else {
      var v, e := ws[i - 1], es[i - 1];
      if x < |v.tasks| {
        NeverFinished(w, r, ws, es, i - 1, x);
        StepStuck(v, e, x);
      } else {
        StillLost(w, r, ws, es, i - 1);
        NewTask(v, e, x);
      }
      StillLost(w, r, ws, es, i);
    }
  }

  lemma OrphanLost(w: World, r: nat)
    requires Handed(w, r)
    ensures var v := Orphan(w, r); (Lost(v, v.mut1) || Lost(v, v.mut2)) && |v.tasks| == |w.tasks|
  {
    hide Remove;
  }

  lemma {:induction false} StillLost(w: World, r: nat, ws: seq<World>, es: seq<Event>, i: nat)
    requires Handed(w, r) && Continues(Orphan(w, r), ws, es) && i < |ws|
    ensures Lost(ws[i], ws[i].mut1) || Lost(ws[i], ws[i].mut2)
  {
    hide Enabled, Step, Orphan, Handed, Lost;
    if i == 0 {
      OrphanLost(w, r);
    } else {
      StillLost(w, r, ws, es, i - 1);
      StepLost(ws[i - 1], es[i - 1]);
    }
  }

  lemma KeepsTasks(w: World, e: Event)
    requires Enabled(w, e)
    ensures |w.tasks| <= |Step(w, e).tasks|
  {
    hide Remove;
  }

  lemma NewIsStart(w: World, e: Event, x: nat)
    requires Enabled(w, e) && |w.tasks| <= x < |Step(w, e).tasks|
    ensures e.Start?
  {
    hide Remove;
  }

  lemma NewTask(v: World, e: Event, x: nat)
    requires Enabled(v, e) && |v.tasks| <= x < |Step(v, e).tasks| && (Lost(v, v.mut1) || Lost(v, v.mut2))
    ensures Stuck(Step(v, e), x)
  {
    StepLost(v, e);
    NewIsStart(v, e, x);
    OtherTask(v, e, x);
    hide Lost, Step;
  }

  /** So the exclusion is exactly what keeps requests going: at any moment of any run, an unfinished request can
      be dropped with no harm to the others if it has not been handed a mutex, and otherwise no request started
      afterwards ever finishes. */
  lemma HandoverExact(ws: seq<World>, es: seq<Event>, i: nat, r: nat)
    requires Run(ws, es) && i < |ws| && r < |ws[i].tasks| && !Done(ws[i].tasks[r].pc)
    ensures !Handed(ws[i], r) ==> Enabled(ws[i], Cancel(r)) && Base(Step(ws[i], Cancel(r)))
    ensures Handed(ws[i], r) ==> forall us: seq<World>, fs: seq<Event>, k: nat, x: nat ::
      Continues(Orphan(ws[i], r), us, fs) && k < |us| && |ws[i].tasks| <= x < |us[k].tasks| ==> !us[k].tasks[x].pc.Finished?
  {
    Reachable(ws, es, i);
    OnlyHandedExcluded(ws[i], r);
    if !Handed(ws[i], r) {
      ReadsSocket(ws[i], r);
      hide Base, Run, Step, Handed;
      StepBase(ws[i], Cancel(r));
    } else {
      hide Base, Run, Step, Handed, Orphan;
      forall us: seq<World>, fs: seq<Event>, k: nat, x: nat | Continues(Orphan(ws[i], r), us, fs) && k < |us| && |ws[i].tasks| <= x < |us[k].tasks|
        ensures !us[k].tasks[x].pc.Finished?
      {
        NeverFinished(ws[i], r, us, fs, k, x);
      }
    }
  }

  lemma ReadsSocket(w: World, r: nat)
    requires Base(w) && r < |w.tasks|
    ensures w.tasks[r].pc.Reading? ==> w.sock.Some?
  {
    hide Links, Tallies, Fresh, Distinct;
    assert Placed(w.tasks[r].pc) ==> Spot(w, r);
  }
}
