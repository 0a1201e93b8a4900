/** What carries over a crash in disciplined runs: which ids can come back, and that recorded
    deliveries are not repeated. */
module StoreReopen {
  import opened Options
  import opened Topic
  import opened MemModel
  import opened StoreModel
  import opened StoreRuns
  import opened StoreHistory

  // ---------------------------------------------------------------- ids that come back

  function Issues(n: nat): seq<Step> {
    if n == 0 then [] else Issues(n - 1) + [Issue]
  }

  lemma OneIssue(env: Env, w: World)
    requires w.counter + 1 < WORD
    ensures Do(env, w, Issue).counter == w.counter + 1
  {}

  lemma {:induction false} IssuesRun(env: Env, w: World, n: nat)
    requires w.counter + n < WORD
    ensures Run(env, w, Issues(n)) && Exec(env, w, Issues(n)).counter == w.counter + n
  {
    if n > 0 {
      IssuesRun(env, w, n - 1);
      OneMore(env, w, Issues(n - 1), Issue);
      OneIssue(env, Exec(env, w, Issues(n - 1)));
    }
  }

  /** After `n` further issues the node issues an id it had issued in its previous life. */
  ghost predicate ComesBack(env: Env, before: World, w: World, n: nat) {
    && w.counter + n < LOW
    && Run(env, w, Issues(n))
    && NextId(env.node, Exec(env, w, Issues(n)).counter) in before.issued
  }

  /** The node has issued ids, and the last of them has no row on disk. */
  ghost predicate LastIdUnwritten(env: Env, w: World) {
    w.issued != {} && w.counter > 0 && NextId(env.node, w.counter - 1) !in w.disk
  }

  lemma StartAgainstLast(env: Env, last: World, start: nat)
    requires env.node < MAX_NODE && Numbered(env, last) && IsStart(start, last.disk, env.node)
    ensures start <= last.counter
    ensures last.counter > 0 ==> (start < last.counter <==> NextId(env.node, last.counter - 1) !in last.disk)
  {
    if start > 0 {
      var id :| id in last.disk && NodeOf(id) == env.node && LowPart(id) + 1 == start;
      assert id in Known(last);
      IdFromParts(id, env.node);
    }
    if last.counter > 0 { IdParts(env.node, last.counter - 1); }
  }

  lemma NoneComesBack(env: Env, last: World, next: World, n: nat)
    requires env.node < MAX_NODE && Numbered(env, last) && IsStart(next.counter, last.disk, env.node)
    requires ComesBack(env, last, next, n)
    ensures LastIdUnwritten(env, last)
  {
    IssuesRun(env, next, n);
    IdParts(env.node, next.counter + n);
    StartAgainstLast(env, last, next.counter);
  }

  lemma LastComesBack(env: Env, last: World, next: World) returns (n: nat)
    requires env.node < MAX_NODE && Numbered(env, last) && IsStart(next.counter, last.disk, env.node)
    requires LastIdUnwritten(env, last)
    ensures ComesBack(env, last, next, n)
  {
    StartAgainstLast(env, last, next.counter);
    var id :| id in last.issued;
    n := last.counter - 1 - next.counter;
    IssuesRun(env, next, n);
  }

  /** After a crash, ids of the life before can be issued again if and only if there were any and
      the last one issued has no row on disk: the counter then restarts below it. */
  lemma PreviousIdsComeBackIff(env: Env, w: World, steps: seq<Step>, now: int, loaded: Mem, start: nat)
    requires env.node < MAX_NODE && Initial(env, w) && DisciplinedRun(env, w, steps)
    requires Enabled(env, Exec(env, w, steps), Reopen(now, loaded, start))
    ensures var last := Exec(env, w, steps);
      (exists n :: ComesBack(env, last, Started(last.disk, now, loaded, start), n)) <==> LastIdUnwritten(env, last)
  {
    var last := Exec(env, w, steps);
    var next := Started(last.disk, now, loaded, start);
    RunIds(env, w, steps);
    if LastIdUnwritten(env, last) {
      var n := LastComesBack(env, last, next);
    } else {
      forall n ensures !ComesBack(env, last, next, n) {
        if ComesBack(env, last, next, n) { NoneComesBack(env, last, next, n); }
      }
    }
  }

  /** For instance, on an empty disk: an id is issued, the store reopens, and issues it again. */
  lemma IdComesBack(env: Env) returns (w: World, init: seq<Step>, steps: seq<Step>)
    ensures Initial(env, w) && w.disk == map[] && DisciplinedRun(env, w, init) && DisciplinedRun(env, w, steps)
    ensures init == [Issue] && steps == init + [Reopen(0, EMPTY, 0)] + [Issue]
    ensures Exec(env, w, init).issued == Exec(env, w, steps).issued == {NextId(env.node, 0)}
  {
    w := Started(map[], 0, EMPTY, 0);
    OneMoreDisciplined(env, w, [], Issue);
    init := [] + [Issue];
    OneMoreDisciplined(env, w, init, Reopen(0, EMPTY, 0));
    OneMoreDisciplined(env, w, init + [Reopen(0, EMPTY, 0)], Issue);
    steps := init + [Reopen(0, EMPTY, 0)] + [Issue];
  }

  // ---------------------------------------------------------------- deliveries

  predicate NoReopen(steps: seq<Step>) {
    forall i :: 0 <= i < |steps| ==> !steps[i].Reopen?
  }

  /** Since the open `r`, nothing has come up but what was loaded then and what was issued. */
  ghost predicate SameLife(r: World, w: World) {
    && w.first == r.first
    && Elems(w.arrivals) <= r.mem.msgs.Keys + w.issued
  }

  /** A recorded delivery of a message found at the open is neither lost nor repeated. */
  ghost predicate Kept(w: World, id: Id, c: Text) {
    && (id, c) !in w.handed
    && (id in w.mem.msgs ==> c in w.mem.msgs[id].deliveredTo)
    && id !in w.tokens && id !in ChanIds(w.chan)
  }

  lemma StepSameLife(env: Env, r: World, w: World, s: Step)
    requires env.node < MAX_NODE && SameLife(r, w) && Numbered(env, w) && Enabled(env, w, s) && !s.Reopen?
    ensures SameLife(r, Do(env, w, s))
  {
    if s.Receive? {
      assert w.chan[0] in w.chan && w.chan[0].0 in ChanIds(w.chan);
    }
  }

  lemma StepKept(env: Env, w: World, s: Step, id: Id, c: Text)
    requires Kept(w, id, c) && Enabled(env, w, s) && Disciplined(w, s) && !s.Reopen?
    requires s.Issue? ==> id != NextId(env.node, w.counter)
    ensures Kept(Do(env, w, s), id, c)
  {
    match s
    case Store(_, _, _, _, _) => Enqueue(w.chan, Do(env, w, s).chan[|w.chan|]);
    case Receive(now) =>
      assert w.chan[0] in w.chan;
      assert forall e :: e in w.chan[1..] ==> e in w.chan;
      EvictShape(Insert(w.mem, w.chan[0].0, w.chan[0].1), env.caps, now);
    case Get(client, filter, now) => EvictShape(w.mem, env.caps, now);
    case Drain(now) => EvictShape(w.mem, env.caps, now);
    case _ =>
  }

  lemma {:induction false} LifeKeeps(env: Env, r: World, steps: seq<Step>, id: Id, c: Text)
    requires env.node < MAX_NODE && Initial(env, r) && DisciplinedRun(env, r, steps) && NoReopen(steps)
    requires id in r.mem.msgs ==> c in r.mem.msgs[id].deliveredTo
    ensures SameLife(r, Exec(env, r, steps))
    ensures id in r.disk ==> Kept(Exec(env, r, steps), id, c)
  {
    RunIds(env, r, steps);
    if steps == [] {
      assert Elems(r.arrivals) == r.mem.msgs.Keys;
    } else {
      var init, s := steps[..|steps| - 1], steps[|steps| - 1];
      var w := Exec(env, r, init);
      assert !s.Reopen?;
      assert forall i :: 0 <= i < |init| ==> init[i] == steps[i];
      LifeKeeps(env, r, init, id, c);
      RunIds(env, r, init);
      StepSameLife(env, r, w, s);
      if id in r.disk {
        if s.Issue? { IdParts(env.node, w.counter); }
        StepKept(env, w, s, id, c);
      }
    }
  }

  /** A delivery made before the last committed drain is not made again after a crash: the same
      id goes to the same client only if the new life issued that id afresh, for another message,
      no row of it being left on disk. */
  lemma RecordedDeliveriesLast(env: Env, w: World, steps: seq<Step>, now: int, loaded: Mem, start: nat,
      steps2: seq<Step>, id: Id, c: Text)
    requires env.node < MAX_NODE && Initial(env, w) && DisciplinedRun(env, w, steps) && Reliable(env, w, steps)
    requires Enabled(env, Exec(env, w, steps), Reopen(now, loaded, start))
    requires (id, c) in Exec(env, w, steps).snap.handed
    requires DisciplinedRun(env, Do(env, Exec(env, w, steps), Reopen(now, loaded, start)), steps2) && NoReopen(steps2)
    ensures var last := Exec(env, w, steps);
      var e := Exec(env, Do(env, last, Reopen(now, loaded, start)), steps2);
      (id, c) in e.handed ==> id in e.issued && id !in last.disk
  {
    var last := Exec(env, w, steps);
    var r := Do(env, last, Reopen(now, loaded, start));
    var e := Exec(env, r, steps2);
    RunDelivered(env, w, steps);
    CrashRecovery(env, w, steps, now, loaded, start);
    assert id in loaded.msgs ==> c in loaded.msgs[id].deliveredTo;
    LifeKeeps(env, r, steps2, id, c);
    RunDelivered(env, r, steps2);
    if (id, c) in e.handed {
      assert id in Elems(e.arrivals);
      assert id in r.mem.msgs ==> id in r.disk;
    }
  }
}
