/** What `get` returns over whole disciplined runs, in terms of the stores and gets of the run
    alone: content and expiry survive the channel, memory, the disk and crashes, and a client is
    answered exactly when it has not had the message. */
module StoreAnswers {
  import opened Options
  import opened Topic
  import opened MemModel
  import opened StoreModel
  import opened StoreRuns
  import opened StoreHistory

  // ---------------------------------------------------------------- where content comes from

  /** Sender, publish and expiry time the run gave `id`: by its latest store, or by the row it had
      on disk before. The expiry time is the time of the store plus its interval, at most 2^63 - 1. */
  function Origin(w: World, steps: seq<Step>, id: Id): Option<StoredMsg> {
    if steps == [] then
      if id in w.disk && w.disk[id].Stored? then Some(w.disk[id].msg) else None
    else
      var init, s := steps[..|steps| - 1], steps[|steps| - 1];
      if s.Store? && s.id == id then
        Some(StoredMsg(s.from, s.publish,
                       if s.now + s.interval <= 0x7FFF_FFFF_FFFF_FFFF then s.now + s.interval
                       else 0x7FFF_FFFF_FFFF_FFFF, {}))
      else Origin(w, init, id)
  }

  function Origins(w: World, steps: seq<Step>): Id -> Option<StoredMsg> {
    (id: Id) => Origin(w, steps, id)
  }

  predicate SameContent(m: StoredMsg, o: Option<StoredMsg>) {
    o.Some? && m.from == o.value.from && m.publish == o.value.publish && m.expiryAt == o.value.expiryAt
  }

  ghost predicate AllTraced(msgs: map<Id, StoredMsg>, o: Id -> Option<StoredMsg>) {
    forall id :: id in msgs ==> SameContent(msgs[id], o(id))
  }

  /** Everything in the world has the content `o` says. */
  ghost predicate Traced(w: World, o: Id -> Option<StoredMsg>) {
    && AllTraced(w.mem.msgs, o) && AllTraced(w.found, o)
    && (forall e :: e in w.chan ==> SameContent(e.1, o(e.0)))
    && (forall id :: id in w.disk && w.disk[id].Stored? ==> SameContent(w.disk[id].msg, o(id)))
    && (w.inflight.Some? ==> AllTraced(w.inflight.value.puts, o))
  }

  ghost function Rows(w: World): set<Id> {
    w.disk.Keys + if w.inflight.Some? then w.inflight.value.puts.Keys else {}
  }

  /** Ids still to be stored or received are on no row, and were not loaded. */
  ghost predicate Unwritten(w: World) {
    && Rows(w) !! w.tokens + ChanIds(w.chan)
    && w.found.Keys <= Elems(w.arrivals)
  }

  lemma EvictTraced(m: Mem, caps: Caps, now: int, o: Id -> Option<StoredMsg>)
    requires AllTraced(m.msgs, o)
    ensures AllTraced(Evict(m, caps, now).msgs, o)
  {
    EvictShape(m, caps, now);
  }

  lemma StoreTraced(w: World, o: Id -> Option<StoredMsg>, p: Id -> Option<StoredMsg>, s: Step)
    requires s.Store? && s.id in w.tokens && Traced(w, o) && Unwritten(w) && Apart(w)
    requires forall k :: k != s.id ==> p(k) == o(k)
    requires SameContent(StoredMsg(s.from, s.publish, ExpiryAt(s.now, s.interval), {}), p(s.id))
    ensures Traced(DoStore(w, s.id, s.from, s.publish, s.interval, s.now), p)
  {
    var n := DoStore(w, s.id, s.from, s.publish, s.interval, s.now);
    assert s.id !in Elems(w.arrivals) && s.id !in ChanIds(w.chan) && s.id !in Rows(w);
    forall e | e in n.chan ensures SameContent(e.1, p(e.0)) {
      if e in w.chan { assert e.0 in ChanIds(w.chan); }
    }
  }

  lemma ReceiveTraced(env: Env, w: World, o: Id -> Option<StoredMsg>, now: int)
    requires Traced(w, o) && w.chan != []
    ensures Traced(DoReceive(env, w, now), o)
  {
    var (k, msg) := w.chan[0];
    assert w.chan[0] in w.chan;
    EvictTraced(Insert(w.mem, k, msg), env.caps, now, o);
    var rest := w.chan[1..];
    forall e | e in rest ensures e in w.chan {}
  }

  lemma DrainTraced(env: Env, w: World, o: Id -> Option<StoredMsg>, now: int)
    requires Traced(w, o) && w.inflight.None?
    ensures Traced(DoDrain(env, w, now), o)
  {
    EvictTraced(w.mem, env.caps, now, o);
  }

  lemma GetTraced(env: Env, w: World, o: Id -> Option<StoredMsg>, client: Text, filter: Text, now: int)
    requires Traced(w, o)
    ensures Traced(DoGet(env, w, client, filter, now), o)
  {
    EvictTraced(w.mem, env.caps, now, o);
  }

  lemma StepTraced(env: Env, w: World, s: Step, o: Id -> Option<StoredMsg>)
    requires Traced(w, o) && Enabled(env, w, s) && !s.Store?
    ensures Traced(Do(env, w, s), o)
  {
    match s
    case Issue =>
    case Receive(now) => ReceiveTraced(env, w, o, now);
    case Get(client, filter, now) => GetTraced(env, w, o, client, filter, now);
    case Drain(now) => DrainTraced(env, w, o, now);
    case Commit => assert DoCommit(w).disk == ApplyBatch(w.disk, w.inflight.value);
    case CommitFails =>
    case Reopen(now, loaded, start) => assert loaded.msgs == Live(w.disk, now);
  }

  lemma StepUnwritten(env: Env, w: World, s: Step)
    requires env.node < MAX_NODE && Numbered(env, w) && Apart(w) && Unwritten(w)
    requires Enabled(env, w, s) && Disciplined(w, s)
    ensures Unwritten(Do(env, w, s))
  {
    match s
    case Issue =>
      NextIdIsNew(env, w);
      assert Rows(w) <= Known(w);
    case Store(id, from, publish, interval, now) =>
      Enqueue(w.chan, DoStore(w, id, from, publish, interval, now).chan[|w.chan|]);
    case Receive(now) =>
      Dequeue(w.chan);
      assert Elems(w.arrivals) <= Elems(DoReceive(env, w, now).arrivals);
    case Drain(now) =>
      EvictShape(w.mem, env.caps, now);
      assert DrainBatch(Evict(w.mem, env.caps, now)).puts.Keys <= w.mem.msgs.Keys;
    case Commit => assert DoCommit(w).disk.Keys <= Rows(w);
    case Reopen(now, loaded, start) => assert loaded.msgs.Keys == Elems(loaded.order);
    case _ =>
  }

  lemma OriginOneMore(w: World, init: seq<Step>, s: Step, id: Id)
    ensures !(s.Store? && s.id == id) ==> Origin(w, init + [s], id) == Origin(w, init, id)
    ensures s.Store? && s.id == id ==>
      SameContent(StoredMsg(s.from, s.publish, ExpiryAt(s.now, s.interval), {}), Origin(w, init + [s], id))
  {
    assert (init + [s])[..|init + [s]| - 1] == init;
  }

  lemma Retraced(w: World, o: Id -> Option<StoredMsg>, p: Id -> Option<StoredMsg>)
    requires Traced(w, o) && forall id :: p(id) == o(id)
    ensures Traced(w, p)
  {}

  lemma OneMoreTraced(env: Env, w: World, init: seq<Step>, e: World, s: Step, steps: seq<Step>)
    requires steps == init + [s]
    requires Traced(e, Origins(w, init)) && Unwritten(e) && Apart(e) && Enabled(env, e, s) && Disciplined(e, s)
    ensures Traced(Do(env, e, s), Origins(w, steps))
  {
    var o, p := Origins(w, init), Origins(w, steps);
    forall id ensures !(s.Store? && s.id == id) ==> p(id) == o(id) { OriginOneMore(w, init, s, id); }
    if s.Store? {
      OriginOneMore(w, init, s, s.id);
      StoreTraced(e, o, p, s);
    } else {
      StepTraced(env, e, s, o);
      Retraced(Do(env, e, s), o, p);
    }
  }

  /** Every message in memory, in the channel and on disk has the sender, publish and expiry time
      of the latest store of its id in the run, or else of the row it had when the run began. */
  lemma {:induction false} ContentSurvives(env: Env, w: World, steps: seq<Step>)
    requires env.node < MAX_NODE && Initial(env, w) && DisciplinedRun(env, w, steps)
    ensures Traced(Exec(env, w, steps), Origins(w, steps)) && Unwritten(Exec(env, w, steps))
  {
    if steps == [] {
      StartTraced(env, w);
    } else {
      var init, s := steps[..|steps| - 1], steps[|steps| - 1];
      var e := Exec(env, w, init);
      ContentSurvives(env, w, init);
      RunIds(env, w, init);
      StepUnwritten(env, e, s);
      assert steps == init + [s];
      OneMoreTraced(env, w, init, e, s, steps);
    }
  }

  lemma StartTraced(env: Env, w: World)
    requires Initial(env, w)
    ensures Traced(w, Origins(w, [])) && Unwritten(w)
  {
    assert w.mem.msgs == Live(w.disk, w.clock) && w.mem.msgs.Keys == Elems(w.arrivals);
  }

  // ---------------------------------------------------------------- who has had it

  /** A message in memory names exactly the clients it has been handed to since the open, and those
      it was loaded with; one in the channel names nobody. */
  ghost predicate Recorded(w: World) {
    && (forall id, c :: id in w.mem.msgs ==>
          (c in w.mem.msgs[id].deliveredTo
           <==> (id, c) in w.handed || (id in w.found && c in w.found[id].deliveredTo)))
    && (forall e :: e in w.chan ==> e.1.deliveredTo == {})
  }

  lemma EvictRecorded(w: World, m: Mem, caps: Caps, now: int)
    requires Recorded(w.(mem := m))
    ensures Recorded(w.(mem := Evict(m, caps, now)))
  {
    EvictShape(m, caps, now);
  }

  lemma ReceiveRecorded(env: Env, w: World, now: int)
    requires Recorded(w) && Apart(w) && Unwritten(w) && DeliveredOnce(w) && w.chan != []
    ensures Recorded(DoReceive(env, w, now))
  {
    var (k, msg) := w.chan[0];
    var m := Insert(w.mem, k, msg);
    ReceivedIsNew(w);
    assert w.chan[0] in w.chan && k !in w.found && k !in Elems(w.arrivals);
    forall c ensures (k, c) !in w.handed {}
    EvictRecorded(w, m, env.caps, now);
    var rest := w.chan[1..];
    forall e | e in rest ensures e in w.chan {}
  }

  lemma GetRecorded(env: Env, w: World, client: Text, filter: Text, now: int)
    requires Recorded(w)
    ensures Recorded(DoGet(env, w, client, filter, now))
  {
    var m := Evict(w.mem, env.caps, now);
    var n, hits := DoGet(env, w, client, filter, now), Hits(m, client, filter, now);
    EvictRecorded(w, w.mem, env.caps, now);
    forall id, c | id in n.mem.msgs
      ensures c in n.mem.msgs[id].deliveredTo
        <==> (id, c) in n.handed || (id in n.found && c in n.found[id].deliveredTo)
    {
      assert (id, c) in n.handed <==> (id, c) in w.handed || (id in hits && c == client);
    }
  }

  lemma StepRecorded(env: Env, w: World, s: Step)
    requires Recorded(w) && Apart(w) && Unwritten(w) && DeliveredOnce(w) && Enabled(env, w, s)
    ensures Recorded(Do(env, w, s))
  {
    match s
    case Receive(now) => ReceiveRecorded(env, w, now);
    case Get(client, filter, now) => GetRecorded(env, w, client, filter, now);
    case Drain(now) => EvictRecorded(w, w.mem, env.caps, now);
    case _ =>
  }

  lemma {:induction false} RunRecorded(env: Env, w: World, steps: seq<Step>)
    requires env.node < MAX_NODE && Initial(env, w) && DisciplinedRun(env, w, steps)
    ensures Recorded(Exec(env, w, steps))
  {
    if steps != [] {
      var init := steps[..|steps| - 1];
      RunRecorded(env, w, init);
      RunIds(env, w, init);
      ContentSurvives(env, w, init);
      RunDelivered(env, w, init);
      StepRecorded(env, Exec(env, w, init), steps[|steps| - 1]);
    }
  }

  // ---------------------------------------------------------------- what get returns

  lemma AnswerMeans(env: Env, w: World, client: Text, filter: Text, now: int, id: Id, from: Text, publish: Publish)
    ensures var m := Evict(w.mem, env.caps, now);
      (id, from, publish) in Answer(env, w, client, filter, now) <==>
        && id in m.msgs && from == m.msgs[id].from && publish == m.msgs[id].publish
        && Matches(publish.topic, filter) && now < m.msgs[id].expiryAt && client !in m.msgs[id].deliveredTo
  {
    var m := Evict(w.mem, env.caps, now);
    assert id in Hits(m, client, filter, now) ==>
      (id, m.msgs[id].from, m.msgs[id].publish) in Answer(env, w, client, filter, now);
  }

  /** At any moment of any disciplined run, `get` hands a client exactly the messages still in
      memory after the eviction, with the sender and publish they were stored with, that match,
      have not expired, and that the client has not had: neither since the open nor, by the record
      it was loaded with, before. */
  lemma AnswerIff(env: Env, w: World, steps: seq<Step>, client: Text, filter: Text, now: int,
      id: Id, from: Text, publish: Publish)
    requires env.node < MAX_NODE && Initial(env, w) && DisciplinedRun(env, w, steps)
    ensures var last := Exec(env, w, steps);
      (id, from, publish) in Answer(env, last, client, filter, now) <==>
        && id in Evict(last.mem, env.caps, now).msgs
        && Origin(w, steps, id).Some?
        && var o := Origin(w, steps, id).value;
        && from == o.from && publish == o.publish
        && Matches(publish.topic, filter) && now < o.expiryAt
        && (id, client) !in last.handed
        && (id in last.found ==> client !in last.found[id].deliveredTo)
  {
    var last := Exec(env, w, steps);
    ContentSurvives(env, w, steps);
    RunRecorded(env, w, steps);
    EvictShape(last.mem, env.caps, now);
    AnswerMeans(env, last, client, filter, now, id, from, publish);
    if id in Evict(last.mem, env.caps, now).msgs {
      assert SameContent(last.mem.msgs[id], Origins(w, steps)(id));
    }
  }

  /** Step `i` of the run stored `id`, and the store has not reopened since. */
  ghost predicate StoredAt(steps: seq<Step>, i: nat, id: Id, from: Text, publish: Publish, interval: nat, t: int) {
    && i < |steps| && steps[i] == Store(id, from, publish, interval, t)
    && forall k :: i < k < |steps| ==> !steps[k].Reopen?
  }

  /** The message stored by sender `from` at time `t`, to be kept for `interval`. */
  ghost predicate Gives(o: Option<StoredMsg>, from: Text, publish: Publish, interval: nat, t: int) {
    && o.Some? && o.value.from == from && o.value.publish == publish
    && o.value.expiryAt == if t + interval <= 0x7FFF_FFFF_FFFF_FFFF then t + interval else 0x7FFF_FFFF_FFFF_FFFF
  }

  /** An id issued and stored in this life, not loaded. */
  ghost predicate UsedUp(w: World, id: Id) {
    id !in w.tokens && id in w.issued && id !in w.found
  }

  lemma StoreUsesUp(w: World, s: Step)
    requires s.Store? && s.id in w.tokens && w.tokens <= w.issued && Apart(w) && Unwritten(w)
    ensures UsedUp(DoStore(w, s.id, s.from, s.publish, s.interval, s.now), s.id)
  {
    assert s.id !in Elems(w.arrivals);
  }

  lemma StaysUsedUp(env: Env, w: World, s: Step, id: Id)
    requires env.node < MAX_NODE && Numbered(env, w) && UsedUp(w, id)
    requires Enabled(env, w, s) && Disciplined(w, s) && !s.Reopen?
    ensures UsedUp(Do(env, w, s), id) && !(s.Store? && s.id == id)
  {
    if s.Issue? { NextIdIsNew(env, w); }
  }

  lemma StoredBefore(steps: seq<Step>, i: nat, id: Id, from: Text, publish: Publish, interval: nat, t: int)
    requires StoredAt(steps, i, id, from, publish, interval, t) && i < |steps| - 1
    ensures StoredAt(steps[..|steps| - 1], i, id, from, publish, interval, t) && !steps[|steps| - 1].Reopen?
  {
    var init := steps[..|steps| - 1];
    assert forall k :: 0 <= k < |init| ==> init[k] == steps[k];
  }

  lemma {:induction false} StoredIsUsedUp(env: Env, w: World, steps: seq<Step>, i: nat, id: Id, from: Text,
      publish: Publish, interval: nat, t: int)
    requires env.node < MAX_NODE && Initial(env, w) && DisciplinedRun(env, w, steps)
    requires StoredAt(steps, i, id, from, publish, interval, t)
    ensures UsedUp(Exec(env, w, steps), id)
  {
    var init, s := steps[..|steps| - 1], steps[|steps| - 1];
    var e := Exec(env, w, init);
    RunIds(env, w, init);
    if i == |steps| - 1 {
      ContentSurvives(env, w, init);
      StoreUsesUp(e, s);
    } else {
      StoredBefore(steps, i, id, from, publish, interval, t);
      StoredIsUsedUp(env, w, init, i, id, from, publish, interval, t);
      StaysUsedUp(env, e, s, id);
    }
  }

  /** The store is the latest of its id. */
  lemma {:induction false} StoredOnce(env: Env, w: World, steps: seq<Step>, i: nat, id: Id, from: Text,
      publish: Publish, interval: nat, t: int)
    requires env.node < MAX_NODE && Initial(env, w) && DisciplinedRun(env, w, steps)
    requires StoredAt(steps, i, id, from, publish, interval, t)
    ensures Gives(Origin(w, steps, id), from, publish, interval, t)
  {
    var init, s := steps[..|steps| - 1], steps[|steps| - 1];
    if i < |steps| - 1 {
      var e := Exec(env, w, init);
      StoredBefore(steps, i, id, from, publish, interval, t);
      StoredOnce(env, w, init, i, id, from, publish, interval, t);
      StoredIsUsedUp(env, w, init, i, id, from, publish, interval, t);
      assert !(s.Store? && s.id == id);
    }
  }

  /** A message stored at time `t` is in the answer to a matching `get` of a client that has not
      had it, as it was stored, exactly until `t + interval` (or the last representable time):
      provided it is still in memory after that get's eviction. */
  lemma StoredIsAnswered(env: Env, w: World, steps: seq<Step>, i: nat, id: Id, from: Text, publish: Publish,
      interval: nat, t: int, client: Text, filter: Text, now: int)
    requires env.node < MAX_NODE && Initial(env, w) && DisciplinedRun(env, w, steps)
    requires StoredAt(steps, i, id, from, publish, interval, t)
    ensures var last := Exec(env, w, steps);
      && ((id, from, publish) in Answer(env, last, client, filter, now) <==>
            && id in Evict(last.mem, env.caps, now).msgs && Matches(publish.topic, filter)
            && now < t + interval && now < 0x7FFF_FFFF_FFFF_FFFF && (id, client) !in last.handed)
      && (forall a :: a in Answer(env, last, client, filter, now) && a.0 == id ==> a == (id, from, publish))
  {
    var last := Exec(env, w, steps);
    StoredOnce(env, w, steps, i, id, from, publish, interval, t);
    StoredIsUsedUp(env, w, steps, i, id, from, publish, interval, t);
    AnswerIff(env, w, steps, client, filter, now, id, from, publish);
    forall a | a in Answer(env, last, client, filter, now) && a.0 == id ensures a == (id, from, publish) {
      AnswerIff(env, w, steps, client, filter, now, a.0, a.1, a.2);
    }
  }

  /** What a `get` answers, and nothing else, counts as handed to the client from then on. */
  lemma AnswerIsHanded(env: Env, w: World, client: Text, filter: Text, now: int, id: Id, c: Text)
    ensures var n := Do(env, w, Get(client, filter, now));
      (id, c) in n.handed <==>
        || (id, c) in w.handed
        || (c == client && exists a :: a in Answer(env, w, client, filter, now) && a.0 == id)
  {
    var m := Evict(w.mem, env.caps, now);
    if id in Hits(m, client, filter, now) {
      assert (id, m.msgs[id].from, m.msgs[id].publish) in Answer(env, w, client, filter, now);
      assert (id, client) in Pairs(Hits(m, client, filter, now), client);
    }
  }

  // ---------------------------------------------------------------- without limits

  lemma LiveStays(m: Mem, now: int, id: Id)
    requires Valid(m) && id in m.msgs && m.msgs[id].expiryAt > now
    ensures id in Evict(m, Caps(0, 0), now).msgs
  {
    ValidListed(m);
    assert id in Elems(m.order);
    var i :| 0 <= i < |m.order| && m.order[i] == id;
    EvictionRule(m, Caps(0, 0), now, i);
    assert !Spent(m, Caps(0, 0), now, i);
  }

  lemma ReceiveKeepsLive(env: Env, w: World, now: int, id: Id, expiry: int)
    requires env.caps == Caps(0, 0) && Valid(w.mem) && Apart(w) && w.chan != [] && now < expiry
    requires Fits(w.mem, w.chan[0].0, w.chan[0].1)
    requires id in w.arrivals ==> id in w.mem.msgs && w.mem.msgs[id].expiryAt == expiry
    requires w.chan[0].0 == id ==> w.chan[0].1.expiryAt == expiry
    ensures id in DoReceive(env, w, now).arrivals ==> id in DoReceive(env, w, now).mem.msgs
  {
    var (k, msg) := w.chan[0];
    ReceivedIsNew(w);
    InsertKeepsValid(w.mem, k, msg);
    if id in DoReceive(env, w, now).arrivals {
      assert id == k || id in w.arrivals;
      assert Insert(w.mem, k, msg).msgs == w.mem.msgs[k := msg];
      LiveStays(Insert(w.mem, k, msg), now, id);
    }
  }

  lemma QueryKeepsLive(env: Env, w: World, client: Text, filter: Text, now: int, id: Id, expiry: int)
    requires env.caps == Caps(0, 0) && Valid(w.mem) && now < expiry
    requires id in w.arrivals ==> id in w.mem.msgs && w.mem.msgs[id].expiryAt == expiry
    ensures id in w.arrivals ==> id in DoGet(env, w, client, filter, now).mem.msgs
    ensures id in w.arrivals ==> id in DoDrain(env, w, now).mem.msgs
  {
    if id in w.arrivals { LiveStays(w.mem, now, id); }
  }

  lemma StepKeepsLive(env: Env, w: World, s: Step, id: Id, expiry: int)
    requires env.caps == Caps(0, 0) && Valid(w.mem) && Apart(w)
    requires Enabled(env, w, s) && Disciplined(w, s) && !s.Reopen? && Do(env, w, s).clock < expiry
    requires id in w.arrivals ==> id in w.mem.msgs && w.mem.msgs[id].expiryAt == expiry
    requires forall e :: e in w.chan && e.0 == id ==> e.1.expiryAt == expiry
    ensures id in Do(env, w, s).arrivals ==> id in Do(env, w, s).mem.msgs
  {
    match s
    case Receive(now) =>
      assert w.chan[0] in w.chan;
      ReceiveKeepsLive(env, w, now, id, expiry);
    case Get(client, filter, now) => QueryKeepsLive(env, w, client, filter, now, id, expiry);
    case Drain(now) => QueryKeepsLive(env, w, "", "", now, id, expiry);
    case _ =>
  }

  /** Without limits a message received stays in memory while it is live. */
  lemma {:induction false} ResidentWhileLive(env: Env, w: World, steps: seq<Step>, i: nat, id: Id, from: Text,
      publish: Publish, interval: nat, t: int)
    requires env.node < MAX_NODE && Initial(env, w) && DisciplinedRun(env, w, steps) && env.caps == Caps(0, 0)
    requires StoredAt(steps, i, id, from, publish, interval, t)
    requires Exec(env, w, steps).clock < t + interval && Exec(env, w, steps).clock < 0x7FFF_FFFF_FFFF_FFFF
    ensures id in Exec(env, w, steps).arrivals ==> id in Exec(env, w, steps).mem.msgs
  {
    var init, s := steps[..|steps| - 1], steps[|steps| - 1];
    var e := Exec(env, w, init);
    RunIds(env, w, init);
    if i == |steps| - 1 {
      assert id !in Elems(e.arrivals);
    } else {
      StoredBefore(steps, i, id, from, publish, interval, t);
      ClockGrows(env, e, s);
      ResidentWhileLive(env, w, init, i, id, from, publish, interval, t);
      StoredOnce(env, w, init, i, id, from, publish, interval, t);
      ContentSurvives(env, w, init);
      DisciplinedIsSteady(env, w, init);
      MemoryStaysValid(env, w, init);
      StepKeepsLive(env, e, s, id, Origins(w, init)(id).value.expiryAt);
    }
  }

  lemma ClockGrows(env: Env, w: World, s: Step)
    requires Enabled(env, w, s)
    ensures w.clock <= Do(env, w, s).clock
  {}

  /** Without limits: until `t + interval` a message stored at time `t` and received since is in
      the answer to every matching `get` of a client that has not had it. */
  lemma UnlimitedAnswer(env: Env, w: World, steps: seq<Step>, i: nat, id: Id, from: Text, publish: Publish,
      interval: nat, t: int, client: Text, filter: Text, now: int)
    requires env.node < MAX_NODE && Initial(env, w) && DisciplinedRun(env, w, steps) && env.caps == Caps(0, 0)
    requires StoredAt(steps, i, id, from, publish, interval, t)
    requires Exec(env, w, steps).clock < t + interval && Exec(env, w, steps).clock < 0x7FFF_FFFF_FFFF_FFFF
    ensures var last := Exec(env, w, steps);
      (id, from, publish) in Answer(env, last, client, filter, now) <==>
        && id in last.arrivals && Matches(publish.topic, filter)
        && now < t + interval && now < 0x7FFF_FFFF_FFFF_FFFF && (id, client) !in last.handed
  {
    var last := Exec(env, w, steps);
    StoredOnce(env, w, steps, i, id, from, publish, interval, t);
    StoredIsAnswered(env, w, steps, i, id, from, publish, interval, t, client, filter, now);
    ResidentWhileLive(env, w, steps, i, id, from, publish, interval, t);
    ContentSurvives(env, w, steps);
    RunIds(env, w, steps);
    DisciplinedIsSteady(env, w, steps);
    MemoryStaysValid(env, w, steps);
    EvictShape(last.mem, env.caps, now);
    assert id in last.mem.msgs ==> id in Elems(last.arrivals);
    if id in last.arrivals && now < Origins(w, steps)(id).value.expiryAt { LiveStays(last.mem, now, id); }
  }

  // ---------------------------------------------------------------- one message received

  /** In any run, disciplined or not: the receiver takes the front of the channel; the message
      replaces what was in memory under its id, in its old place, or else goes to the end of the
      queue; the others stay as they are or are evicted. */
  lemma ReceivedReplaces(env: Env, w: World, now: int)
    requires Enabled(env, w, Receive(now))
    ensures var n := Do(env, w, Receive(now)); var (k, msg) := w.chan[0];
      && n.chan == w.chan[1..]
      && (k in n.mem.msgs ==> n.mem.msgs[k] == msg)
      && (forall id :: id in n.mem.msgs && id != k ==> id in w.mem.msgs && n.mem.msgs[id] == w.mem.msgs[id])
      && Suffix(n.mem.order, if k in w.mem.msgs then w.mem.order else w.mem.order + [k])
  {
    EvictShape(Insert(w.mem, w.chan[0].0, w.chan[0].1), env.caps, now);
  }
}
