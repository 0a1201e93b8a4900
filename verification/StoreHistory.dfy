/** What holds over runs of the message store, layer by layer: the queue in every run; the memory
    invariant and the limits when stores keep the topic of an id; fresh ids, single delivery and
    residency when every issued id is used for at most one message. */
module StoreHistory {
  import opened Options
  import opened Topic
  import opened MemModel
  import opened StoreModel
  import opened StoreRuns

  // ---------------------------------------------------------------- the queue, in every run

  /** Eviction drops a prefix of the queue and changes no message it keeps. */
  lemma {:induction false} EvictShape(m: Mem, caps: Caps, now: int)
    ensures |Evict(m, caps, now).order| <= |m.order|
    ensures Evict(m, caps, now).order == m.order[|m.order| - |Evict(m, caps, now).order|..]
    ensures forall id :: id in Evict(m, caps, now).msgs ==> id in m.msgs && Evict(m, caps, now).msgs[id] == m.msgs[id]
    decreases |m.order|
  {
    if MustPop(m, caps, now) { EvictShape(Pop(m), caps, now); }
  }

  ghost predicate Suffix(s: seq<Id>, all: seq<Id>) {
    |s| <= |all| && s == all[|all| - |s|..]
  }

  lemma EvictSuffix(m: Mem, caps: Caps, now: int, all: seq<Id>)
    requires Suffix(m.order, all)
    ensures Suffix(Evict(m, caps, now).order, all) && |Evict(m, caps, now).order| <= |m.order|
  {
    EvictShape(m, caps, now);
  }

  /** How many arrivals have left the queue. */
  function Gone(w: World): int { |w.arrivals| - |w.mem.order| }

  lemma ReceiveFifo(env: Env, w: World, now: int)
    requires w.chan != [] && Suffix(w.mem.order, w.arrivals)
    ensures var n := DoReceive(env, w, now);
      Suffix(n.mem.order, n.arrivals) && w.arrivals <= n.arrivals && Gone(w) <= Gone(n)
  {
    var (k, msg) := w.chan[0];
    EvictSuffix(Insert(w.mem, k, msg), env.caps, now, DoReceive(env, w, now).arrivals);
  }

  /** Between opens arrivals only grow, and the place where residency begins never moves back. */
  lemma StepFifo(env: Env, w: World, s: Step)
    requires Enabled(env, w, s) && Suffix(w.mem.order, w.arrivals)
    ensures var n := Do(env, w, s); Suffix(n.mem.order, n.arrivals)
    ensures !s.Reopen? ==> w.arrivals <= Do(env, w, s).arrivals && Gone(w) <= Gone(Do(env, w, s))
  {
    match s
    case Receive(now) => ReceiveFifo(env, w, now);
    case Get(_, _, now) => EvictSuffix(w.mem, env.caps, now, w.arrivals);
    case Drain(now) => EvictSuffix(w.mem, env.caps, now, w.arrivals);
    case _ =>
  }

  /** In every run the queue is a suffix of the arrivals. */
  lemma {:induction false} RunFifo(env: Env, w: World, steps: seq<Step>)
    requires Initial(env, w) && Run(env, w, steps)
    ensures Suffix(Exec(env, w, steps).mem.order, Exec(env, w, steps).arrivals)
  {
    if steps != [] {
      var init := steps[..|steps| - 1];
      RunFifo(env, w, init);
      StepFifo(env, Exec(env, w, init), steps[|steps| - 1]);
    }
  }

  // ---------------------------------------------------------------- memory and limits, in steady runs

  /** A message received under an id that is in memory keeps its topic, and the running total
      stays within a machine word. */
  ghost predicate Steady(w: World, s: Step) {
    s.Receive? && w.chan != [] ==>
      && Fits(w.mem, w.chan[0].0, w.chan[0].1)
      && (w.chan[0].0 in w.mem.msgs ==>
            w.mem.msgs[w.chan[0].0].publish.topic == w.chan[0].1.publish.topic)
  }

  ghost predicate SteadyRun(env: Env, w: World, steps: seq<Step>) {
    && Run(env, w, steps)
    && (steps == [] ||
        var init := steps[..|steps| - 1];
        SteadyRun(env, w, init) && Steady(Exec(env, w, init), steps[|steps| - 1]))
  }

  lemma ReceiveValid(env: Env, w: World, now: int)
    requires Valid(w.mem) && w.chan != [] && Steady(w, Receive(now))
    ensures Valid(DoReceive(env, w, now).mem)
  {
    var (k, msg) := w.chan[0];
    InsertKeepsValid(w.mem, k, msg);
    EvictKeepsValid(Insert(w.mem, k, msg), env.caps, now);
  }

  lemma GetValid(env: Env, w: World, client: Text, filter: Text, now: int)
    requires Valid(w.mem)
    ensures Valid(DoGet(env, w, client, filter, now).mem)
  {
    var m := Evict(w.mem, env.caps, now);
    EvictKeepsValid(w.mem, env.caps, now);
    MarkKeepsValid(m, Hits(m, client, filter, now), client);
  }

  lemma DrainValid(env: Env, w: World, now: int)
    requires Valid(w.mem)
    ensures Valid(DoDrain(env, w, now).mem)
  {
    EvictKeepsValid(w.mem, env.caps, now);
  }

  lemma StepValid(env: Env, w: World, s: Step)
    requires Valid(w.mem) && Enabled(env, w, s) && Steady(w, s)
    ensures Valid(Do(env, w, s).mem)
  {
    match s
    case Receive(now) => ReceiveValid(env, w, now);
    case Get(client, filter, now) => GetValid(env, w, client, filter, now);
    case Drain(now) => DrainValid(env, w, now);
    case Reopen(now, loaded, _) => OpenedIsValid(loaded, w.disk, now);
    case _ =>
  }

  /** In every steady run the six parts of the memory state agree. */
  lemma {:induction false} MemoryStaysValid(env: Env, w: World, steps: seq<Step>)
    requires Initial(env, w) && SteadyRun(env, w, steps)
    ensures Valid(Exec(env, w, steps).mem)
  {
    if steps == [] {
      OpenedIsValid(w.mem, w.disk, w.clock);
    } else {
      var init := steps[..|steps| - 1];
      MemoryStaysValid(env, w, init);
      StepValid(env, Exec(env, w, init), steps[|steps| - 1]);
    }
  }

  predicate Evicts(s: Step) { s.Receive? || s.Get? || s.Drain? }

  /** The run has evicted since it last opened. */
  predicate EvictedSinceOpen(steps: seq<Step>) {
    steps != [] &&
    var s := steps[|steps| - 1];
    Evicts(s) || (!s.Reopen? && EvictedSinceOpen(steps[..|steps| - 1]))
  }

  lemma MarkMeetsCaps(m: Mem, ids: set<Id>, client: Text, caps: Caps)
    requires MeetsCaps(m, caps)
    ensures MeetsCaps(MarkDelivered(m, ids, client), caps)
  {
    var n := MarkDelivered(m, ids, client);
    SumSameSizes(m.msgs, n.msgs);
    assert |m.msgs.Keys| == |m.msgs| && |n.msgs.Keys| == |n.msgs|;
  }

  lemma StepMeetsCaps(env: Env, w: World, s: Step)
    requires Valid(w.mem) && Enabled(env, w, s) && Steady(w, s) && Evicts(s)
    ensures MeetsCaps(Do(env, w, s).mem, env.caps)
  {
    match s
    case Receive(now) =>
      InsertKeepsValid(w.mem, w.chan[0].0, w.chan[0].1);
      EvictMeetsCaps(Insert(w.mem, w.chan[0].0, w.chan[0].1), env.caps, now);
    case Get(client, filter, now) =>
      var m := Evict(w.mem, env.caps, now);
      EvictMeetsCaps(w.mem, env.caps, now);
      MarkMeetsCaps(m, Hits(m, client, filter, now), client, env.caps);
    case Drain(now) => EvictMeetsCaps(w.mem, env.caps, now);
  }

  /** From the first eviction after an open on, the limits hold at every moment. */
  lemma {:induction false} LimitsHold(env: Env, w: World, steps: seq<Step>)
    requires Initial(env, w) && SteadyRun(env, w, steps) && EvictedSinceOpen(steps)
    ensures MeetsCaps(Exec(env, w, steps).mem, env.caps)
  {
    var init, s := steps[..|steps| - 1], steps[|steps| - 1];
    if Evicts(s) {
      MemoryStaysValid(env, w, init);
      StepMeetsCaps(env, Exec(env, w, init), s);
    } else {
      LimitsHold(env, w, init);
    }
  }

  // ---------------------------------------------------------------- ids, in disciplined runs

  /** Ids are stored only when issued and not stored before; the 48-bit counter has not run
      out; the running total stays within a machine word. */
  ghost predicate Disciplined(w: World, s: Step) {
    match s
    case Issue => w.counter < LOW
    case Store(id, _, _, _, _) => id in w.tokens
    case Receive(_) => w.chan != [] ==> Fits(w.mem, w.chan[0].0, w.chan[0].1)
    case _ => true
  }

  ghost predicate DisciplinedRun(env: Env, w: World, steps: seq<Step>) {
    && Run(env, w, steps)
    && (steps == [] ||
        var init := steps[..|steps| - 1];
        DisciplinedRun(env, w, init) && Disciplined(Exec(env, w, init), steps[|steps| - 1]))
  }

  lemma OneMoreDisciplined(env: Env, w: World, steps: seq<Step>, s: Step)
    requires DisciplinedRun(env, w, steps)
    requires Enabled(env, Exec(env, w, steps), s) && Disciplined(Exec(env, w, steps), s)
    ensures DisciplinedRun(env, w, steps + [s]) && Exec(env, w, steps + [s]) == Do(env, Exec(env, w, steps), s)
  {
    OneMore(env, w, steps, s);
    assert (steps + [s])[..|steps + [s]| - 1] == steps;
  }

  function ChanIds(chan: seq<Message>): set<Id> {
    set k | k in chan :: k.0
  }

  ghost predicate DistinctIds(chan: seq<Message>) {
    forall i, j :: 0 <= i < j < |chan| ==> chan[i].0 != chan[j].0
  }

  /** Every id that has been seen since the open, or is on disk. */
  ghost function Known(w: World): set<Id> {
    Elems(w.arrivals) + ChanIds(w.chan) + w.tokens + w.disk.Keys
      + if w.inflight.Some? then w.inflight.value.puts.Keys else {}
  }

  /** Ids of this node lie below the counter; those issued since the open, and no others, from
      the counter's first value on; each is waiting to be stored, in the channel or received. */
  ghost predicate Numbered(env: Env, w: World) {
    && w.first <= w.counter <= LOW
    && (forall id :: id in Known(w) && NodeOf(id) == env.node ==> LowPart(id) < w.counter)
    && (forall id :: id in w.issued ==> NodeOf(id) == env.node && w.first <= LowPart(id) < w.counter)
    && (w.first < w.counter ==> NextId(env.node, w.counter - 1) in w.issued)
    && w.issued <= w.tokens + ChanIds(w.chan) + Elems(w.arrivals)
    && w.tokens + ChanIds(w.chan) <= w.issued
  }

  /** No id is in two places. */
  ghost predicate Apart(w: World) {
    && w.tokens !! Elems(w.arrivals) && w.tokens !! ChanIds(w.chan)
    && ChanIds(w.chan) !! Elems(w.arrivals)
    && DistinctIds(w.chan)
    && NoDup(w.arrivals)
    && w.mem.msgs.Keys <= Elems(w.arrivals)
  }

  lemma StartIds(env: Env, disk: Disk, now: int, loaded: Mem, start: nat)
    requires CanStart(env, disk, now, loaded, start)
    ensures Numbered(env, Started(disk, now, loaded, start)) && Apart(Started(disk, now, loaded, start))
  {
    OpenedIsValid(loaded, disk, now);
    assert Elems(loaded.order) <= disk.Keys;
  }

  /** The id issued next is none that the node has issued since the open, and none waiting to
      be stored, in the channel, received, or on disk. */
  lemma NextIdIsNew(env: Env, w: World)
    requires env.node < MAX_NODE && Numbered(env, w) && w.counter < LOW
    ensures var id := NextId(env.node, w.counter);
      id !in Known(w) && id !in w.issued && NodeOf(id) == env.node && LowPart(id) == w.counter
  {
    IdParts(env.node, w.counter);
  }

  lemma IssueIds(env: Env, w: World)
    requires env.node < MAX_NODE && Numbered(env, w) && Apart(w) && w.counter < LOW
    ensures Numbered(env, DoIssue(env, w)) && Apart(DoIssue(env, w))
  {
    NextIdIsNew(env, w);
    assert Known(DoIssue(env, w)) == Known(w) + {NextId(env.node, w.counter)};
  }

  lemma Enqueue(chan: seq<Message>, m: Message)
    ensures ChanIds(chan + [m]) == ChanIds(chan) + {m.0}
    ensures DistinctIds(chan) && m.0 !in ChanIds(chan) ==> DistinctIds(chan + [m])
  {
    assert (chan + [m])[|chan|] == m;
    forall e ensures e in chan + [m] <==> e in chan || e == m {}
    forall i | 0 <= i < |chan| ensures chan[i].0 in ChanIds(chan) { assert chan[i] in chan; }
  }

  lemma StoreIds(env: Env, w: World, id: Id, from: Text, publish: Publish, interval: nat, now: int)
    requires Numbered(env, w) && Apart(w) && id in w.tokens
    ensures Numbered(env, DoStore(w, id, from, publish, interval, now))
    ensures Apart(DoStore(w, id, from, publish, interval, now))
  {
    var n := DoStore(w, id, from, publish, interval, now);
    Enqueue(w.chan, n.chan[|w.chan|]);
    assert Known(n) == Known(w);
  }

  lemma Dequeue(chan: seq<Message>)
    requires chan != [] && DistinctIds(chan)
    ensures chan[0].0 in ChanIds(chan) && DistinctIds(chan[1..])
    ensures ChanIds(chan[1..]) == ChanIds(chan) - {chan[0].0}
  {
    assert chan[0] in chan;
    assert chan == [chan[0]] + chan[1..];
    forall e | e in chan[1..] ensures e in chan && e.0 != chan[0].0 {
      var i :| 0 <= i < |chan[1..]| && chan[1..][i] == e;
      assert chan[i + 1] == e;
    }
    forall e | e in chan ensures e == chan[0] || e in chan[1..] {}
  }

  /** A received message is new to memory and to the arrivals. */
  lemma ReceivedIsNew(w: World)
    requires Apart(w) && w.chan != []
    ensures w.chan[0].0 !in w.mem.msgs && w.chan[0].0 !in Elems(w.arrivals)
  {
    Dequeue(w.chan);
    assert w.chan[0].0 in ChanIds(w.chan);
  }

  /** Nothing new is known, and no issued id is lost sight of. */
  lemma StillNumbered(env: Env, w: World, n: World)
    requires Numbered(env, w) && Known(n) <= Known(w)
    requires n.first == w.first && n.counter == w.counter && n.issued == w.issued && n.tokens == w.tokens
    requires ChanIds(n.chan) <= ChanIds(w.chan)
    requires ChanIds(w.chan) + Elems(w.arrivals) <= ChanIds(n.chan) + Elems(n.arrivals)
    ensures Numbered(env, n)
  {}

  lemma StillApart(w: World, n: World)
    requires Apart(w) && n.chan == w.chan && n.arrivals == w.arrivals && n.tokens == w.tokens
    requires n.mem.msgs.Keys <= w.mem.msgs.Keys
    ensures Apart(n)
  {}

  lemma ReceiveApart(env: Env, w: World, now: int)
    requires Apart(w) && w.chan != []
    ensures Apart(DoReceive(env, w, now))
  {
    var (k, msg) := w.chan[0];
    ReceivedIsNew(w);
    Dequeue(w.chan);
    assert Elems(w.arrivals + [k]) == Elems(w.arrivals) + {k};
    assert NoDup(w.arrivals + [k]);
    EvictShape(Insert(w.mem, k, msg), env.caps, now);
  }

  lemma ReceiveNumbered(env: Env, w: World, now: int)
    requires Numbered(env, w) && Apart(w) && w.chan != []
    ensures Numbered(env, DoReceive(env, w, now))
  {
    var k, n := w.chan[0].0, DoReceive(env, w, now);
    ReceivedIsNew(w);
    Dequeue(w.chan);
    assert Elems(n.arrivals) == Elems(w.arrivals) + {k};
    StillNumbered(env, w, n);
  }

  lemma GetIds(env: Env, w: World, client: Text, filter: Text, now: int)
    requires Numbered(env, w) && Apart(w)
    ensures Numbered(env, DoGet(env, w, client, filter, now)) && Apart(DoGet(env, w, client, filter, now))
  {
    EvictShape(w.mem, env.caps, now);
    StillNumbered(env, w, DoGet(env, w, client, filter, now));
    StillApart(w, DoGet(env, w, client, filter, now));
  }

  lemma DrainShape(env: Env, w: World, now: int)
    ensures var n := DoDrain(env, w, now);
      && n.first == w.first && n.counter == w.counter && n.issued == w.issued && n.tokens == w.tokens
      && n.chan == w.chan && n.arrivals == w.arrivals && n.disk == w.disk
      && n.mem.msgs.Keys <= w.mem.msgs.Keys
      && (n.inflight.Some? && w.inflight.None? ==> n.inflight.value.puts.Keys <= w.mem.msgs.Keys)
  {
    EvictShape(w.mem, env.caps, now);
  }

  lemma DrainIds(env: Env, w: World, now: int)
    requires Numbered(env, w) && Apart(w) && w.inflight.None?
    ensures Numbered(env, DoDrain(env, w, now)) && Apart(DoDrain(env, w, now))
  {
    var n := DoDrain(env, w, now);
    DrainShape(env, w, now);
    assert Known(n) <= Known(w);
    StillNumbered(env, w, n);
    StillApart(w, n);
  }

  lemma CommitIds(env: Env, w: World, n: World)
    requires Numbered(env, w) && Apart(w) && w.inflight.Some?
    requires n == DoCommit(w) || n == w.(inflight := None)
    ensures Numbered(env, n) && Apart(n)
  {
    assert Known(n) <= Known(w);
    StillNumbered(env, w, n);
    StillApart(w, n);
  }

  lemma StepIds(env: Env, w: World, s: Step)
    requires env.node < MAX_NODE && Numbered(env, w) && Apart(w) && Enabled(env, w, s) && Disciplined(w, s)
    ensures Numbered(env, Do(env, w, s)) && Apart(Do(env, w, s))
  {
    match s
    case Issue => IssueIds(env, w);
    case Store(id, from, publish, interval, now) => StoreIds(env, w, id, from, publish, interval, now);
    case Receive(now) => ReceiveNumbered(env, w, now); ReceiveApart(env, w, now);
    case Get(client, filter, now) => GetIds(env, w, client, filter, now);
    case Drain(now) => DrainIds(env, w, now);
    case Commit => CommitIds(env, w, DoCommit(w));
    case CommitFails => CommitIds(env, w, w.(inflight := None));
    case Reopen(now, loaded, start) => StartIds(env, w.disk, now, loaded, start);
  }

  lemma {:induction false} RunIds(env: Env, w: World, steps: seq<Step>)
    requires env.node < MAX_NODE && Initial(env, w) && DisciplinedRun(env, w, steps)
    ensures Numbered(env, Exec(env, w, steps)) && Apart(Exec(env, w, steps))
  {
    if steps == [] {
      StartIds(env, w.disk, w.clock, w.mem, w.counter);
    } else {
      var init := steps[..|steps| - 1];
      RunIds(env, w, init);
      StepIds(env, Exec(env, w, init), steps[|steps| - 1]);
    }
  }

  /** An id issued in a disciplined run is new: the node has not issued it since the open, and it
      is not in the channel, among the arrivals, or on any row of the disk, readable or not. */
  lemma IssuedIdsAreFresh(env: Env, w: World, steps: seq<Step>)
    requires env.node < MAX_NODE && Initial(env, w) && DisciplinedRun(env, w, steps)
    requires Exec(env, w, steps).counter < LOW
    ensures var last := Exec(env, w, steps); var id := NextId(env.node, last.counter);
      && id !in last.issued && id !in ChanIds(last.chan) && id !in last.arrivals && id !in last.disk
      && NodeOf(id) == env.node
  {
    var last := Exec(env, w, steps);
    RunIds(env, w, steps);
    NextIdIsNew(env, last);
    assert forall id :: id in last.arrivals ==> id in Elems(last.arrivals);
  }

  /** No message received in a disciplined run replaces one in memory. */
  lemma NothingIsOverwritten(env: Env, w: World, steps: seq<Step>)
    requires env.node < MAX_NODE && Initial(env, w) && DisciplinedRun(env, w, steps)
    requires Exec(env, w, steps).chan != []
    ensures Exec(env, w, steps).chan[0].0 !in Exec(env, w, steps).mem.msgs
  {
    RunIds(env, w, steps);
    ReceivedIsNew(Exec(env, w, steps));
  }

  /** So what holds of steady runs holds of disciplined ones. */
  lemma {:induction false} DisciplinedIsSteady(env: Env, w: World, steps: seq<Step>)
    requires env.node < MAX_NODE && Initial(env, w) && DisciplinedRun(env, w, steps)
    ensures SteadyRun(env, w, steps)
  {
    if steps != [] {
      var init := steps[..|steps| - 1];
      DisciplinedIsSteady(env, w, init);
      RunIds(env, w, init);
      if Exec(env, w, init).chan != [] { ReceivedIsNew(Exec(env, w, init)); }
    }
  }

  lemma ResidentIffRecent(m: Mem, arrivals: seq<Id>, i: nat)
    requires NoDup(arrivals) && Suffix(m.order, arrivals) && Elems(m.order) == m.msgs.Keys && i < |arrivals|
    ensures arrivals[i] in m.msgs <==> |arrivals| - |m.order| <= i
  {
    var id, gone := arrivals[i], |arrivals| - |m.order|;
    if gone <= i {
      assert m.order[i - gone] == id;
      assert id in Elems(m.order);
    } else {
      assert forall j :: 0 <= j < |m.order| ==> m.order[j] == arrivals[gone + j];
      assert id !in Elems(m.order);
    }
  }

  /** A message is in memory exactly when it is among the latest arrivals: whatever arrived
      after a resident message is resident too. */
  lemma FifoResidency(env: Env, w: World, steps: seq<Step>, i: nat)
    requires env.node < MAX_NODE && Initial(env, w) && DisciplinedRun(env, w, steps)
    requires i < |Exec(env, w, steps).arrivals|
    ensures var last := Exec(env, w, steps);
      last.arrivals[i] in last.mem.msgs <==> Gone(last) <= i
  {
    var last := Exec(env, w, steps);
    RunIds(env, w, steps);
    RunFifo(env, w, steps);
    DisciplinedIsSteady(env, w, steps);
    MemoryStaysValid(env, w, steps);
    ResidentIffRecent(last.mem, last.arrivals, i);
  }

  // ---------------------------------------------------------------- deliveries, in disciplined runs

  /** Every delivery so far is of an arrived message, happened once, and is remembered by the
      message for as long as it stays in memory. */
  ghost predicate DeliveredOnce(w: World) {
    forall id, c :: (id, c) in w.handed ==>
      && w.handed[(id, c)] == 1
      && id in w.arrivals
      && (id in w.mem.msgs ==> c in w.mem.msgs[id].deliveredTo)
  }

  ghost predicate Remembers(s: Snapshot) {
    forall id, c :: (id, c) in s.handed && id in s.msgs ==> c in s.msgs[id].deliveredTo
  }

  ghost predicate Delivered(w: World) {
    DeliveredOnce(w) && Remembers(w.snap) && Remembers(w.nextSnap)
  }

  /** Forgetting messages and adding recipients to the rest keeps the record of deliveries. */
  lemma OnceLater(w: World, n: World)
    requires DeliveredOnce(w) && n.handed == w.handed && w.arrivals <= n.arrivals
    requires forall id :: id in n.mem.msgs && id in w.arrivals ==>
      id in w.mem.msgs && w.mem.msgs[id].deliveredTo <= n.mem.msgs[id].deliveredTo
    ensures DeliveredOnce(n)
  {
    forall id, c | (id, c) in n.handed
      ensures n.handed[(id, c)] == 1 && id in n.arrivals
      ensures id in n.mem.msgs ==> c in n.mem.msgs[id].deliveredTo
    {
      assert (id, c) in w.handed;
    }
  }

  lemma ReceiveOnce(env: Env, w: World, now: int)
    requires DeliveredOnce(w) && Apart(w) && w.chan != []
    ensures DeliveredOnce(DoReceive(env, w, now))
  {
    var (k, msg) := w.chan[0];
    ReceivedIsNew(w);
    EvictShape(Insert(w.mem, k, msg), env.caps, now);
    assert forall id :: id in w.arrivals ==> id in Elems(w.arrivals);
    OnceLater(w, DoReceive(env, w, now));
  }

  lemma GetOnce(w: World, m: Mem, client: Text, filter: Text, now: int)
    requires DeliveredOnce(w.(mem := m)) && m.msgs.Keys <= Elems(w.arrivals)
    ensures var hits := Hits(m, client, filter, now);
      DeliveredOnce(w.(mem := MarkDelivered(m, hits, client), clock := Max(w.clock, now),
                       handed := w.handed + multiset(Pairs(hits, client))))
  {
    var hits := Hits(m, client, filter, now);
    var handed := w.handed + multiset(Pairs(hits, client));
    var n := MarkDelivered(m, hits, client);
    forall id, c | (id, c) in handed
      ensures handed[(id, c)] == 1 && id in w.arrivals
      ensures id in n.msgs ==> c in n.msgs[id].deliveredTo
    {
      if (id, c) in Pairs(hits, client) {
        assert (id, c) !in w.handed;
        assert id in Elems(w.arrivals);
      } else {
        assert (id, c) in w.handed;
      }
    }
  }

  lemma DrainDelivered(env: Env, w: World, now: int)
    requires Delivered(w)
    ensures Delivered(DoDrain(env, w, now))
  {
    var m := Evict(w.mem, env.caps, now);
    EvictShape(w.mem, env.caps, now);
    OnceLater(w, w.(mem := m));
    OnceLater(w, DoDrain(env, w, now));
    forall id, c | (id, c) in HandedSet(w) && id in m.msgs ensures c in m.msgs[id].deliveredTo {
      assert (id, c) in w.handed;
    }
  }

  lemma StepDelivered(env: Env, w: World, s: Step)
    requires Delivered(w) && Apart(w) && Enabled(env, w, s)
    ensures Delivered(Do(env, w, s))
  {
    match s
    case Receive(now) => ReceiveOnce(env, w, now);
    case Get(client, filter, now) =>
      var m := Evict(w.mem, env.caps, now);
      EvictShape(w.mem, env.caps, now);
      OnceLater(w, w.(mem := m));
      GetOnce(w, m, client, filter, now);
    case Drain(now) => DrainDelivered(env, w, now);
    case _ =>
  }

  lemma {:induction false} RunDelivered(env: Env, w: World, steps: seq<Step>)
    requires env.node < MAX_NODE && Initial(env, w) && DisciplinedRun(env, w, steps)
    ensures Delivered(Exec(env, w, steps))
  {
    if steps != [] {
      var init := steps[..|steps| - 1];
      RunDelivered(env, w, init);
      RunIds(env, w, init);
      StepDelivered(env, Exec(env, w, init), steps[|steps| - 1]);
    }
  }

  /** Each message goes to each client at most once between two opens. */
  lemma AtMostOnce(env: Env, w: World, steps: seq<Step>, id: Id, client: Text)
    requires env.node < MAX_NODE && Initial(env, w) && DisciplinedRun(env, w, steps)
    ensures Exec(env, w, steps).handed[(id, client)] <= 1
  {
    RunDelivered(env, w, steps);
    assert (id, client) in Exec(env, w, steps).handed ==> Exec(env, w, steps).handed[(id, client)] == 1;
  }
}
