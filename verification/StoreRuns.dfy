/** Whole runs of the message store: callers, the channel, the flusher, the disk and crashes,
    interleaved in any order. Each step is one of the atomic sections of src/msgstore.rs. */
module StoreRuns {
  import opened Options
  import opened Topic
  import opened MemModel
  import opened StoreModel

  datatype Env = Env(node: nat, caps: Caps)

  type Message = (Id, StoredMsg)

  /** The messages in memory, and the deliveries made, when a drain took its batch. */
  datatype Snapshot = Snapshot(msgs: map<Id, StoredMsg>, handed: set<(Id, Text)>)

  datatype World = World(
    mem: Mem,
    disk: Disk,
    inflight: Option<Batch>,       // drained, not yet committed
    chan: seq<Message>,            // stored, not yet received
    counter: nat,
    // what observers remember
    clock: int,                    // the latest time anybody has read
    first: nat,                    // the counter at the open
    issued: set<Id>,               // ids issued since the open
    tokens: set<Id>,               // those of them not yet stored
    found: map<Id, StoredMsg>,     // the messages loaded at the open
    arrivals: seq<Id>,             // loaded at the open, then first insertions, in order
    handed: multiset<(Id, Text)>,  // deliveries since the open: message id and client
    snap: Snapshot,                // at the last committed drain (or at the open)
    nextSnap: Snapshot)            // at the drain in flight

  /** Every timed step carries the time its caller read before it took the lock or sent to the
      channel. Callers race, so these times may come in any order. */
  datatype Step =
    | Issue
    | Store(id: Id, from: Text, publish: Publish, interval: nat, now: int)
    | Receive(now: int)
    | Get(client: Text, filter: Text, now: int)
    | Drain(now: int)
    | Commit
    | CommitFails
    | Reopen(now: int, loaded: Mem, start: nat)

  function Started(disk: Disk, now: int, loaded: Mem, start: nat): World {
    World(loaded, disk, None, [], start, now, start, {}, {}, loaded.msgs, loaded.order, multiset{},
          Snapshot(loaded.msgs, {}), Snapshot(map[], {}))
  }

  ghost predicate CanStart(env: Env, disk: Disk, now: int, loaded: Mem, start: nat) {
    IsOpened(loaded, disk, now) && IsStart(start, disk, env.node)
  }

  ghost predicate Initial(env: Env, w: World) {
    && CanStart(env, w.disk, w.clock, w.mem, w.counter)
    && w == Started(w.disk, w.clock, w.mem, w.counter)
  }

  ghost predicate Enabled(env: Env, w: World, s: Step) {
    match s
    case Receive(_) => w.chan != []
    case Drain(_) => w.inflight.None?
    case Commit => w.inflight.Some?
    case CommitFails => w.inflight.Some?
    case Reopen(now, loaded, start) => w.clock <= now && CanStart(env, w.disk, now, loaded, start)
    case _ => true
  }

  function Max(a: int, b: int): int { if a < b then b else a }

  function Pairs(ids: set<Id>, client: Text): set<(Id, Text)> {
    set id | id in ids :: (id, client)
  }

  function HandedSet(w: World): set<(Id, Text)> {
    set p | p in w.handed
  }

  function DoIssue(env: Env, w: World): World {
    var id := NextId(env.node, w.counter);
    w.(counter := (w.counter + 1) % WORD, issued := w.issued + {id}, tokens := w.tokens + {id})
  }

  function DoStore(w: World, id: Id, from: Text, publish: Publish, interval: nat, now: int): World {
    var msg := StoredMsg(from, publish, ExpiryAt(now, interval), {});
    w.(chan := w.chan + [(id, msg)], tokens := w.tokens - {id}, clock := Max(w.clock, now))
  }

  function DoReceive(env: Env, w: World, now: int): World
    requires w.chan != []
  {
    var (k, msg) := w.chan[0];
    w.(mem := Evict(Insert(w.mem, k, msg), env.caps, now), chan := w.chan[1..], clock := Max(w.clock, now),
       arrivals := if k in w.mem.msgs then w.arrivals else w.arrivals + [k])
  }

  function DoGet(env: Env, w: World, client: Text, filter: Text, now: int): World {
    var m := Evict(w.mem, env.caps, now);
    var hits := Hits(m, client, filter, now);
    w.(mem := MarkDelivered(m, hits, client), clock := Max(w.clock, now),
       handed := w.handed + multiset(Pairs(hits, client)))
  }

  /** What `get` hands out: message id, sender and publish. */
  function Answer(env: Env, w: World, client: Text, filter: Text, now: int): set<(Id, Text, Publish)> {
    var m := Evict(w.mem, env.caps, now);
    set id | id in Hits(m, client, filter, now) :: (id, m.msgs[id].from, m.msgs[id].publish)
  }

  function DoDrain(env: Env, w: World, now: int): World {
    var m := Evict(w.mem, env.caps, now);
    var b := DrainBatch(m);
    var taken := Snapshot(m.msgs, HandedSet(w));
    if b.puts == map[] && b.dels == {} then
      w.(mem := Drained(m), clock := Max(w.clock, now), snap := taken)
    else
      w.(mem := Drained(m), clock := Max(w.clock, now), inflight := Some(b), nextSnap := taken)
  }

  function DoCommit(w: World): World
    requires w.inflight.Some?
  {
    w.(disk := ApplyBatch(w.disk, w.inflight.value), inflight := None, snap := w.nextSnap)
  }

  ghost function Do(env: Env, w: World, s: Step): World
    requires Enabled(env, w, s)
  {
    match s
    case Issue => DoIssue(env, w)
    case Store(id, from, publish, interval, now) => DoStore(w, id, from, publish, interval, now)
    case Receive(now) => DoReceive(env, w, now)
    case Get(client, filter, now) => DoGet(env, w, client, filter, now)
    case Drain(now) => DoDrain(env, w, now)
    case Commit => DoCommit(w)
    case CommitFails => w.(inflight := None)   // logged; the drained changes are gone
    case Reopen(now, loaded, start) => Started(w.disk, now, loaded, start)
  }

  ghost predicate Run(env: Env, w: World, steps: seq<Step>)
    decreases |steps|, 0
  {
    steps == [] ||
    var init := steps[..|steps| - 1];
    Run(env, w, init) && Enabled(env, Exec(env, w, init), steps[|steps| - 1])
  }

  ghost function Exec(env: Env, w: World, steps: seq<Step>): World
    requires Run(env, w, steps)
    decreases |steps|, 1
  {
    if steps == [] then w
    else Do(env, Exec(env, w, steps[..|steps| - 1]), steps[|steps| - 1])
  }

  /** Appending one step to a run. */
  lemma OneMore(env: Env, w: World, steps: seq<Step>, s: Step)
    requires Run(env, w, steps) && Enabled(env, Exec(env, w, steps), s)
    ensures Run(env, w, steps + [s]) && Exec(env, w, steps + [s]) == Do(env, Exec(env, w, steps), s)
  {
    assert (steps + [s])[..|steps + [s]| - 1] == steps;
  }

  // ---------------------------------------------------------------- memory against disk

  /** What a reader at time `t` finds under `id`, on disk and in memory. */
  function OnDisk(disk: Disk, t: int, id: Id): Option<StoredMsg> {
    if id in disk && disk[id].Stored? && disk[id].msg.expiryAt > t then Some(disk[id].msg) else None
  }

  function InMemory(msgs: map<Id, StoredMsg>, t: int, id: Id): Option<StoredMsg> {
    if id in msgs && msgs[id].expiryAt > t then Some(msgs[id]) else None
  }

  ghost predicate SameReading(disk: Disk, msgs: map<Id, StoredMsg>, t: int) {
    forall id :: OnDisk(disk, t, id) == InMemory(msgs, t, id)
  }

  lemma SameReadingIff(disk: Disk, msgs: map<Id, StoredMsg>, t: int)
    ensures SameReading(disk, msgs, t) <==> Live(disk, t) == Unexpired(msgs, t)
  {
    forall id ensures OnDisk(disk, t, id) == if id in Live(disk, t) then Some(Live(disk, t)[id]) else None {}
    var m := Unexpired(msgs, t);
    forall id ensures InMemory(msgs, t, id) == if id in m then Some(m[id]) else None {}
  }

  lemma SameReadingLater(disk: Disk, msgs: map<Id, StoredMsg>, t: int, u: int)
    requires SameReading(disk, msgs, t) && t <= u
    ensures SameReading(disk, msgs, u)
  {
    forall id ensures OnDisk(disk, u, id) == InMemory(msgs, u, id) {
      assert OnDisk(disk, t, id) == InMemory(msgs, t, id);
    }
  }

  lemma SameReadingAlways(disk: Disk, msgs: map<Id, StoredMsg>, t: int)
    ensures SameReading(disk, msgs, t) <==> forall u :: t <= u ==> Live(disk, u) == Unexpired(msgs, u)
  {
    if SameReading(disk, msgs, t) {
      forall u | t <= u ensures Live(disk, u) == Unexpired(msgs, u) {
        SameReadingLater(disk, msgs, t, u);
        SameReadingIff(disk, msgs, u);
      }
    } else {
      SameReadingIff(disk, msgs, t);
    }
  }

  /** The disk as it will be once the drain in flight commits. */
  function View(w: World): Disk {
    if w.inflight.Some? then ApplyBatch(w.disk, w.inflight.value) else w.disk
  }

  ghost predicate OnRecord(m: Mem, id: Id) {
    id in m.dirty || id in m.removed
  }

  /** Whatever a reader finds different in memory and on disk is recorded in `dirty` or `removed`. */
  ghost predicate Synced(m: Mem, view: Disk, clock: int) {
    && m.removed !! m.msgs.Keys && m.dirty <= m.msgs.Keys
    && forall id :: !OnRecord(m, id) ==> OnDisk(view, clock, id) == InMemory(m.msgs, clock, id)
  }

  ghost predicate Recoverable(w: World) {
    && Synced(w.mem, View(w), w.clock)
    && SameReading(w.disk, w.snap.msgs, w.clock)
    && (w.inflight.Some? ==> SameReading(View(w), w.nextSnap.msgs, w.clock))
  }

  lemma {:induction false} EvictSynced(m: Mem, caps: Caps, now: int, view: Disk, clock: int)
    requires Synced(m, view, clock)
    ensures Synced(Evict(m, caps, now), view, clock)
    decreases |m.order|
  {
    if MustPop(m, caps, now) {
      PopSynced(m, view, clock);
      EvictSynced(Pop(m), caps, now, view, clock);
    }
  }

  lemma PopSynced(m: Mem, view: Disk, clock: int)
    requires Synced(m, view, clock) && m.order != []
    ensures Synced(Pop(m), view, clock)
  {
    var n := Pop(m);
    forall id | !OnRecord(n, id) ensures OnDisk(view, clock, id) == InMemory(n.msgs, clock, id) {
      assert !OnRecord(m, id);
    }
  }

  lemma InsertSynced(m: Mem, k: Id, msg: StoredMsg, view: Disk, clock: int)
    requires Synced(m, view, clock)
    ensures Synced(Insert(m, k, msg), view, clock)
  {
    var n := Insert(m, k, msg);
    forall id | !OnRecord(n, id) ensures OnDisk(view, clock, id) == InMemory(n.msgs, clock, id) {
      assert !OnRecord(m, id);
    }
  }

  lemma MarkSynced(m: Mem, ids: set<Id>, client: Text, view: Disk, clock: int)
    requires Synced(m, view, clock) && ids <= m.msgs.Keys
    ensures Synced(MarkDelivered(m, ids, client), view, clock)
  {
    var n := MarkDelivered(m, ids, client);
    forall id | !OnRecord(n, id) ensures OnDisk(view, clock, id) == InMemory(n.msgs, clock, id) {
      assert !OnRecord(m, id);
    }
  }

  /** A drained batch makes the disk read like the memory it was taken from; what it writes and
      what it deletes are disjoint. */
  lemma DrainSynced(m: Mem, disk: Disk, clock: int)
    requires Synced(m, disk, clock)
    ensures Synced(Drained(m), ApplyBatch(disk, DrainBatch(m)), clock)
    ensures SameReading(ApplyBatch(disk, DrainBatch(m)), m.msgs, clock)
    ensures DrainBatch(m).puts.Keys !! DrainBatch(m).dels
  {
    var view := ApplyBatch(disk, DrainBatch(m));
    forall id ensures OnDisk(view, clock, id) == InMemory(m.msgs, clock, id) {
      if !OnRecord(m, id) { assert OnDisk(disk, clock, id) == InMemory(m.msgs, clock, id); }
    }
  }

  lemma SyncedLater(m: Mem, view: Disk, t: int, u: int)
    requires Synced(m, view, t) && t <= u
    ensures Synced(m, view, u)
  {
    forall id | !OnRecord(m, id) ensures OnDisk(view, u, id) == InMemory(m.msgs, u, id) {
      assert OnDisk(view, t, id) == InMemory(m.msgs, t, id);
    }
  }

  lemma RecoverableLater(w: World, u: int)
    requires Recoverable(w) && w.clock <= u
    ensures Recoverable(w.(clock := u))
  {
    SyncedLater(w.mem, View(w), w.clock, u);
    SameReadingLater(w.disk, w.snap.msgs, w.clock, u);
    if w.inflight.Some? { SameReadingLater(View(w), w.nextSnap.msgs, w.clock, u); }
  }

  // ---------------------------------------------------------------- failed commits

  /** Every change of batch `b` that a reader at time `t` could see is on record again. */
  ghost predicate Resent(m: Mem, disk: Disk, b: Batch, t: int) {
    forall id :: !OnRecord(m, id) ==> OnDisk(disk, t, id) == OnDisk(ApplyBatch(disk, b), t, id)
  }

  ghost predicate FailureHarmless(w: World, s: Step) {
    s.CommitFails? && w.inflight.Some? ==> Resent(w.mem, w.disk, w.inflight.value, w.clock)
  }

  lemma FailRecoverable(w: World)
    requires Recoverable(w) && w.inflight.Some? && Resent(w.mem, w.disk, w.inflight.value, w.clock)
    ensures Recoverable(w.(inflight := None))
  {
    forall id | !OnRecord(w.mem, id) ensures OnDisk(w.disk, w.clock, id) == InMemory(w.mem.msgs, w.clock, id) {
      assert OnDisk(View(w), w.clock, id) == InMemory(w.mem.msgs, w.clock, id);
    }
  }

  // ---------------------------------------------------------------- every step

  lemma ReceiveRecoverable(env: Env, w: World, now: int)
    requires Recoverable(w) && w.chan != []
    ensures Recoverable(DoReceive(env, w, now))
  {
    var u := Max(w.clock, now);
    RecoverableLater(w, u);
    InsertSynced(w.mem, w.chan[0].0, w.chan[0].1, View(w), u);
    EvictSynced(Insert(w.mem, w.chan[0].0, w.chan[0].1), env.caps, now, View(w), u);
  }

  lemma GetRecoverable(env: Env, w: World, client: Text, filter: Text, now: int)
    requires Recoverable(w)
    ensures Recoverable(DoGet(env, w, client, filter, now))
  {
    var u, m := Max(w.clock, now), Evict(w.mem, env.caps, now);
    RecoverableLater(w, u);
    EvictSynced(w.mem, env.caps, now, View(w), u);
    MarkSynced(m, Hits(m, client, filter, now), client, View(w), u);
  }

  lemma DrainRecoverable(env: Env, w: World, now: int)
    requires Recoverable(w) && w.inflight.None?
    ensures Recoverable(DoDrain(env, w, now))
  {
    var u, m := Max(w.clock, now), Evict(w.mem, env.caps, now);
    RecoverableLater(w, u);
    EvictSynced(w.mem, env.caps, now, w.disk, u);
    DrainSynced(m, w.disk, u);
    if DrainBatch(m) == Batch(map[], {}) { assert ApplyBatch(w.disk, DrainBatch(m)) == w.disk; }
  }

  lemma StartRecoverable(env: Env, disk: Disk, now: int, loaded: Mem, start: nat)
    requires CanStart(env, disk, now, loaded, start)
    ensures Recoverable(Started(disk, now, loaded, start))
  {
    SameReadingIff(disk, loaded.msgs, now);
    assert Unexpired(loaded.msgs, now) == loaded.msgs;
    assert SameReading(disk, loaded.msgs, now);
  }

  lemma StepRecoverable(env: Env, w: World, s: Step)
    requires Recoverable(w) && Enabled(env, w, s) && FailureHarmless(w, s)
    ensures Recoverable(Do(env, w, s))
  {
    match s
    case Issue =>
    case Store(_, _, _, _, now) => RecoverableLater(w, Max(w.clock, now));
    case Receive(now) => ReceiveRecoverable(env, w, now);
    case Get(client, filter, now) => GetRecoverable(env, w, client, filter, now);
    case Drain(now) => DrainRecoverable(env, w, now);
    case Commit =>
    case CommitFails => FailRecoverable(w);
    case Reopen(now, loaded, start) => StartRecoverable(env, w.disk, now, loaded, start);
  }

  /** No failed commit of the run lost a change that could be seen and was not on record again. */
  ghost predicate Reliable(env: Env, w: World, steps: seq<Step>)
    requires Run(env, w, steps)
  {
    steps == [] ||
    var init := steps[..|steps| - 1];
    Reliable(env, w, init) && FailureHarmless(Exec(env, w, init), steps[|steps| - 1])
  }

  lemma {:induction false} RunRecoverable(env: Env, w: World, steps: seq<Step>)
    requires Initial(env, w) && Run(env, w, steps) && Reliable(env, w, steps)
    ensures Recoverable(Exec(env, w, steps))
  {
    if steps == [] {
      StartRecoverable(env, w.disk, w.clock, w.mem, w.counter);
    } else {
      var init := steps[..|steps| - 1];
      RunRecoverable(env, w, init);
      StepRecoverable(env, Exec(env, w, init), steps[|steps| - 1]);
    }
  }

  /** Crash recovery: however stores, deliveries, drains, commits and earlier crashes were
      interleaved, if no failed commit lost a change for good, reopening loads exactly the
      messages of the last committed drain that have not expired, each with the clients it had
      been delivered to by then. */
  lemma CrashRecovery(env: Env, w: World, steps: seq<Step>, now: int, loaded: Mem, start: nat)
    requires Initial(env, w) && Run(env, w, steps) && Reliable(env, w, steps)
    requires Enabled(env, Exec(env, w, steps), Reopen(now, loaded, start))
    ensures loaded.msgs == Unexpired(Exec(env, w, steps).snap.msgs, now)
  {
    var last := Exec(env, w, steps);
    RunRecoverable(env, w, steps);
    SameReadingLater(last.disk, last.snap.msgs, last.clock, now);
    SameReadingIff(last.disk, last.snap.msgs, now);
  }

  // ---------------------------------------------------------------- after a failed commit

  /** Steps that neither touch the disk nor take the change record. */
  predicate Calm(s: Step) { s.Issue? || s.Store? || s.Receive? || s.Get? }

  predicate AllCalm(steps: seq<Step>) {
    forall i :: 0 <= i < |steps| ==> Calm(steps[i])
  }

  lemma {:induction false} CalmRecoverable(env: Env, w: World, b: Batch, steps: seq<Step>)
    requires Run(env, w, steps) && AllCalm(steps) && w.inflight.None? && Recoverable(w.(inflight := Some(b)))
    ensures var e := Exec(env, w, steps);
      e.inflight.None? && e.disk == w.disk && Recoverable(e.(inflight := Some(b)))
  {
    if steps != [] {
      var init, s := steps[..|steps| - 1], steps[|steps| - 1];
      assert Calm(s);
      CalmRecoverable(env, w, b, init);
      var e := Exec(env, w, init);
      StepRecoverable(env, e.(inflight := Some(b)), s);
      assert Do(env, e.(inflight := Some(b)), s) == Do(env, e, s).(inflight := Some(b));
    }
  }

  /** The next flush: a drain, and the commit of its batch unless that is empty. */
  function NextFlush(env: Env, w: World, now: int): World {
    var d := DoDrain(env, w, now);
    if d.inflight.Some? then DoCommit(d) else d
  }

  lemma NextFlushIs(env: Env, w: World, now: int)
    requires w.inflight.None?
    ensures var m, n := Evict(w.mem, env.caps, now), NextFlush(env, w, now);
      && n.mem == Drained(m) && n.disk == ApplyBatch(w.disk, DrainBatch(m))
      && n.inflight.None? && n.chan == w.chan && n.counter == w.counter
  {
    var b := DrainBatch(Evict(w.mem, env.caps, now));
    if b == Batch(map[], {}) { assert ApplyBatch(w.disk, b) == w.disk; }
  }

  /** A second flush at the same moment finds nothing to do. */
  lemma SecondFlushIsEmpty(env: Env, w: World, now: int)
    requires w.inflight.None?
    ensures DoDrain(env, NextFlush(env, w, now), now).inflight.None?
    ensures NextFlush(env, NextFlush(env, w, now), now).disk == NextFlush(env, w, now).disk
  {
    var n := Drained(Evict(w.mem, env.caps, now));
    NextFlushIs(env, w, now);
    EvictReaches(w.mem, env.caps, now);
    assert !MustPop(n, env.caps, now);
    assert DrainBatch(n) == Batch(map[], {});
  }

  lemma FlushReadsIff(m: Mem, disk: Disk, b: Batch, t: int)
    requires Synced(m, ApplyBatch(disk, b), t)
    ensures SameReading(ApplyBatch(disk, DrainBatch(m)), m.msgs, t) <==> Resent(m, disk, b, t)
  {
    var after := ApplyBatch(disk, DrainBatch(m));
    forall id ensures OnRecord(m, id) ==> OnDisk(after, t, id) == InMemory(m.msgs, t, id) {}
    forall id | !OnRecord(m, id)
      ensures OnDisk(after, t, id) == OnDisk(disk, t, id)
      ensures OnDisk(ApplyBatch(disk, b), t, id) == InMemory(m.msgs, t, id)
    {}
    if SameReading(after, m.msgs, t) {
      forall id | !OnRecord(m, id) ensures OnDisk(disk, t, id) == OnDisk(ApplyBatch(disk, b), t, id) {
        assert OnDisk(after, t, id) == InMemory(m.msgs, t, id);
      }
    }
    if Resent(m, disk, b, t) {
      forall id ensures OnDisk(after, t, id) == InMemory(m.msgs, t, id) {
        if !OnRecord(m, id) { assert OnDisk(disk, t, id) == OnDisk(ApplyBatch(disk, b), t, id); }
      }
    }
  }

  /** After a failed commit, and any stores and deliveries that follow it, the next flush brings
      the disk up to date - whenever the store is then reopened it finds exactly the unexpired
      memory - if and only if every visible change of the lost batch was on record again. */
  lemma FailedCommitHarmlessIff(env: Env, w: World, steps: seq<Step>, now: int)
    requires Recoverable(w) && w.inflight.Some?
    requires Run(env, Do(env, w, CommitFails), steps) && AllCalm(steps)
    ensures var e := Exec(env, Do(env, w, CommitFails), steps);
      var m := Evict(e.mem, env.caps, now);
      var n := NextFlush(env, e, now);
      (forall t :: n.clock <= t ==> Live(n.disk, t) == Unexpired(m.msgs, t))
        <==> Resent(m, w.disk, w.inflight.value, n.clock)
  {
    var b, e := w.inflight.value, Exec(env, Do(env, w, CommitFails), steps);
    var m, n := Evict(e.mem, env.caps, now), NextFlush(env, e, now);
    assert Do(env, w, CommitFails).(inflight := Some(b)) == w;
    CalmRecoverable(env, Do(env, w, CommitFails), b, steps);
    var view := ApplyBatch(w.disk, b);
    RecoverableLater(e.(inflight := Some(b)), n.clock);
    EvictSynced(e.mem, env.caps, now, view, n.clock);
    NextFlushIs(env, e, now);
    FlushReadsIff(m, w.disk, b, n.clock);
    SameReadingAlways(n.disk, m.msgs, n.clock);
  }

  const EMPTY := Mem(map[], [], map[], 0, {}, {})

  lemma ReceiveOne(msg: StoredMsg, now: int)
    requires msg.expiryAt > now
    ensures var m := Evict(Insert(EMPTY, 0, msg), Caps(0, 0), now);
      && m == Insert(EMPTY, 0, msg) && m.msgs == map[0 := msg] && m.order == [0]
      && Evict(m, Caps(0, 0), now) == m && Evict(Drained(m), Caps(0, 0), now) == Drained(m)
      && DrainBatch(m).puts == map[0 := msg]
      && DrainBatch(Drained(m)) == Batch(map[], {})
  {
    var m := Insert(EMPTY, 0, msg);
    assert m.order == [0] && m.msgs == map[0 := msg];
    assert 0 in DrainBatch(m).puts;
  }

  lemma EmptyStarts(env: Env)
    ensures Initial(env, Started(map[], 0, EMPTY, 0))
  {
    assert IndexOf(EMPTY.msgs) == map[];
    assert Live(map[], 0) == EMPTY.msgs;
  }

  lemma IssueStoreReceive(env: Env, w: World, id: Id, publish: Publish) returns (steps: seq<Step>)
    requires w.chan == []
    ensures steps == [Issue, Store(id, "", publish, 10, 0), Receive(0)] && Run(env, w, steps)
    ensures Exec(env, w, steps) == DoReceive(env, DoStore(DoIssue(env, w), id, "", publish, 10, 0), 0)
  {
    var store := Store(id, "", publish, 10, 0);
    OneMore(env, w, [], Issue);
    OneMore(env, w, [] + [Issue], store);
    OneMore(env, w, [] + [Issue] + [store], Receive(0));
    steps := [] + [Issue] + [store] + [Receive(0)];
  }

  /** From an empty disk and without limits, one message is issued an id, stored and received. */
  lemma OneReceived(env: Env, publish: Publish) returns (w: World, steps: seq<Step>, msg: StoredMsg)
    requires env.caps == Caps(0, 0)
    ensures Initial(env, w) && Run(env, w, steps) && w.disk == map[]
    ensures steps == [Issue, Store(0, "", publish, 10, 0), Receive(0)]
    ensures var e := Exec(env, w, steps);
      && e.mem == Insert(EMPTY, 0, msg) && e.disk == map[] && e.inflight.None?
      && msg.expiryAt > e.clock == 0
  {
    w, msg := Started(map[], 0, EMPTY, 0), StoredMsg("", publish, 10, {});
    EmptyStarts(env);
    steps := IssueStoreReceive(env, w, 0, publish);
    ReceiveOne(msg, 0);
  }

  /** A drain that fails to commit, and the flush after it. */
  lemma FailAndFlush(env: Env, w: World, msg: StoredMsg)
    requires env.caps == Caps(0, 0) && msg.expiryAt > w.clock == 0
    requires w.mem == Insert(EMPTY, 0, msg) && w.disk == map[] && w.inflight.None?
    ensures var d := DoDrain(env, w, 0); var e := DoDrain(env, d.(inflight := None), 0);
      && d.inflight.Some? && e.inflight.None? && e.disk == map[] && e.clock == 0
      && e.mem.msgs == map[0 := msg] == e.snap.msgs && DrainBatch(e.mem) == Batch(map[], {})
  {
    ReceiveOne(msg, 0);
  }

  lemma FailAndFlushRun(env: Env, w: World, init: seq<Step>, msg: StoredMsg) returns (steps: seq<Step>)
    requires env.caps == Caps(0, 0) && Run(env, w, init)
    requires var e := Exec(env, w, init);
      e.mem == Insert(EMPTY, 0, msg) && e.disk == map[] && e.inflight.None? && msg.expiryAt > e.clock == 0
    ensures steps == init + [Drain(0)] + [CommitFails] + [Drain(0)] && Run(env, w, steps)
    ensures var e := Exec(env, w, steps);
      && e.inflight.None? && e.disk == map[] && e.clock == 0
      && e.mem.msgs == map[0 := msg] == e.snap.msgs && DrainBatch(e.mem) == Batch(map[], {})
  {
    FailAndFlush(env, Exec(env, w, init), msg);
    OneMore(env, w, init, Drain(0));
    OneMore(env, w, init + [Drain(0)], CommitFails);
    OneMore(env, w, init + [Drain(0)] + [CommitFails], Drain(0));
    steps := init + [Drain(0)] + [CommitFails] + [Drain(0)];
  }

  /** For instance, from an empty disk: one message is stored and received, its drain fails to
      commit, and the next flush finds nothing to do. The message is live in memory and in the
      snapshot of that flush; the disk is empty. */
  lemma FailedCommitForgets() returns (env: Env, w: World, init: seq<Step>, steps: seq<Step>, msg: StoredMsg)
    ensures Initial(env, w) && Run(env, w, steps) && w.disk == map[]
    ensures init == [Issue, Store(0, "", Publish("a", []), 10, 0), Receive(0)]
    ensures steps == init + [Drain(0)] + [CommitFails] + [Drain(0)]
    ensures var e := Exec(env, w, steps);
      && e.mem.msgs == map[0 := msg] == e.snap.msgs && msg.expiryAt > e.clock && e.inflight.None?
      && DrainBatch(e.mem) == Batch(map[], {}) && e.disk == map[]
  {
    env := Env(0, Caps(0, 0));
    w, init, msg := OneReceived(env, Publish("a", []));
    steps := FailAndFlushRun(env, w, init, msg);
  }
}
