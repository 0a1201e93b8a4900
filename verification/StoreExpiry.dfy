/** Expiry over disciplined runs in which every store uses the same interval. Stores read the
    clock before they reach the channel, so they may arrive out of order by a bounded lag. */
module StoreExpiry {
  import opened Options
  import opened Topic
  import opened MemModel
  import opened StoreModel
  import opened StoreRuns
  import opened StoreHistory

  /** Queue in expiry order up to the lag, and nothing in memory outlasting by more a message that
      is still in the channel. */
  ghost predicate MemTimed(m: Mem, chan: seq<Message>, limit: int, lag: nat) {
    && SortedWithin(m, lag)
    && (forall id, i :: id in m.msgs && 0 <= i < |chan| ==> m.msgs[id].expiryAt <= chan[i].1.expiryAt + lag)
    && (forall id :: id in m.msgs ==> m.msgs[id].expiryAt <= limit)
  }

  ghost predicate ChanTimed(chan: seq<Message>, limit: int, lag: nat) {
    && (forall i, j :: 0 <= i < j < |chan| ==> chan[i].1.expiryAt <= chan[j].1.expiryAt + lag)
    && (forall i :: 0 <= i < |chan| ==> chan[i].1.expiryAt <= limit)
  }

  ghost predicate RowsWithin(disk: Disk, limit: int) {
    forall id :: id in disk && disk[id].Stored? ==> disk[id].msg.expiryAt <= limit
  }

  ghost predicate InTimeOrder(w: World, interval: nat, lag: nat) {
    var limit := ExpiryAt(w.clock, interval);
    && MemTimed(w.mem, w.chan, limit, lag) && ChanTimed(w.chan, limit, lag)
    && RowsWithin(View(w), limit) && RowsWithin(w.disk, limit)
  }

  /** A store uses the common interval, and read the clock no more than `lag` ago. */
  ghost predicate Punctual(w: World, s: Step, interval: nat, lag: nat) {
    s.Store? ==> s.interval == interval && w.clock - lag <= s.now
  }

  ghost predicate PunctualRun(env: Env, w: World, steps: seq<Step>, interval: nat, lag: nat)
    requires Run(env, w, steps)
  {
    steps == [] ||
    var init := steps[..|steps| - 1];
    PunctualRun(env, w, init, interval, lag) && Punctual(Exec(env, w, init), steps[|steps| - 1], interval, lag)
  }

  lemma EvictTimed(m: Mem, caps: Caps, now: int, chan: seq<Message>, limit: int, lag: nat)
    requires MemTimed(m, chan, limit, lag)
    ensures MemTimed(Evict(m, caps, now), chan, limit, lag)
  {
    EvictShape(m, caps, now);
    SuffixSorted(m, Evict(m, caps, now), lag);
  }

  lemma SuffixSorted(m: Mem, n: Mem, lag: nat)
    requires SortedWithin(m, lag) && Suffix(n.order, m.order)
    requires forall id :: id in n.msgs ==> id in m.msgs && n.msgs[id] == m.msgs[id]
    ensures SortedWithin(n, lag)
  {
    var d := |m.order| - |n.order|;
    forall i, j | 0 <= i < j < |n.order| && n.order[i] in n.msgs && n.order[j] in n.msgs
      ensures n.msgs[n.order[i]].expiryAt <= n.msgs[n.order[j]].expiryAt + lag
    {
      assert n.order[i] == m.order[d + i] && n.order[j] == m.order[d + j];
    }
  }

  lemma InsertTimed(m: Mem, chan: seq<Message>, limit: int, lag: nat)
    requires MemTimed(m, chan, limit, lag) && ChanTimed(chan, limit, lag)
    requires chan != [] && chan[0].0 !in m.msgs && chan[0].0 !in m.order
    ensures MemTimed(Insert(m, chan[0].0, chan[0].1), chan[1..], limit, lag)
  {
    var (k, msg) := chan[0];
    var n := Insert(m, k, msg);
    forall i, j | 0 <= i < j < |n.order| && n.order[i] in n.msgs && n.order[j] in n.msgs
      ensures n.msgs[n.order[i]].expiryAt <= n.msgs[n.order[j]].expiryAt + lag
    {
      assert n.order[i] == m.order[i] && m.order[i] != k;
      if j < |m.order| { assert n.order[j] == m.order[j] && m.order[j] != k; }
    }
    forall id, i | id in n.msgs && 0 <= i < |chan[1..]|
      ensures n.msgs[id].expiryAt <= chan[1..][i].1.expiryAt + lag
    {
      assert chan[1..][i] == chan[i + 1];
    }
  }

  lemma MarkTimed(m: Mem, ids: set<Id>, client: Text, chan: seq<Message>, limit: int, lag: nat)
    requires MemTimed(m, chan, limit, lag)
    ensures MemTimed(MarkDelivered(m, ids, client), chan, limit, lag)
  {}

  lemma Later(w: World, u: int, interval: nat, lag: nat)
    requires InTimeOrder(w, interval, lag) && w.clock <= u
    ensures InTimeOrder(w.(clock := u), interval, lag)
  {
    assert ExpiryAt(w.clock, interval) <= ExpiryAt(u, interval);
  }

  lemma StoreInTimeOrder(w: World, id: Id, from: Text, publish: Publish, interval: nat, now: int, lag: nat)
    requires InTimeOrder(w, interval, lag) && w.clock - lag <= now
    ensures InTimeOrder(DoStore(w, id, from, publish, interval, now), interval, lag)
  {
    var limit := ExpiryAt(w.clock, interval);
    var n := DoStore(w, id, from, publish, interval, now);
    Later(w, n.clock, interval, lag);
    assert limit <= ExpiryAt(now, interval) + lag;
    assert ExpiryAt(now, interval) <= ExpiryAt(n.clock, interval);
    forall i, j | 0 <= i < j < |n.chan| ensures n.chan[i].1.expiryAt <= n.chan[j].1.expiryAt + lag {
      assert n.chan[i] == w.chan[i];
    }
  }

  lemma ReceiveTimed(w: World, interval: nat, lag: nat)
    requires Apart(w) && Elems(w.mem.order) <= w.mem.msgs.Keys && InTimeOrder(w, interval, lag) && w.chan != []
    ensures MemTimed(Insert(w.mem, w.chan[0].0, w.chan[0].1), w.chan[1..], ExpiryAt(w.clock, interval), lag)
  {
    ReceivedIsNew(w);
    assert w.chan[0].0 !in Elems(w.mem.order);
    InsertTimed(w.mem, w.chan, ExpiryAt(w.clock, interval), lag);
  }

  lemma ReceiveInTimeOrder(env: Env, w: World, now: int, interval: nat, lag: nat)
    requires Apart(w) && Elems(w.mem.order) <= w.mem.msgs.Keys && InTimeOrder(w, interval, lag) && w.chan != []
    ensures InTimeOrder(DoReceive(env, w, now), interval, lag)
  {
    var limit := ExpiryAt(w.clock, interval);
    var (k, msg) := w.chan[0];
    ReceiveTimed(w, interval, lag);
    EvictTimed(Insert(w.mem, k, msg), env.caps, now, w.chan[1..], limit, lag);
    var n := DoReceive(env, w, now);
    assert ChanTimed(w.chan[1..], limit, lag);
    Later(n.(clock := w.clock), n.clock, interval, lag);
  }

  lemma GetInTimeOrder(env: Env, w: World, client: Text, filter: Text, now: int, interval: nat, lag: nat)
    requires InTimeOrder(w, interval, lag)
    ensures InTimeOrder(DoGet(env, w, client, filter, now), interval, lag)
  {
    var limit, m := ExpiryAt(w.clock, interval), Evict(w.mem, env.caps, now);
    EvictTimed(w.mem, env.caps, now, w.chan, limit, lag);
    MarkTimed(m, Hits(m, client, filter, now), client, w.chan, limit, lag);
    var n := DoGet(env, w, client, filter, now);
    Later(n.(clock := w.clock), n.clock, interval, lag);
  }

  lemma BatchWithin(disk: Disk, m: Mem, limit: int)
    requires RowsWithin(disk, limit) && forall id :: id in m.msgs ==> m.msgs[id].expiryAt <= limit
    ensures RowsWithin(ApplyBatch(disk, DrainBatch(m)), limit)
  {
    var after := ApplyBatch(disk, DrainBatch(m));
    forall id | id in after && after[id].Stored? ensures after[id].msg.expiryAt <= limit {}
  }

  lemma DrainParts(env: Env, w: World, now: int)
    requires w.inflight.None?
    ensures var m, n := Evict(w.mem, env.caps, now), DoDrain(env, w, now);
      && n.mem == Drained(m) && n.chan == w.chan && n.disk == w.disk && w.clock <= n.clock
      && (View(n) == w.disk || View(n) == ApplyBatch(w.disk, DrainBatch(m)))
  {}

  lemma LaterParts(w: World, n: World, interval: nat, lag: nat)
    requires var limit := ExpiryAt(w.clock, interval);
      && w.clock <= n.clock && MemTimed(n.mem, n.chan, limit, lag) && ChanTimed(n.chan, limit, lag)
      && RowsWithin(View(n), limit) && RowsWithin(n.disk, limit)
    ensures InTimeOrder(n, interval, lag)
  {
    assert ExpiryAt(w.clock, interval) <= ExpiryAt(n.clock, interval);
  }

  lemma DrainInTimeOrder(env: Env, w: World, now: int, interval: nat, lag: nat)
    requires InTimeOrder(w, interval, lag) && w.inflight.None?
    ensures InTimeOrder(DoDrain(env, w, now), interval, lag)
  {
    var limit, m := ExpiryAt(w.clock, interval), Evict(w.mem, env.caps, now);
    EvictTimed(w.mem, env.caps, now, w.chan, limit, lag);
    BatchWithin(w.disk, m, limit);
    DrainParts(env, w, now);
    LaterParts(w, DoDrain(env, w, now), interval, lag);
  }

  lemma StartInTimeOrder(disk: Disk, now: int, loaded: Mem, start: nat, interval: nat, lag: nat)
    requires IsOpened(loaded, disk, now) && RowsWithin(disk, ExpiryAt(now, interval))
    ensures InTimeOrder(Started(disk, now, loaded, start), interval, lag)
  {
    OpenedIsValid(loaded, disk, now);
  }

  lemma CommitInTimeOrder(w: World, interval: nat, lag: nat)
    requires InTimeOrder(w, interval, lag) && w.inflight.Some?
    ensures InTimeOrder(DoCommit(w), interval, lag) && InTimeOrder(w.(inflight := None), interval, lag)
  {}

  lemma StepInTimeOrder(env: Env, w: World, s: Step, interval: nat, lag: nat)
    requires Apart(w) && Valid(w.mem) && InTimeOrder(w, interval, lag)
    requires Enabled(env, w, s) && Punctual(w, s, interval, lag)
    ensures InTimeOrder(Do(env, w, s), interval, lag)
  {
    match s
    case Issue =>
    case Store(id, from, publish, _, now) => StoreInTimeOrder(w, id, from, publish, interval, now, lag);
    case Receive(now) => ReceiveInTimeOrder(env, w, now, interval, lag);
    case Get(client, filter, now) => GetInTimeOrder(env, w, client, filter, now, interval, lag);
    case Drain(now) => DrainInTimeOrder(env, w, now, interval, lag);
    case Commit => CommitInTimeOrder(w, interval, lag);
    case CommitFails => CommitInTimeOrder(w, interval, lag);
    case Reopen(now, loaded, start) =>
      Later(w, now, interval, lag);
      StartInTimeOrder(w.disk, now, loaded, start, interval, lag);
  }

  lemma {:induction false} RunInTimeOrder(env: Env, w: World, steps: seq<Step>, interval: nat, lag: nat)
    requires env.node < MAX_NODE && Initial(env, w) && DisciplinedRun(env, w, steps)
    requires PunctualRun(env, w, steps, interval, lag) && RowsWithin(w.disk, ExpiryAt(w.clock, interval))
    ensures InTimeOrder(Exec(env, w, steps), interval, lag)
  {
    if steps == [] {
      StartInTimeOrder(w.disk, w.clock, w.mem, w.counter, interval, lag);
    } else {
      var init := steps[..|steps| - 1];
      RunInTimeOrder(env, w, init, interval, lag);
      RunIds(env, w, init);
      DisciplinedIsSteady(env, w, init);
      MemoryStaysValid(env, w, init);
      StepInTimeOrder(env, Exec(env, w, init), steps[|steps| - 1], interval, lag);
    }
  }

  lemma ReceiveClearsExpired(env: Env, w: World, now: int, interval: nat, lag: nat)
    requires Apart(w) && Valid(w.mem) && InTimeOrder(w, interval, lag)
    requires w.chan != [] && Fits(w.mem, w.chan[0].0, w.chan[0].1)
    ensures NoneExpired(DoReceive(env, w, now).mem, now - lag)
  {
    ReceivedIsNew(w);
    ReceiveTimed(w, interval, lag);
    InsertKeepsValid(w.mem, w.chan[0].0, w.chan[0].1);
    SortedEvictsExpired(Insert(w.mem, w.chan[0].0, w.chan[0].1), lag, env.caps, now);
  }

  lemma QueryClearsExpired(env: Env, w: World, client: Text, filter: Text, now: int, lag: nat)
    requires Valid(w.mem) && SortedWithin(w.mem, lag)
    ensures NoneExpired(DoGet(env, w, client, filter, now).mem, now - lag)
    ensures NoneExpired(DoDrain(env, w, now).mem, now - lag)
  {
    SortedEvictsExpired(w.mem, lag, env.caps, now);
  }

  lemma StepClearsExpired(env: Env, w: World, s: Step, interval: nat, lag: nat)
    requires Apart(w) && Valid(w.mem) && InTimeOrder(w, interval, lag) && Enabled(env, w, s)
    requires Disciplined(w, s) && Evicts(s)
    ensures NoneExpired(Do(env, w, s).mem, s.now - lag)
  {
    match s
    case Receive(now) => ReceiveClearsExpired(env, w, now, interval, lag);
    case Get(client, filter, now) => QueryClearsExpired(env, w, client, filter, now, lag);
    case Drain(now) => QueryClearsExpired(env, w, "", "", now, lag);
  }

  /** When all stores use one expiry interval and arrive with a lag of at most `lag`, every
      eviction leaves nothing that had expired by that much earlier, even though it stops at the
      first live message; with no lag, nothing expired at all. */
  lemma ExpiryIsComplete(env: Env, w: World, steps: seq<Step>, interval: nat, lag: nat)
    requires env.node < MAX_NODE && Initial(env, w) && DisciplinedRun(env, w, steps)
    requires PunctualRun(env, w, steps, interval, lag) && RowsWithin(w.disk, ExpiryAt(w.clock, interval))
    requires steps != [] && Evicts(steps[|steps| - 1])
    ensures NoneExpired(Exec(env, w, steps).mem, steps[|steps| - 1].now - lag)
  {
    var init := steps[..|steps| - 1];
    RunIds(env, w, init);
    DisciplinedIsSteady(env, w, init);
    MemoryStaysValid(env, w, init);
    RunInTimeOrder(env, w, init, interval, lag);
    StepClearsExpired(env, Exec(env, w, init), steps[|steps| - 1], interval, lag);
  }
}
