/** The message store of src/msgstore.rs as it runs: state updated in place. */
module MsgStore {
  import opened Topic
  import opened MemModel
  import opened StoreModel
  import opened Options
  import Runs = StoreRuns

  /** The ids of a hash set, in whatever order it yields them. */
  method Iterate(s: set<Id>) returns (q: seq<Id>)
    ensures NoDup(q) && Elems(q) == s
  {
    q := [];
    var rest := s;
    while rest != {}
      invariant NoDup(q) && Elems(q) + rest == s && Elems(q) !! rest
      decreases rest
    {
      var id :| id in rest;
      assert Elems(q + [id]) == Elems(q) + {id};
      assert id !in Elems(q);
      q, rest := q + [id], rest - {id};
    }
  }

  lemma {:induction false} DistinctCard(s: seq<Id>)
    requires NoDup(s)
    ensures |Elems(s)| == |s|
  {
    if s != [] {
      var init, last := s[..|s| - 1], s[|s| - 1];
      DistinctCard(init);
      assert s == init + [last];
      assert Elems(s) == Elems(init) + {last};
      assert last !in Elems(init);
    }
  }

  /** `entries.sort_unstable()` on (expiry, id) pairs. */
  function SortEntries(msgs: map<Id, StoredMsg>, ids: seq<Id>): (r: seq<Id>)
    requires forall i :: 0 <= i < |ids| ==> ids[i] in msgs
    requires NoDup(ids)
    ensures SortedIds(msgs, r) && Elems(r) == Elems(ids)
  {
    if ids == [] then []
    else
      var r := SortEntries(msgs, ids[1..]);
      assert Elems(ids) == {ids[0]} + Elems(ids[1..]);
      assert ids[0] !in Elems(ids[1..]);
      Place(msgs, ids[0], r)
  }

  function Place(msgs: map<Id, StoredMsg>, id: Id, sorted: seq<Id>): (r: seq<Id>)
    requires id in msgs && SortedIds(msgs, sorted) && id !in Elems(sorted)
    ensures SortedIds(msgs, r) && Elems(r) == {id} + Elems(sorted)
  {
    if sorted == [] || Before(msgs, id, sorted[0]) then
      assert Elems([id] + sorted) == {id} + Elems(sorted);
      [id] + sorted
    else
      var r := Place(msgs, id, sorted[1..]);
      assert Elems(sorted) == {sorted[0]} + Elems(sorted[1..]);
      assert Elems([sorted[0]] + r) == {sorted[0]} + Elems(r);
      assert forall i :: 0 <= i < |r| ==> r[i] in Elems(r);
      assert forall x :: x in Elems(sorted[1..]) ==> Before(msgs, sorted[0], x);
      [sorted[0]] + r
  }

  lemma KeptSnoc(msgs: map<Id, StoredMsg>, s: seq<Id>, i: nat)
    requires i < |s|
    ensures Kept(msgs, s[..i + 1]) == if s[i] in msgs then Kept(msgs, s[..i])[s[i] := msgs[s[i]]]
                                      else Kept(msgs, s[..i])
    ensures NoDup(s) ==> s[i] !in Kept(msgs, s[..i])
  {
    assert s[..i + 1] == s[..i] + [s[i]];
  }

  lemma KeptAll(msgs: map<Id, StoredMsg>, s: seq<Id>)
    requires msgs.Keys <= Elems(s)
    ensures Kept(msgs, s[..|s|]) == msgs
  {
    assert s[..|s|] == s;
    assert forall id :: id in msgs ==> id in Elems(s);
  }

  lemma PutRow(table: Disk, puts: map<Id, StoredMsg>, id: Id, m: StoredMsg)
    ensures ApplyBatch(table, Batch(puts[id := m], {})) == ApplyBatch(table, Batch(puts, {}))[id := Stored(m)]
  {}

  /** The read loop of open: the live messages and the first free counter value. */
  method LoadRows(rows: Disk, nodeId: nat, now: int) returns (msgs: map<Id, StoredMsg>, start: nat)
    ensures msgs == Live(rows, now) && IsStart(start, rows, nodeId)
  {
    msgs, start := map[], 0;
    var keys := Iterate(rows.Keys);
    ghost var live := Live(rows, now);
    for i := 0 to |keys|
      invariant msgs == Kept(live, keys[..i])
      invariant forall j :: 0 <= j < i && NodeOf(keys[j]) == nodeId ==> LowPart(keys[j]) < start
      invariant start == 0 || exists id :: id in rows && NodeOf(id) == nodeId && LowPart(id) + 1 == start
    {
      var id := keys[i];
      assert id in Elems(keys);
      KeptSnoc(live, keys, i);
      if NodeOf(id) == nodeId {
        var c := LowPart(id) + 1;
        if c > start { start := c; }
      }
      if rows[id].Stored? && rows[id].msg.expiryAt > now {
        msgs := msgs[id := rows[id].msg];
      }
    }
    KeptAll(live, keys);
    forall id | id in rows && NodeOf(id) == nodeId ensures LowPart(id) < start {
      assert id in Elems(keys);
      var j :| 0 <= j < |keys| && keys[j] == id;
    }
  }

  lemma OneMoreCounted(msgs: map<Id, StoredMsg>, ids: seq<Id>, i: nat)
    requires NoDup(ids) && i < |ids| && ids[i] in msgs
    ensures var seen, m := Kept(msgs, ids[..i]), msgs[ids[i]];
      && SumSizes(Kept(msgs, ids[..i + 1])) == SumSizes(seen) + ApproxSize(m)
      && IndexOf(Kept(msgs, ids[..i + 1])) == AddToIndex(IndexOf(seen), m.publish.topic, ids[i])
  {
    var seen, id := Kept(msgs, ids[..i]), ids[i];
    KeptSnoc(msgs, ids, i);
    assert seen - {id} == seen;
    IndexAfterPut(seen, id, msgs[id]);
    SumPut(seen, id, msgs[id]);
  }

  /** The running total and the topic index open rebuilds from the loaded messages. */
  method Summarize(msgs: map<Id, StoredMsg>, ids: seq<Id>)
    returns (bytes: nat, byTopic: map<Text, set<Id>>)
    requires NoDup(ids) && Elems(ids) == msgs.Keys
    ensures bytes == SumSizes(msgs) && byTopic == IndexOf(msgs)
  {
    bytes, byTopic := 0, map[];
    for i := 0 to |ids|
      invariant bytes == SumSizes(Kept(msgs, ids[..i])) && byTopic == IndexOf(Kept(msgs, ids[..i]))
    {
      var id := ids[i];
      assert id in Elems(ids);
      var m := msgs[id];
      OneMoreCounted(msgs, ids, i);
      bytes := bytes + ApproxSize(m);
      byTopic := AddToIndex(byTopic, m.publish.topic, id);
    }
    KeptAll(msgs, ids);
  }

  /** The encoding loop of flush: the dirty messages that are still in memory. */
  method CollectDirty(msgs: map<Id, StoredMsg>, ids: set<Id>) returns (puts: map<Id, StoredMsg>)
    ensures puts == map id | id in ids && id in msgs :: msgs[id]
  {
    var dirty := Iterate(ids);
    puts := map[];
    for i := 0 to |dirty|
      invariant puts == Kept(msgs, dirty[..i])
    {
      KeptSnoc(msgs, dirty, i);
      if dirty[i] in msgs {
        puts := puts[dirty[i] := msgs[dirty[i]]];
      }
    }
    assert dirty[..|dirty|] == dirty;
    assert forall id :: id in ids <==> id in Elems(dirty);
  }

  method DeleteRows(table: Disk, ids: set<Id>) returns (t: Disk)
    ensures t == table - ids
  {
    t := table;
    var dels := Iterate(ids);
    for i := 0 to |dels|
      invariant t == table - Elems(dels[..i])
    {
      assert dels[..i + 1] == dels[..i] + [dels[i]];
      t := t - {dels[i]};
    }
    assert dels[..|dels|] == dels;
  }

  method InsertRows(table: Disk, puts: map<Id, StoredMsg>) returns (t: Disk)
    ensures t == ApplyBatch(table, Batch(puts, {}))
  {
    t := table;
    var ids := Iterate(puts.Keys);
    for i := 0 to |ids|
      invariant t == ApplyBatch(table, Batch(Kept(puts, ids[..i]), {}))
    {
      var id := ids[i];
      assert id in Elems(ids);
      KeptSnoc(puts, ids, i);
      PutRow(table, Kept(puts, ids[..i]), id, puts[id]);
      t := t[id := Stored(puts[id])];
    }
    KeptAll(puts, ids);
  }

  class MemState {
    var msgs: map<Id, StoredMsg>
    var order: seq<Id>
    var byTopic: map<Text, set<Id>>
    var bytes: nat
    var dirty: set<Id>
    var removed: set<Id>

    ghost function Model(): Mem
      reads this
    {
      Mem(msgs, order, byTopic, bytes, dirty, removed)
    }

    constructor (msgs: map<Id, StoredMsg>, order: seq<Id>, byTopic: map<Text, set<Id>>, bytes: nat)
      ensures Model() == Mem(msgs, order, byTopic, bytes, {}, {})
    {
      this.msgs, this.order, this.byTopic, this.bytes := msgs, order, byTopic, bytes;
      dirty, removed := {}, {};
    }

    /** The loop body of evict: take the front of the queue out of every structure. */
    method PopFront()
      requires order != []
      modifies this
      ensures Model() == Pop(old(Model()))
    {
      var id := order[0];
      order := order[1..];
      if id in msgs {
        var m := msgs[id];
        msgs := msgs - {id};
        bytes := SatSub(bytes, ApproxSize(m));
        dirty := dirty - {id};
        removed := removed + {id};
        var topic := m.publish.topic;
        if topic in byTopic {
          var ids := byTopic[topic] - {id};
          if ids == {} {
            byTopic := byTopic - {topic};
          } else {
            byTopic := byTopic[topic := ids];
          }
        }
      }
    }

    method Evict(now: int, maxMsgs: nat, maxBytes: nat)
      modifies this
      ensures Model() == MemModel.Evict(old(Model()), Caps(maxMsgs, maxBytes), now)
    {
      ghost var caps := Caps(maxMsgs, maxBytes);
      while order != []
        invariant MemModel.Evict(Model(), caps, now) == MemModel.Evict(old(Model()), caps, now)
        decreases |order|
      {
        var id := order[0];
        var overCap := (maxMsgs > 0 && |msgs| > maxMsgs) || (maxBytes > 0 && bytes > maxBytes);
        var expired := if id in msgs then msgs[id].expiryAt <= now else true;
        if !overCap && !expired { break; }
        PopFront();
      }
    }
  }

  /** The list handed out, entry by entry and as a set. */
  lemma AnswerSet(msgs: map<Id, StoredMsg>, hits: set<Id>, touched: seq<Id>, out: seq<(Id, Text, Publish)>)
    requires hits <= msgs.Keys && Elems(touched) == hits && NoDup(touched) && |out| == |touched|
    requires forall k :: 0 <= k < |out| ==> touched[k] in msgs
    requires forall k :: 0 <= k < |out| ==> out[k] == (touched[k], msgs[touched[k]].from, msgs[touched[k]].publish)
    ensures forall i, j :: 0 <= i < j < |out| ==> out[i].0 != out[j].0
    ensures forall i :: 0 <= i < |out| ==> out[i].0 in hits
    ensures forall i :: 0 <= i < |out| ==> out[i] == (out[i].0, msgs[out[i].0].from, msgs[out[i].0].publish)
    ensures forall id :: id in hits ==> exists i :: 0 <= i < |out| && out[i].0 == id
    ensures Elems(out) == set id | id in hits :: (id, msgs[id].from, msgs[id].publish)
  {
    forall i | 0 <= i < |out| ensures out[i].0 in hits { assert touched[i] in Elems(touched); }
    forall id | id in hits
      ensures (id, msgs[id].from, msgs[id].publish) in Elems(out) && exists i :: 0 <= i < |out| && out[i].0 == id
    {
      assert id in Elems(touched);
      var i :| 0 <= i < |touched| && touched[i] == id;
      assert out[i] in out && out[i].0 == id;
    }
  }

  class RedbMessageStore {
    var db: Disk
    const nodeId: nat
    var counter: nat
    const state: MemState
    const maxMsgs: nat
    const maxBytes: nat
    var queue: seq<(Id, StoredMsg)>

    ghost function Limits(): Caps { Caps(maxMsgs, maxBytes) }

    /** The store is where the run says it is. */
    ghost predicate Shows(w: Runs.World)
      reads this, state
    {
      w.mem == state.Model() && w.disk == db && w.chan == queue && w.counter == counter
    }

    /** Step `s` may happen in `w`, and the store has taken it. */
    ghost predicate Took(w: Runs.World, s: Runs.Step)
      reads this, state
    {
      Runs.Enabled(RunEnv(), w, s) ==> Shows(Runs.Do(RunEnv(), w, s))
    }

    ghost function RunEnv(): Runs.Env { Runs.Env(nodeId, Limits()) }

    constructor Open(rows: Disk, nodeId: nat, now: int, maxMsgs: nat, maxBytes: nat)
      ensures fresh(state)
      ensures IsOpened(state.Model(), rows, now) && IsStart(counter, rows, nodeId)
      ensures db == rows && queue == []
      ensures Shows(Runs.Started(rows, now, state.Model(), counter))
      ensures Runs.CanStart(RunEnv(), rows, now, state.Model(), counter)
      ensures this.nodeId == nodeId && this.maxMsgs == maxMsgs && this.maxBytes == maxBytes
    {
      var msgs, start := LoadRows(rows, nodeId, now);
      var ids := Iterate(msgs.Keys);
      assert forall i :: 0 <= i < |ids| ==> ids[i] in Elems(ids);
      var order := SortEntries(msgs, ids);
      var bytes, byTopic := Summarize(msgs, ids);
      db, counter, queue := rows, start, [];
      this.nodeId, this.maxMsgs, this.maxBytes := nodeId, maxMsgs, maxBytes;
      state := new MemState(msgs, order, byTopic, bytes);
    }

    method NextMsgId(ghost w: Runs.World) returns (id: Id)
      modifies this`counter
      ensures old(Shows(w)) ==> Took(w, Runs.Issue)
      ensures id == NextId(nodeId, old(counter)) && counter == (old(counter) + 1) % WORD
    {
      var c := counter;
      counter := (counter + 1) % WORD;
      id := (nodeId * LOW) % WORD + c % LOW;
    }

    /** Storing only hands the message to the channel. */
    method Store(msgId: Id, from: Text, publish: Publish, interval: nat, now: int, ghost w: Runs.World)
      modifies this`queue
      ensures old(Shows(w)) ==> Took(w, Runs.Store(msgId, from, publish, interval, now))
      ensures queue == old(queue) + [(msgId, StoredMsg(from, publish,
          if now + interval <= 0x7FFF_FFFF_FFFF_FFFF then now + interval else 0x7FFF_FFFF_FFFF_FFFF, {}))]
    {
      var expiryAt := if interval > I64_MAX - now then I64_MAX else now + interval;   // saturating_add
      queue := queue + [(msgId, StoredMsg(from, publish, expiryAt, {}))];
    }

    /** One turn of the receiving task. */
    method Receive(now: int, ghost w: Runs.World)
      requires queue != []
      modifies this`queue, state
      ensures old(Shows(w)) ==> Took(w, Runs.Receive(now))
      ensures queue == old(queue)[1..]
      ensures state.Model() == MemModel.Evict(
          Insert(old(state.Model()), old(queue)[0].0, old(queue)[0].1), Limits(), now)
    {
      var (key, msg) := queue[0];
      queue := queue[1..];
      var size := ApproxSize(msg);
      var topic := msg.publish.topic;
      state.removed := state.removed - {key};
      if key in state.msgs {
        var prev := state.msgs[key];
        state.msgs := state.msgs[key := msg];
        state.bytes := SatAdd(SatSub(state.bytes, ApproxSize(prev)), size);
      } else {
        state.msgs := state.msgs[key := msg];
        state.order := state.order + [key];
        state.bytes := SatAdd(state.bytes, size);
      }
      state.byTopic := AddToIndex(state.byTopic, topic, key);
      state.dirty := state.dirty + {key};
      assert state.Model() == Insert(old(state.Model()), key, msg);
      state.Evict(now, maxMsgs, maxBytes);
    }

    /** The part of flush under the lock. */
    method Drain(now: int, ghost w: Runs.World) returns (batch: Batch)
      modifies state
      ensures old(Shows(w)) ==> Took(w, Runs.Drain(now))
      ensures var m := MemModel.Evict(old(state.Model()), Limits(), now);
        batch == DrainBatch(m) && state.Model() == Drained(m)
    {
      state.Evict(now, maxMsgs, maxBytes);
      var puts := CollectDirty(state.msgs, state.dirty);
      batch := Batch(puts, state.removed);
      state.dirty, state.removed := {}, {};
    }

    /** The write transaction of flush. */
    method Commit(batch: Batch, ghost w: Runs.World)
      modifies this`db
      ensures old(Shows(w)) && w.inflight == Some(batch) ==> Took(w, Runs.Commit)
      ensures db == ApplyBatch(old(db), batch)
    {
      var t := DeleteRows(db, batch.dels);
      t := InsertRows(t, batch.puts);
      assert t == ApplyBatch(db, batch);
      db := t;
    }

    /** A flush with nothing in between its two halves; an empty batch writes nothing. In a run
        it is two steps, the drain and the commit of what it drained, or the drain alone. */
    method Flush(now: int, ghost w: Runs.World)
      modifies this`db, state
      ensures old(Shows(w)) && w.inflight.None? ==> Shows(Runs.NextFlush(RunEnv(), w, now))
      ensures var m := MemModel.Evict(old(state.Model()), Limits(), now);
        state.Model() == Drained(m) && db == ApplyBatch(old(db), DrainBatch(m))
    {
      ghost var m := MemModel.Evict(state.Model(), Limits(), now);
      var batch := Drain(now, w);
      assert batch == DrainBatch(m) && state.Model() == Drained(m);
      if batch.puts == map[] && batch.dels == {} {
        assert ApplyBatch(db, batch) == db;
      } else {
        Commit(batch, Runs.DoDrain(RunEnv(), w, now));
      }
      assert state.Model() == Drained(m) && db == ApplyBatch(old(db), DrainBatch(m));
      if w.inflight.None? { Runs.NextFlushIs(RunEnv(), w, now); }
    }

    /** The candidate ids for a filter: the exact index entry, or a walk over all of them. */
    method Candidates(filter: Text) returns (ids: seq<Id>)
      requires state.byTopic == IndexOf(state.msgs)
      ensures NoDup(ids)
      ensures Elems(ids) == set id | id in state.msgs && Matches(state.msgs[id].publish.topic, filter)
    {
      ids := [];
      if HasWildcard(filter) {
        var topics := state.byTopic.Keys;
        while topics != {}
          invariant topics <= Topics(state.msgs) && NoDup(ids)
          invariant Elems(ids) == set id | id in state.msgs && state.msgs[id].publish.topic !in topics
                                        && Matches(state.msgs[id].publish.topic, filter)
          decreases topics
        {
          var t :| t in topics;
          topics := topics - {t};
          var yes := TopicMatches(t, filter);
          if yes {
            var more := Iterate(state.byTopic[t]);
            assert forall i :: 0 <= i < |ids| ==> ids[i] in Elems(ids);
            assert forall i :: 0 <= i < |more| ==> more[i] in Elems(more);
            assert Elems(ids + more) == Elems(ids) + Elems(more);
            ids := ids + more;
          }
        }
      } else {
        forall t ensures Matches(t, filter) <==> t == filter { WildcardFreeIsEquality(t, filter); }
        if filter in state.byTopic {
          ids := Iterate(state.byTopic[filter]);
        } else {
          assert forall id :: id in state.msgs ==> state.msgs[id].publish.topic in Topics(state.msgs);
        }
      }
      assert forall id :: id in state.msgs ==> state.msgs[id].publish.topic in Topics(state.msgs);
    }

    /** The filtering loop of get, over candidates in any order. */
    method Scan(candidates: seq<Id>, client: Text, now: int)
      returns (out: seq<(Id, Text, Publish)>, touched: seq<Id>)
      requires NoDup(candidates)
      ensures NoDup(touched) && |out| == |touched|
      ensures Elems(touched) == set id | id in candidates && id in state.msgs
        && state.msgs[id].expiryAt > now && client !in state.msgs[id].deliveredTo
      ensures forall k :: 0 <= k < |out| ==> touched[k] in state.msgs
      ensures forall k :: 0 <= k < |out| ==>
        out[k] == (touched[k], state.msgs[touched[k]].from, state.msgs[touched[k]].publish)
    {
      out, touched := [], [];
      for i := 0 to |candidates|
        invariant NoDup(touched) && |out| == |touched|
        invariant Elems(touched) == set id | id in candidates[..i] && id in state.msgs
          && state.msgs[id].expiryAt > now && client !in state.msgs[id].deliveredTo
        invariant forall k :: 0 <= k < |out| ==> touched[k] in state.msgs
        invariant forall k :: 0 <= k < |out| ==>
          out[k] == (touched[k], state.msgs[touched[k]].from, state.msgs[touched[k]].publish)
      {
        var id := candidates[i];
        assert candidates[..i + 1] == candidates[..i] + [id];
        assert id !in candidates[..i];
        if id in state.msgs {
          var msg := state.msgs[id];
          if !(msg.expiryAt <= now || client in msg.deliveredTo) {
            assert id !in Elems(touched);
            assert Elems(touched + [id]) == Elems(touched) + {id};
            out := out + [(id, msg.from, msg.publish)];
            touched := touched + [id];
          }
        }
      }
      assert candidates[..|candidates|] == candidates;
    }

    /** The marking loop of get. */
    method Mark(touched: seq<Id>, client: Text)
      requires NoDup(touched)
      modifies state
      ensures state.Model() == MarkDelivered(old(state.Model()), Elems(touched), client)
    {
      for i := 0 to |touched|
        invariant state.Model() == MarkDelivered(old(state.Model()), Elems(touched[..i]), client)
      {
        var id := touched[i];
        assert touched[..i + 1] == touched[..i] + [id];
        assert Elems(touched[..i + 1]) == Elems(touched[..i]) + {id};
        assert id !in Elems(touched[..i]);
        MarkOneMore(old(state.Model()), Elems(touched[..i]), id, client);
        if id in state.msgs {
          var msg := state.msgs[id];
          state.msgs := state.msgs[id := msg.(deliveredTo := msg.deliveredTo + {client})];
        }
        state.dirty := state.dirty + {id};
      }
      assert touched[..|touched|] == touched;
    }

    /** What `get` hands out is the naive scan of the evicted memory, each message once and
        complete; exactly those messages gain the client and become dirty. */
    method Get(client: Text, filter: Text, now: int, ghost w: Runs.World) returns (out: seq<(Id, Text, Publish)>)
      requires Valid(state.Model())
      modifies state
      ensures old(Shows(w)) ==> Took(w, Runs.Get(client, filter, now))
      ensures old(Shows(w)) ==> Elems(out) == Runs.Answer(RunEnv(), w, client, filter, now)
      ensures var m := MemModel.Evict(old(state.Model()), Limits(), now);
        var hits := Hits(m, client, filter, now);
        && state.Model() == MarkDelivered(m, hits, client)
        && (forall i, j :: 0 <= i < j < |out| ==> out[i].0 != out[j].0)
        && (forall i :: 0 <= i < |out| ==> out[i].0 in hits)
        && (forall i :: 0 <= i < |out| ==> out[i] == (out[i].0, m.msgs[out[i].0].from, m.msgs[out[i].0].publish))
        && (forall id :: id in hits ==> exists i :: 0 <= i < |out| && out[i].0 == id)
    {
      EvictKeepsValid(state.Model(), Limits(), now);
      state.Evict(now, maxMsgs, maxBytes);
      ghost var m := state.Model();
      ghost var hits := Hits(m, client, filter, now);
      var candidates := Candidates(filter);
      var touched;
      out, touched := Scan(candidates, client, now);
      assert Elems(touched) == hits by {
        assert forall id :: id in candidates <==> id in Elems(candidates);
      }
      AnswerSet(m.msgs, hits, touched, out);
      Mark(touched, client);
    }

    /** While the parts of the memory state agree, this is also the length of the queue. */
    method Count() returns (n: nat)
      ensures n == |state.msgs|
      ensures Valid(state.Model()) ==> n == |state.order|
    {
      n := |state.msgs|;
      if Valid(state.Model()) {
        assert |state.msgs.Keys| == n;
        DistinctCard(state.order);
      }
    }
  }
}
