/** The in-memory message state of src/msgstore.rs as a value: what each operation on it does,
    the invariant its six parts keep, and what eviction means. */
module MemModel {
  import opened Topic

  type Id = nat

  datatype Publish = Publish(topic: Text, payload: seq<bv8>)

  datatype StoredMsg = StoredMsg(from: Text, publish: Publish, expiryAt: int, deliveredTo: set<Text>)

  const OVERHEAD := 384
  const USIZE_MAX := 0xFFFF_FFFF_FFFF_FFFF

  function ApproxSize(m: StoredMsg): nat {
    |m.publish.payload| + |m.publish.topic| + OVERHEAD
  }

  function SatSub(a: nat, b: nat): nat { if a < b then 0 else a - b }

  function SatAdd(a: nat, b: nat): nat { if a + b > USIZE_MAX then USIZE_MAX else a + b }

  /** The two limits; 0 means unbounded. */
  datatype Caps = Caps(maxMsgs: nat, maxBytes: nat)

  datatype Mem = Mem(
    msgs: map<Id, StoredMsg>,
    order: seq<Id>,
    byTopic: map<Text, set<Id>>,
    bytes: nat,
    dirty: set<Id>,
    removed: set<Id>)

  // ---------------------------------------------------------------- operations

  function AddToIndex(ix: map<Text, set<Id>>, topic: Text, id: Id): map<Text, set<Id>> {
    ix[topic := (if topic in ix then ix[topic] else {}) + {id}]
  }

  function DropFromIndex(ix: map<Text, set<Id>>, topic: Text, id: Id): map<Text, set<Id>> {
    if topic !in ix then ix
    else if ix[topic] - {id} == {} then ix - {topic}
    else ix[topic := ix[topic] - {id}]
  }

  predicate OverCap(m: Mem, caps: Caps) {
    || (caps.maxMsgs > 0 && |m.msgs| > caps.maxMsgs)
    || (caps.maxBytes > 0 && m.bytes > caps.maxBytes)
  }

  predicate Expired(m: Mem, id: Id, now: int) {
    id in m.msgs ==> m.msgs[id].expiryAt <= now
  }

  /** One turn of the eviction loop: take the front of the queue out of every structure. */
  function Pop(m: Mem): Mem
    requires m.order != []
  {
    var id := m.order[0];
    if id in m.msgs then
      var msg := m.msgs[id];
      Mem(m.msgs - {id}, m.order[1..], DropFromIndex(m.byTopic, msg.publish.topic, id),
          SatSub(m.bytes, ApproxSize(msg)), m.dirty - {id}, m.removed + {id})
    else
      m.(order := m.order[1..])
  }

  predicate MustPop(m: Mem, caps: Caps, now: int) {
    m.order != [] && (OverCap(m, caps) || Expired(m, m.order[0], now))
  }

  function Evict(m: Mem, caps: Caps, now: int): Mem
    decreases |m.order|
  {
    if MustPop(m, caps, now) then Evict(Pop(m), caps, now) else m
  }

  /** The receiver's insertion of one message taken from the channel, before it evicts. */
  function Insert(m: Mem, key: Id, msg: StoredMsg): Mem {
    var size := ApproxSize(msg);
    Mem(m.msgs[key := msg],
        if key in m.msgs then m.order else m.order + [key],
        AddToIndex(m.byTopic, msg.publish.topic, key),
        SatAdd(if key in m.msgs then SatSub(m.bytes, ApproxSize(m.msgs[key])) else m.bytes, size),
        m.dirty + {key},
        m.removed - {key})
  }

  /** The naive scan `get` stands for. */
  function Hits(m: Mem, client: Text, filter: Text, now: int): set<Id> {
    set id | id in m.msgs
          && Matches(m.msgs[id].publish.topic, filter)
          && m.msgs[id].expiryAt > now
          && client !in m.msgs[id].deliveredTo
  }

  function MarkDelivered(m: Mem, ids: set<Id>, client: Text): Mem {
    m.(msgs := map id | id in m.msgs ::
                 if id in ids then m.msgs[id].(deliveredTo := m.msgs[id].deliveredTo + {client})
                 else m.msgs[id],
       dirty := m.dirty + ids)
  }

  /** What a flush takes to disk: rows to delete, then rows to write. */
  datatype Batch = Batch(puts: map<Id, StoredMsg>, dels: set<Id>)

  function DrainBatch(m: Mem): Batch {
    Batch(map id | id in m.dirty && id in m.msgs :: m.msgs[id], m.removed)
  }

  function Drained(m: Mem): Mem {
    m.(dirty := {}, removed := {})
  }

  // ---------------------------------------------------------------- the invariant

  function Topics(msgs: map<Id, StoredMsg>): set<Text> {
    set id | id in msgs :: msgs[id].publish.topic
  }

  /** The topic index recomputed from the messages: no empty entries. */
  function IndexOf(msgs: map<Id, StoredMsg>): map<Text, set<Id>> {
    map t | t in Topics(msgs) :: set id | id in msgs && msgs[id].publish.topic == t
  }

  /** The total size recomputed from the messages. */
  ghost function SumSizes(msgs: map<Id, StoredMsg>): nat
    decreases |msgs|
  {
    if msgs == map[] then 0
    else
      var k :| k in msgs;
      ShrinkCard(msgs, k);
      ApproxSize(msgs[k]) + SumSizes(msgs - {k})
  }

  ghost predicate NoDup<T>(s: seq<T>) {
    forall i, j :: 0 <= i < j < |s| ==> s[i] != s[j]
  }

  function Elems<T>(s: seq<T>): set<T> {
    set x | x in s
  }

  ghost predicate Valid(m: Mem) {
    && NoDup(m.order)
    && Elems(m.order) == m.msgs.Keys
    && m.byTopic == IndexOf(m.msgs)
    && m.bytes == SumSizes(m.msgs)
    && m.dirty <= m.msgs.Keys
    && m.removed !! m.msgs.Keys
  }

  /** The total after storing `msg` under `key` is within a machine word. */
  ghost predicate Fits(m: Mem, key: Id, msg: StoredMsg) {
    SumSizes(m.msgs - {key}) + ApproxSize(msg) <= USIZE_MAX
  }

  // ---------------------------------------------------------------- sums and indexes

  lemma ShrinkCard(msgs: map<Id, StoredMsg>, k: Id)
    requires k in msgs
    ensures |msgs - {k}| == |msgs| - 1
  {
    assert (msgs - {k}).Keys == msgs.Keys - {k};
    assert |(msgs - {k}).Keys| == |msgs - {k}| && |msgs.Keys| == |msgs|;
  }

  lemma {:induction false} SumRemove(msgs: map<Id, StoredMsg>, k: Id)
    requires k in msgs
    ensures SumSizes(msgs) == ApproxSize(msgs[k]) + SumSizes(msgs - {k})
    decreases |msgs|
  {
    var p :| p in msgs && SumSizes(msgs) == ApproxSize(msgs[p]) + SumSizes(msgs - {p});
    if p != k {
      ShrinkCard(msgs, p);
      ShrinkCard(msgs, k);
      SumRemove(msgs - {p}, k);
      SumRemove(msgs - {k}, p);
      assert msgs - {p} - {k} == msgs - {k} - {p};
    }
  }

  lemma SumPut(msgs: map<Id, StoredMsg>, k: Id, msg: StoredMsg)
    ensures SumSizes(msgs[k := msg]) == SumSizes(msgs - {k}) + ApproxSize(msg)
  {
    SumRemove(msgs[k := msg], k);
    assert msgs[k := msg] - {k} == msgs - {k};
  }

  lemma {:induction false} SumAtLeast(msgs: map<Id, StoredMsg>)
    ensures SumSizes(msgs) >= OVERHEAD * |msgs|
    decreases |msgs|
  {
    if msgs != map[] {
      var k :| k in msgs;
      SumRemove(msgs, k);
      ShrinkCard(msgs, k);
      SumAtLeast(msgs - {k});
    }
  }

  /** Changing messages without changing their topics or sizes changes neither summary. */
  lemma {:induction false} SumSameSizes(a: map<Id, StoredMsg>, b: map<Id, StoredMsg>)
    requires a.Keys == b.Keys
    requires forall id :: id in a ==> ApproxSize(a[id]) == ApproxSize(b[id])
    ensures SumSizes(a) == SumSizes(b)
    decreases |a|
  {
    if a == map[] {
      assert b == map[];
    } else {
      var k :| k in a;
      SumRemove(a, k);
      SumRemove(b, k);
      ShrinkCard(a, k);
      SumSameSizes(a - {k}, b - {k});
    }
  }

  lemma TopicsAfterPut(msgs: map<Id, StoredMsg>, k: Id, msg: StoredMsg)
    requires k in msgs ==> msgs[k].publish.topic == msg.publish.topic
    ensures Topics(msgs[k := msg]) == Topics(msgs) + {msg.publish.topic}
  {
    var after := msgs[k := msg];
    assert k in after && after[k] == msg;
    forall u | u in Topics(msgs) ensures u in Topics(after) {
      var id :| id in msgs && msgs[id].publish.topic == u;
      assert id in after && after[id].publish.topic == u;
    }
  }

  lemma IndexAfterPut(msgs: map<Id, StoredMsg>, k: Id, msg: StoredMsg)
    requires k in msgs ==> msgs[k].publish.topic == msg.publish.topic
    ensures AddToIndex(IndexOf(msgs), msg.publish.topic, k) == IndexOf(msgs[k := msg])
  {
    var t := msg.publish.topic;
    var after := msgs[k := msg];
    TopicsAfterPut(msgs, k, msg);
    var l, r := AddToIndex(IndexOf(msgs), t, k), IndexOf(after);
    assert l.Keys == r.Keys;
    forall u | u in r ensures l[u] == r[u] {
      if u != t {
        assert l[u] == IndexOf(msgs)[u];
      } else if t !in Topics(msgs) {
        assert forall id :: id in msgs ==> msgs[id].publish.topic in Topics(msgs);
      }
    }
  }

  lemma IndexAfterRemove(msgs: map<Id, StoredMsg>, k: Id)
    requires k in msgs
    ensures DropFromIndex(IndexOf(msgs), msgs[k].publish.topic, k) == IndexOf(msgs - {k})
  {
    var t := msgs[k].publish.topic;
    var after := msgs - {k};
    var l, r := DropFromIndex(IndexOf(msgs), t, k), IndexOf(after);
    assert t in Topics(msgs);
    forall u ensures u in l <==> u in r {
      if u in r {
        var id :| id in after && after[id].publish.topic == u;
        assert id in msgs && msgs[id].publish.topic == u;
        if u == t { assert id in IndexOf(msgs)[t] - {k}; }
      }
      if u in l {
        assert u in IndexOf(msgs);
        var id :| id in msgs && msgs[id].publish.topic == u && id != k;
        assert id in after && after[id].publish.topic == u;
      }
    }
    forall u | u in r ensures l[u] == r[u] {}
  }

  lemma IndexSameTopics(a: map<Id, StoredMsg>, b: map<Id, StoredMsg>)
    requires a.Keys == b.Keys
    requires forall id :: id in a ==> a[id].publish.topic == b[id].publish.topic
    ensures IndexOf(a) == IndexOf(b)
  {
    forall t ensures t in Topics(a) <==> t in Topics(b) {
      if t in Topics(a) {
        var id :| id in a && a[id].publish.topic == t;
        assert id in b && b[id].publish.topic == t;
      }
      if t in Topics(b) {
        var id :| id in b && b[id].publish.topic == t;
        assert id in a && a[id].publish.topic == t;
      }
    }
    assert IndexOf(a).Keys == IndexOf(b).Keys;
    forall t | t in IndexOf(a) ensures IndexOf(a)[t] == IndexOf(b)[t] {}
  }

  lemma IndexCard(msgs: map<Id, StoredMsg>)
    ensures |IndexOf(msgs)| <= |msgs|
  {
    if msgs != map[] {
      var k :| k in msgs;
      var rest := msgs - {k};
      ShrinkCard(msgs, k);
      IndexCard(rest);
      var t := msgs[k].publish.topic;
      assert msgs == rest[k := msgs[k]];
      assert Topics(msgs) <= Topics(rest) + {t};
      CardMono(Topics(msgs), Topics(rest) + {t});
      assert IndexOf(msgs).Keys == Topics(msgs) && IndexOf(rest).Keys == Topics(rest);
      assert |IndexOf(msgs).Keys| == |IndexOf(msgs)| && |IndexOf(rest).Keys| == |IndexOf(rest)|;
    } else {
      assert IndexOf(msgs) == map[];
    }
  }

  lemma CardMono<T>(a: set<T>, b: set<T>)
    requires a <= b
    ensures |a| <= |b|
  {
    assert b == a + (b - a);
  }

  // ---------------------------------------------------------------- the invariant is kept

  lemma FrontIsStored(m: Mem)
    requires Valid(m) && m.order != []
    ensures m.order[0] in m.msgs
  {
    assert m.order[0] in Elems(m.order);
  }

  lemma PopKeepsValid(m: Mem)
    requires Valid(m) && m.order != []
    ensures Valid(Pop(m))
    ensures Pop(m).msgs == m.msgs - {m.order[0]}
  {
    var id := m.order[0];
    assert id in Elems(m.order);
    SumRemove(m.msgs, id);
    IndexAfterRemove(m.msgs, id);
    assert Elems(m.order[1..]) == Elems(m.order) - {id} by {
      forall x | x in Elems(m.order) && x != id ensures x in m.order[1..] {
        var i :| 0 <= i < |m.order| && m.order[i] == x;
        assert m.order[1..][i - 1] == x;
      }
    }
  }

  lemma {:induction false} EvictKeepsValid(m: Mem, caps: Caps, now: int)
    requires Valid(m)
    ensures Valid(Evict(m, caps, now))
    decreases |m.order|
  {
    if MustPop(m, caps, now) {
      PopKeepsValid(m);
      EvictKeepsValid(Pop(m), caps, now);
    }
  }

  lemma InsertOrder(m: Mem, key: Id, msg: StoredMsg)
    requires NoDup(m.order) && Elems(m.order) == m.msgs.Keys
    ensures NoDup(Insert(m, key, msg).order) && Elems(Insert(m, key, msg).order) == m.msgs.Keys + {key}
  {
    if key !in m.msgs {
      assert Elems(m.order + [key]) == Elems(m.order) + {key};
      assert key !in Elems(m.order);
    }
  }

  lemma InsertBytes(m: Mem, key: Id, msg: StoredMsg)
    requires m.bytes == SumSizes(m.msgs) && Fits(m, key, msg)
    ensures Insert(m, key, msg).bytes == SumSizes(m.msgs[key := msg])
  {
    SumPut(m.msgs, key, msg);
    if key in m.msgs {
      SumRemove(m.msgs, key);
    } else {
      assert m.msgs - {key} == m.msgs;
    }
  }

  lemma InsertKeepsValid(m: Mem, key: Id, msg: StoredMsg)
    requires Valid(m) && Fits(m, key, msg)
    requires key in m.msgs ==> m.msgs[key].publish.topic == msg.publish.topic
    ensures Valid(Insert(m, key, msg))
  {
    InsertOrder(m, key, msg);
    IndexAfterPut(m.msgs, key, msg);
    InsertBytes(m, key, msg);
  }

  /** Storing an id again under another topic leaves it listed under the old one: the index
      survives a store exactly when the id is new or keeps its topic. */
  lemma InsertKeepsValidIff(m: Mem, key: Id, msg: StoredMsg)
    requires Valid(m) && Fits(m, key, msg)
    ensures Valid(Insert(m, key, msg))
       <==> (key in m.msgs ==> m.msgs[key].publish.topic == msg.publish.topic)
  {
    if key in m.msgs && m.msgs[key].publish.topic != msg.publish.topic {
      var oldTopic := m.msgs[key].publish.topic;
      assert oldTopic in Topics(m.msgs);
      assert key in m.byTopic[oldTopic];
      var n := Insert(m, key, msg);
      assert key in n.byTopic[oldTopic];
      assert oldTopic in IndexOf(n.msgs) ==> key !in IndexOf(n.msgs)[oldTopic];
    } else {
      InsertKeepsValid(m, key, msg);
    }
  }

  lemma OneMessageValid(id: Id, msg: StoredMsg)
    ensures Valid(Mem(map[id := msg], [id], map[msg.publish.topic := {id}], ApproxSize(msg), {id}, {}))
  {
    var none: map<Id, StoredMsg> := map[];
    assert none[id := msg] == map[id := msg] && none - {id} == none;
    SumPut(none, id, msg);
    IndexAfterPut(none, id, msg);
    assert IndexOf(none) == map[];
    var empty: map<Text, set<Id>> := map[];
    assert {} + {id} == {id};
    assert empty[msg.publish.topic := {id}] == map[msg.publish.topic := {id}];
    assert Elems([id]) == {id};
  }

  /** For instance: message 1 moves from topic "a" to "b" and stays listed under "a". */
  lemma RetopicExample()
    ensures var a, b := StoredMsg("", Publish("a", []), 10, {}), StoredMsg("", Publish("b", []), 10, {});
      var m := Mem(map[1 := a], [1], map["a" := {1}], ApproxSize(a), {1}, {});
      && Valid(m) && !Valid(Insert(m, 1, b)) && Insert(m, 1, b).byTopic == map["a" := {1}, "b" := {1}]
  {
    var a, b := StoredMsg("", Publish("a", []), 10, {}), StoredMsg("", Publish("b", []), 10, {});
    OneMessageValid(1, a);
    var m := Mem(map[1 := a], [1], map["a" := {1}], ApproxSize(a), {1}, {});
    var none: map<Id, StoredMsg> := map[];
    assert m.msgs - {1} == none && SumSizes(none) == 0;
    assert a.publish.topic[0] != b.publish.topic[0];
    assert {} + {1} == {1};
    assert m.byTopic["b" := {1}] == map["a" := {1}, "b" := {1}];
    InsertKeepsValidIff(m, 1, b);
  }

  lemma MarkKeepsValid(m: Mem, ids: set<Id>, client: Text)
    requires Valid(m) && ids <= m.msgs.Keys
    ensures Valid(MarkDelivered(m, ids, client))
  {
    SumSameSizes(m.msgs, MarkDelivered(m, ids, client).msgs);
    IndexSameTopics(m.msgs, MarkDelivered(m, ids, client).msgs);
  }

  lemma MarkOneMore(m: Mem, ids: set<Id>, id: Id, client: Text)
    requires id !in ids
    ensures var n, more := MarkDelivered(m, ids, client), MarkDelivered(m, ids + {id}, client);
      && more.dirty == n.dirty + {id} && more == n.(msgs := more.msgs, dirty := more.dirty)
      && more.msgs == if id !in m.msgs then n.msgs
                      else n.msgs[id := m.msgs[id].(deliveredTo := m.msgs[id].deliveredTo + {client})]
  {
    var n, more := MarkDelivered(m, ids, client), MarkDelivered(m, ids + {id}, client);
    assert m.dirty + (ids + {id}) == m.dirty + ids + {id};
    forall x | x in m.msgs && x != id ensures more.msgs[x] == n.msgs[x] {}
  }

  // ---------------------------------------------------------------- what eviction means

  function Kept(msgs: map<Id, StoredMsg>, ids: seq<Id>): map<Id, StoredMsg> {
    map id | id in msgs && id in ids :: msgs[id]
  }

  /** The state with the `p` oldest messages taken out, each part rebuilt from what is left. */
  ghost function Cut(m: Mem, p: nat): Mem
    requires p <= |m.order|
  {
    var kept := Kept(m.msgs, m.order[p..]);
    Mem(kept, m.order[p..], IndexOf(kept), SumSizes(kept), m.dirty * kept.Keys,
        m.removed + Elems(m.order[..p]))
  }

  /** Once the messages before place `i` are gone, the one at `i` goes as well. */
  ghost predicate MustGo(m: Mem, caps: Caps, now: int, i: nat)
    requires i < |m.order|
  {
    OverCap(Cut(m, i), caps) || Expired(m, m.order[i], now)
  }

  /** Eviction stops at `p`: everything older is over a limit or expired when its turn comes,
      and at `p` the limits hold and the front is live (or nothing is left). */
  ghost predicate StopsAt(m: Mem, caps: Caps, now: int, p: nat) {
    && p <= |m.order|
    && (forall i :: 0 <= i < p ==> MustGo(m, caps, now, i))
    && (p < |m.order| ==> !MustGo(m, caps, now, p))
  }

  lemma CutZero(m: Mem)
    requires Valid(m)
    ensures Cut(m, 0) == m
  {
    assert m.order[0..] == m.order;
    assert forall id :: id in m.msgs ==> id in Elems(m.order);
    assert Kept(m.msgs, m.order) == m.msgs;
    assert Elems(m.order[..0]) == {};
    assert m.dirty * m.msgs.Keys == m.dirty;
  }

  lemma Behead(s: seq<Id>, p: nat)
    requires NoDup(s) && p < |s|
    ensures s[1..][p..] == s[p + 1..] && s[0] !in s[p + 1..]
    ensures Elems(s[..p + 1]) == {s[0]} + Elems(s[1..][..p])
  {
    assert s[..p + 1] == [s[0]] + s[1..][..p];
    var rest := s[p + 1..];
    forall x | x in rest ensures x != s[0] {
      var i :| 0 <= i < |rest| && rest[i] == x;
      assert s[p + 1 + i] == x;
    }
  }

  lemma CutOfPop(m: Mem, p: nat)
    requires NoDup(m.order) && p < |m.order| && m.order[0] in m.msgs
    ensures Cut(Pop(m), p) == Cut(m, p + 1)
  {
    var id := m.order[0];
    var kept := Kept(m.msgs, m.order[p + 1..]);
    Behead(m.order, p);
    assert Kept(m.msgs - {id}, m.order[1..][p..]) == kept;
    assert m.removed + {id} + Elems(m.order[1..][..p]) == m.removed + Elems(m.order[..p + 1]);
    assert (m.dirty - {id}) * kept.Keys == m.dirty * kept.Keys;
  }

  lemma OneLater(m: Mem, caps: Caps, now: int, i: nat)
    requires NoDup(m.order) && i + 1 < |m.order| && m.order[0] in m.msgs
    ensures MustGo(m, caps, now, i + 1) == MustGo(Pop(m), caps, now, i)
  {
    CutOfPop(m, i);
    assert Pop(m).order[i] == m.order[i + 1] != m.order[0];
  }

  lemma StopsOneLater(m: Mem, caps: Caps, now: int, q: nat)
    requires NoDup(m.order) && m.order != [] && m.order[0] in m.msgs && Cut(m, 0) == m
    requires MustPop(m, caps, now) && StopsAt(Pop(m), caps, now, q)
    ensures StopsAt(m, caps, now, q + 1)
  {
    assert MustGo(m, caps, now, 0);
    forall i | 0 <= i < q + 1 ensures MustGo(m, caps, now, i) {
      if i > 0 { OneLater(m, caps, now, i - 1); }
    }
    if q + 1 < |m.order| { OneLater(m, caps, now, q); }
  }

  /** Eviction removes a prefix of the queue and nothing else, and the prefix is the shortest
      one that meets the limits with a live message in front. */
  lemma {:induction false} EvictIsCut(m: Mem, caps: Caps, now: int) returns (p: nat)
    requires Valid(m)
    ensures StopsAt(m, caps, now, p) && Evict(m, caps, now) == Cut(m, p)
    decreases |m.order|
  {
    CutZero(m);
    if MustPop(m, caps, now) {
      PopKeepsValid(m);
      p := EvictIsCut(Pop(m), caps, now);
      FrontIsStored(m);
      StopsOneLater(m, caps, now, p);
      CutOfPop(m, p);
      p := p + 1;
    } else {
      p := 0;
    }
  }

  /** There is only one place where eviction can stop. */
  lemma StopIsUnique(m: Mem, caps: Caps, now: int, p: nat, q: nat)
    requires StopsAt(m, caps, now, p) && StopsAt(m, caps, now, q)
    ensures p == q
  {
    assert p < |m.order| ==> !MustGo(m, caps, now, p);
    assert q < |m.order| ==> !MustGo(m, caps, now, q);
  }

  lemma {:induction false} EvictReaches(m: Mem, caps: Caps, now: int)
    ensures !MustPop(Evict(m, caps, now), caps, now)
    decreases |m.order|
  {
    if MustPop(m, caps, now) { EvictReaches(Pop(m), caps, now); }
  }

  /** After eviction the limits hold of the true count and the true total size. */
  lemma EvictMeetsCaps(m: Mem, caps: Caps, now: int)
    requires Valid(m)
    ensures MeetsCaps(Evict(m, caps, now), caps)
  {
    var n := Evict(m, caps, now);
    EvictKeepsValid(m, caps, now);
    EvictReaches(m, caps, now);
    if n.order == [] { assert n.msgs == map[]; }
    SumAtLeast(n.msgs);
    IndexCard(n.msgs);
  }

  ghost predicate MeetsCaps(m: Mem, caps: Caps) {
    && (caps.maxMsgs > 0 ==> |m.msgs| <= caps.maxMsgs)
    && (caps.maxBytes > 0 ==> SumSizes(m.msgs) <= caps.maxBytes)
    && (caps.maxBytes > 0 ==> |m.msgs| <= caps.maxBytes / OVERHEAD)
    && |m.byTopic| <= |m.msgs|
  }

  // ---------------------------------------------------------------- which messages go

  ghost predicate Listed(m: Mem) {
    forall i :: 0 <= i < |m.order| ==> m.order[i] in m.msgs
  }

  /** What the messages from place `j` of the queue on amount to: payload, topic and 384 bytes each. */
  ghost function BytesFrom(m: Mem, j: nat): nat
    requires Listed(m) && j <= |m.order|
    decreases |m.order| - j
  {
    if j == |m.order| then 0
    else
      var p := m.msgs[m.order[j]].publish;
      |p.payload| + |p.topic| + 384 + BytesFrom(m, j + 1)
  }

  /** The message at place `j` has expired, or it and those after it are too many or too large. */
  ghost predicate Spent(m: Mem, caps: Caps, now: int, j: nat)
    requires Listed(m) && j < |m.order|
  {
    || m.msgs[m.order[j]].expiryAt <= now
    || (caps.maxMsgs > 0 && |m.order| - j > caps.maxMsgs)
    || (caps.maxBytes > 0 && BytesFrom(m, j) > caps.maxBytes)
  }

  lemma ValidListed(m: Mem)
    requires Valid(m)
    ensures Listed(m)
  {
    forall i | 0 <= i < |m.order| ensures m.order[i] in m.msgs { assert m.order[i] in Elems(m.order); }
  }

  lemma FromHere(m: Mem, j: nat)
    requires Listed(m) && NoDup(m.order) && j < |m.order|
    ensures var rest := Kept(m.msgs, m.order[j + 1..]);
      m.order[j] !in rest && Kept(m.msgs, m.order[j..]) == rest[m.order[j] := m.msgs[m.order[j]]]
  {
    var id, tail := m.order[j], m.order[j + 1..];
    assert m.order[j..] == [id] + tail;
    forall i | 0 <= i < |tail| ensures tail[i] != id { assert tail[i] == m.order[j + 1 + i]; }
  }

  lemma PutNew(msgs: map<Id, StoredMsg>, k: Id, msg: StoredMsg)
    requires k !in msgs
    ensures |msgs[k := msg]| == |msgs| + 1 && SumSizes(msgs[k := msg]) == SumSizes(msgs) + ApproxSize(msg)
  {
    ShrinkCard(msgs[k := msg], k);
    assert msgs[k := msg] - {k} == msgs == msgs - {k};
    SumPut(msgs, k, msg);
  }

  /** The queue from place `j` on holds that many messages of that total size. */
  lemma {:induction false} TotalsFrom(m: Mem, j: nat)
    requires Listed(m) && NoDup(m.order) && j <= |m.order|
    ensures var kept := Kept(m.msgs, m.order[j..]);
      |kept| == |m.order| - j && SumSizes(kept) == BytesFrom(m, j)
    decreases |m.order| - j
  {
    if j < |m.order| {
      var id, rest := m.order[j], Kept(m.msgs, m.order[j + 1..]);
      TotalsFrom(m, j + 1);
      FromHere(m, j);
      PutNew(rest, id, m.msgs[id]);
    } else {
      assert Kept(m.msgs, m.order[j..]) == map[];
    }
  }

  lemma MustGoIsSpent(m: Mem, caps: Caps, now: int, j: nat)
    requires Listed(m) && NoDup(m.order) && j < |m.order|
    ensures MustGo(m, caps, now, j) == Spent(m, caps, now, j)
  {
    TotalsFrom(m, j);
  }

  lemma StopsAtSpent(m: Mem, caps: Caps, now: int, p: nat)
    requires Listed(m) && NoDup(m.order) && StopsAt(m, caps, now, p)
    ensures forall j :: 0 <= j < p ==> Spent(m, caps, now, j)
    ensures p < |m.order| ==> !Spent(m, caps, now, p)
  {
    forall j | 0 <= j < p ensures Spent(m, caps, now, j) { MustGoIsSpent(m, caps, now, j); }
    if p < |m.order| { MustGoIsSpent(m, caps, now, p); }
  }

  lemma KeptFrom(m: Mem, p: nat, i: nat)
    requires Listed(m) && NoDup(m.order) && p <= |m.order| && i < |m.order|
    ensures m.order[i] in Kept(m.msgs, m.order[p..]) <==> p <= i
  {
    var rest := m.order[p..];
    if p <= i {
      assert rest[i - p] == m.order[i];
    } else {
      forall k | 0 <= k < |rest| ensures rest[k] != m.order[i] { assert rest[k] == m.order[p + k]; }
    }
  }

  /** Which messages eviction takes: those that are spent and have only spent messages before
      them. Every other message stays as it is. */
  lemma EvictionRule(m: Mem, caps: Caps, now: int, i: nat)
    requires Valid(m) && Listed(m) && i < |m.order|
    ensures var n := Evict(m, caps, now);
      && (m.order[i] !in n.msgs <==> forall j :: 0 <= j <= i ==> Spent(m, caps, now, j))
      && (m.order[i] in n.msgs ==> n.msgs[m.order[i]] == m.msgs[m.order[i]])
  {
    var p := EvictIsCut(m, caps, now);
    StopsAtSpent(m, caps, now, p);
    KeptFrom(m, p, i);
    assert Evict(m, caps, now).msgs == Kept(m.msgs, m.order[p..]);
  }

  /** In particular nothing happens to a store within its limits whose oldest message is live. */
  lemma WithinLimitsNothingGoes(m: Mem, caps: Caps, now: int)
    requires Valid(m) && Listed(m) && (m.order != [] ==> m.msgs[m.order[0]].expiryAt > now)
    requires caps.maxMsgs > 0 ==> |m.msgs| <= caps.maxMsgs
    requires caps.maxBytes > 0 ==> BytesFrom(m, 0) <= caps.maxBytes
    ensures Evict(m, caps, now) == m
  {
    CutZero(m);
    if m.order != [] {
      TotalsFrom(m, 0);
      MustGoIsSpent(m, caps, now, 0);
    }
  }

  /** After eviction the messages left, counted at 384 bytes besides payload and topic, and their
      number are within the limits. */
  lemma EvictFits(m: Mem, caps: Caps, now: int)
    requires Valid(m)
    ensures var n := Evict(m, caps, now);
      && Listed(n) && (caps.maxMsgs > 0 ==> |n.order| <= caps.maxMsgs)
      && (caps.maxBytes > 0 ==> BytesFrom(n, 0) <= caps.maxBytes)
  {
    var n := Evict(m, caps, now);
    EvictKeepsValid(m, caps, now);
    EvictMeetsCaps(m, caps, now);
    ValidListed(n);
    CutZero(n);
    TotalsFrom(n, 0);
  }

  // ---------------------------------------------------------------- early and late eviction

  /** Evicting at an earlier time first makes no difference to evicting later. */
  lemma {:induction false} EvictAbsorbs(m: Mem, caps: Caps, n1: int, n2: int)
    requires n1 <= n2
    ensures Evict(Evict(m, caps, n1), caps, n2) == Evict(m, caps, n2)
    decreases |m.order|
  {
    if MustPop(m, caps, n1) {
      EvictAbsorbs(Pop(m), caps, n1, n2);
    }
  }

  lemma PopFits(m: Mem, key: Id, msg: StoredMsg)
    requires Valid(m) && m.order != [] && key !in m.msgs && Fits(m, key, msg)
    ensures m.order[0] in m.msgs && key !in Pop(m).msgs && Fits(Pop(m), key, msg)
  {
    assert m.order[0] in Elems(m.order);
    SumRemove(m.msgs, m.order[0]);
    assert m.msgs - {key} == m.msgs && Pop(m).msgs - {key} == Pop(m).msgs;
  }

  lemma PopInsertParts(m: Mem, key: Id, msg: StoredMsg)
    requires m.order != [] && m.order[0] in m.msgs && key !in m.msgs
    ensures var a, b := Pop(Insert(m, key, msg)), Insert(Pop(m), key, msg);
      a.msgs == b.msgs && a.order == b.order && a.dirty == b.dirty && a.removed == b.removed
  {
    var id := m.order[0];
    assert m.msgs[key := msg] - {id} == (m.msgs - {id})[key := msg];
    assert (m.order + [key])[1..] == m.order[1..] + [key];
    assert m.dirty + {key} - {id} == m.dirty - {id} + {key};
    assert m.removed - {key} + {id} == m.removed + {id} - {key};
  }

  lemma PopInsertCommute(m: Mem, key: Id, msg: StoredMsg)
    requires Valid(m) && m.order != [] && key !in m.msgs && Fits(m, key, msg)
    ensures Pop(Insert(m, key, msg)) == Insert(Pop(m), key, msg)
  {
    var a, b := Pop(Insert(m, key, msg)), Insert(Pop(m), key, msg);
    PopFits(m, key, msg);
    PopInsertParts(m, key, msg);
    assert a.byTopic == IndexOf(a.msgs) && a.bytes == SumSizes(a.msgs) by {
      InsertKeepsValid(m, key, msg);
      PopKeepsValid(Insert(m, key, msg));
    }
    assert b.byTopic == IndexOf(b.msgs) && b.bytes == SumSizes(b.msgs) by {
      PopKeepsValid(m);
      InsertKeepsValid(Pop(m), key, msg);
    }
  }

  lemma MustPopAfterInsert(m: Mem, caps: Caps, key: Id, msg: StoredMsg, n1: int, n2: int)
    requires m.order != [] && m.order[0] in m.msgs && key !in m.msgs
    requires m.bytes + ApproxSize(msg) <= USIZE_MAX && n1 <= n2
    requires MustPop(m, caps, n1)
    ensures MustPop(Insert(m, key, msg), caps, n2)
  {
    var n := Insert(m, key, msg);
    assert n.msgs - {key} == m.msgs;
    ShrinkCard(n.msgs, key);
    assert n.order[0] == m.order[0];
  }

  /** Evicting before a message arrives is subsumed by evicting after it has. */
  lemma {:induction false} EvictThenInsert(m: Mem, caps: Caps, key: Id, msg: StoredMsg, n1: int, n2: int)
    requires Valid(m) && key !in m.msgs && Fits(m, key, msg) && n1 <= n2
    ensures Evict(Insert(Evict(m, caps, n1), key, msg), caps, n2) == Evict(Insert(m, key, msg), caps, n2)
    decreases |m.order|
  {
    if MustPop(m, caps, n1) {
      FrontIsStored(m);
      assert m.msgs - {key} == m.msgs;
      MustPopAfterInsert(m, caps, key, msg, n1, n2);
      PopInsertCommute(m, key, msg);
      PopFits(m, key, msg);
      PopKeepsValid(m);
      EvictThenInsert(Pop(m), caps, key, msg, n1, n2);
    }
  }

  datatype Arrival = Arrival(key: Id, msg: StoredMsg, at: int)

  function InsertAll(m: Mem, batch: seq<Arrival>): Mem {
    if batch == [] then m
    else var a := batch[|batch| - 1]; Insert(InsertAll(m, batch[..|batch| - 1]), a.key, a.msg)
  }

  function InsertAllEvicting(m: Mem, caps: Caps, batch: seq<Arrival>): Mem {
    if batch == [] then m
    else
      var a := batch[|batch| - 1];
      Evict(Insert(InsertAllEvicting(m, caps, batch[..|batch| - 1]), a.key, a.msg), caps, a.at)
  }

  ghost function BatchSize(batch: seq<Arrival>): nat {
    if batch == [] then 0
    else ApproxSize(batch[|batch| - 1].msg) + BatchSize(batch[..|batch| - 1])
  }

  /** A batch of new messages: distinct ids, none in memory, in time order, small enough. */
  ghost predicate NewBatch(m: Mem, batch: seq<Arrival>) {
    && (forall i :: 0 <= i < |batch| ==> batch[i].key !in m.msgs)
    && (forall i, j :: 0 <= i < j < |batch| ==> batch[i].key != batch[j].key && batch[i].at <= batch[j].at)
    && SumSizes(m.msgs) + BatchSize(batch) <= USIZE_MAX
  }

  function BatchKeys(batch: seq<Arrival>): set<Id> {
    if batch == [] then {}
    else BatchKeys(batch[..|batch| - 1]) + {batch[|batch| - 1].key}
  }

  lemma {:induction false} BatchKeysAre(batch: seq<Arrival>, k: Id)
    requires k in BatchKeys(batch)
    ensures exists i :: 0 <= i < |batch| && batch[i].key == k
  {
    var init := batch[..|batch| - 1];
    if k in BatchKeys(init) {
      BatchKeysAre(init, k);
      var i :| 0 <= i < |init| && init[i].key == k;
      assert batch[i].key == k;
    } else {
      assert batch[|batch| - 1].key == k;
    }
  }

  lemma NewBatchInit(m: Mem, batch: seq<Arrival>)
    requires NewBatch(m, batch) && batch != []
    ensures NewBatch(m, batch[..|batch| - 1])
    ensures batch[|batch| - 1].key !in m.msgs.Keys + BatchKeys(batch[..|batch| - 1])
  {
    var init, k := batch[..|batch| - 1], batch[|batch| - 1].key;
    if k in BatchKeys(init) {
      BatchKeysAre(init, k);
    }
  }

  lemma {:induction false} InsertAllValid(m: Mem, batch: seq<Arrival>)
    requires Valid(m) && NewBatch(m, batch)
    ensures Valid(InsertAll(m, batch))
    ensures InsertAll(m, batch).msgs.Keys == m.msgs.Keys + BatchKeys(batch)
    ensures SumSizes(InsertAll(m, batch).msgs) == SumSizes(m.msgs) + BatchSize(batch)
  {
    if batch != [] {
      var last, init := batch[|batch| - 1], batch[..|batch| - 1];
      NewBatchInit(m, batch);
      InsertAllValid(m, init);
      var n := InsertAll(m, init);
      assert n.msgs - {last.key} == n.msgs;
      InsertKeepsValid(n, last.key, last.msg);
      SumPut(n.msgs, last.key, last.msg);
    }
  }

  /** Evicting after every insertion, as the receiver does, ends in the very same state as
      inserting the whole batch and evicting once at the end. */
  lemma {:induction false} EagerEqualsLazy(m: Mem, caps: Caps, batch: seq<Arrival>)
    requires Valid(m) && NewBatch(m, batch) && batch != []
    ensures InsertAllEvicting(m, caps, batch)
         == Evict(InsertAll(m, batch), caps, batch[|batch| - 1].at)
  {
    var last, init := batch[|batch| - 1], batch[..|batch| - 1];
    if init != [] {
      NewBatchInit(m, batch);
      EagerEqualsLazy(m, caps, init);
      InsertAllValid(m, init);
      var n := InsertAll(m, init);
      assert n.msgs - {last.key} == n.msgs;
      EvictThenInsert(n, caps, last.key, last.msg, init[|init| - 1].at, last.at);
    }
  }

  // ---------------------------------------------------------------- expiry

  /** Queue in expiry order, give or take `slack`. */
  ghost predicate SortedWithin(m: Mem, slack: nat) {
    forall i, j :: 0 <= i < j < |m.order| && m.order[i] in m.msgs && m.order[j] in m.msgs
      ==> m.msgs[m.order[i]].expiryAt <= m.msgs[m.order[j]].expiryAt + slack
  }

  ghost predicate NoneExpired(m: Mem, now: int) {
    forall id :: id in m.msgs ==> m.msgs[id].expiryAt > now
  }

  lemma SortedSuffixLive(m: Mem, slack: nat, p: nat, now: int)
    requires SortedWithin(m, slack) && p < |m.order| && m.order[p] in m.msgs
    requires m.msgs[m.order[p]].expiryAt > now
    ensures forall id :: id in Kept(m.msgs, m.order[p..]) ==> m.msgs[id].expiryAt > now - slack
  {
    forall id | id in Kept(m.msgs, m.order[p..]) ensures m.msgs[id].expiryAt > now - slack {
      var j :| 0 <= j < |m.order[p..]| && m.order[p..][j] == id;
      assert m.order[p + j] == id;
    }
  }

  /** With the queue in expiry order up to a slack, stopping at the first live front leaves
      nothing that had expired by that much earlier. */
  lemma SortedEvictsExpired(m: Mem, slack: nat, caps: Caps, now: int)
    requires Valid(m) && SortedWithin(m, slack)
    ensures NoneExpired(Evict(m, caps, now), now - slack)
  {
    var p := EvictIsCut(m, caps, now);
    if p < |m.order| {
      assert m.order[p] in Elems(m.order);
      SortedSuffixLive(m, slack, p, now);
    }
  }

  lemma LiveBlocks(m: Mem, now: int, p: nat, i: nat, j: nat)
    requires StopsAt(m, Caps(0, 0), now, p) && i < j < |m.order|
    requires m.order[i] in m.msgs && m.order[j] in m.msgs && m.msgs[m.order[i]].expiryAt > now
    ensures m.order[j] in Cut(m, p).msgs && Cut(m, p).msgs[m.order[j]] == m.msgs[m.order[j]]
  {
    assert !MustGo(m, Caps(0, 0), now, i);
    assert p <= i;
    assert m.order[p..][j - p] == m.order[j];
  }

  /** Further out of order, a live front hides a message that expired longer ago. */
  lemma UnsortedLeavesExpired(m: Mem, slack: nat, i: nat, j: nat, now: int)
    requires Valid(m) && i < j < |m.order| && m.order[i] in m.msgs && m.order[j] in m.msgs
    requires m.msgs[m.order[i]].expiryAt > now == m.msgs[m.order[j]].expiryAt + slack
    ensures !NoneExpired(Evict(m, Caps(0, 0), now), now - slack)
  {
    var p := EvictIsCut(m, Caps(0, 0), now);
    LiveBlocks(m, now, p, i, j);
  }

  /** Eviction clears out everything that had expired `slack` earlier, at all times and under
      all limits, exactly when the queue is in expiry order up to that slack. */
  lemma ExpiryCompleteIffSorted(m: Mem, slack: nat)
    requires Valid(m)
    ensures SortedWithin(m, slack) <==> forall caps, now :: NoneExpired(Evict(m, caps, now), now - slack)
  {
    if SortedWithin(m, slack) {
      forall caps, now ensures NoneExpired(Evict(m, caps, now), now - slack) {
        SortedEvictsExpired(m, slack, caps, now);
      }
    } else {
      var i, j :| 0 <= i < j < |m.order| && m.order[i] in m.msgs && m.order[j] in m.msgs
        && m.msgs[m.order[i]].expiryAt > m.msgs[m.order[j]].expiryAt + slack;
      UnsortedLeavesExpired(m, slack, i, j, m.msgs[m.order[j]].expiryAt + slack);
    }
  }

  /** For instance: message 1 lives until 20, message 2 behind it until 10; at 10 neither goes. */
  lemma HiddenExpiryExample()
    ensures var m := Insert(Insert(Mem(map[], [], map[], 0, {}, {}), 1, StoredMsg("", Publish("a", []), 20, {})),
                            2, StoredMsg("", Publish("a", []), 10, {}));
      Evict(m, Caps(0, 0), 10) == m && !NoneExpired(m, 10)
  {
    var m := Insert(Insert(Mem(map[], [], map[], 0, {}, {}), 1, StoredMsg("", Publish("a", []), 20, {})),
                    2, StoredMsg("", Publish("a", []), 10, {}));
    assert m.order == [1, 2];
    assert 2 in m.msgs;
  }
}
