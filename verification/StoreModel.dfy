/** Message ids, disk rows and recovery of src/msgstore.rs as values. */
module StoreModel {
  import opened Topic
  import opened MemModel

  // ---------------------------------------------------------------- message ids

  const LOW := 0x1_0000_0000_0000       // 2^48: the counter part of an id
  const WORD := 0x1_0000_0000_0000_0000 // 2^64
  const MAX_NODE := 0x1_0000

  /** `(node << 48) | (counter & mask)` on 64-bit words: the two parts share no bit. */
  function NextId(node: nat, counter: nat): Id {
    (node * LOW) % WORD + counter % LOW
  }

  function NodeOf(id: Id): nat { id / LOW }

  function LowPart(id: Id): nat { id % LOW }

  /** An id gives back the 48-bit counter it was made from, and its node modulo 2^16: the node
      itself exactly when that is below 2^16. */
  lemma IdParts(node: nat, counter: nat)
    ensures LowPart(NextId(node, counter)) == counter % LOW
    ensures NodeOf(NextId(node, counter)) == node % MAX_NODE
    ensures NodeOf(NextId(node, counter)) == node <==> node < MAX_NODE
  {
    var q, r := node / MAX_NODE, node % MAX_NODE;
    assert node * LOW == q * WORD + r * LOW;
    assert (node * LOW) % WORD == r * LOW;
  }

  /** An id is made from its own two parts. */
  lemma IdFromParts(id: Id, node: nat)
    requires NodeOf(id) == node < MAX_NODE
    ensures NextId(node, LowPart(id)) == id
  {}

  const I64_MAX := 0x7FFF_FFFF_FFFF_FFFF

  function ExpiryAt(now: int, interval: nat): int {
    if now + interval > I64_MAX then I64_MAX else now + interval
  }

  // ---------------------------------------------------------------- disk

  /** A row of the messages table: a message, or bytes that do not decode to one. */
  datatype Row = Stored(msg: StoredMsg) | Garbage

  type Disk = map<Id, Row>

  /** The messages a reader at time `now` finds on disk. */
  function Live(disk: Disk, now: int): map<Id, StoredMsg> {
    map id | id in disk && disk[id].Stored? && disk[id].msg.expiryAt > now :: disk[id].msg
  }

  function Unexpired(msgs: map<Id, StoredMsg>, now: int): map<Id, StoredMsg> {
    map id | id in msgs && msgs[id].expiryAt > now :: msgs[id]
  }

  /** One committed write transaction: deletions first, then insertions. */
  function ApplyBatch(disk: Disk, b: Batch): Disk {
    map id | id in (disk.Keys - b.dels) + b.puts.Keys ::
      if id in b.puts then Stored(b.puts[id]) else disk[id]
  }

  // ---------------------------------------------------------------- recovery

  predicate Before(msgs: map<Id, StoredMsg>, a: Id, b: Id)
    requires a in msgs && b in msgs
  {
    msgs[a].expiryAt < msgs[b].expiryAt || (msgs[a].expiryAt == msgs[b].expiryAt && a < b)
  }

  ghost predicate SortedIds(msgs: map<Id, StoredMsg>, order: seq<Id>) {
    && (forall i :: 0 <= i < |order| ==> order[i] in msgs)
    && forall i, j :: 0 <= i < j < |order| ==> Before(msgs, order[i], order[j])
  }

  /** The memory state `open` builds from the rows it finds. */
  ghost predicate IsOpened(m: Mem, disk: Disk, now: int) {
    && m.msgs == Live(disk, now)
    && SortedIds(m.msgs, m.order)
    && Elems(m.order) == m.msgs.Keys
    && m.byTopic == IndexOf(m.msgs)
    && m.bytes == SumSizes(m.msgs)
    && m.dirty == {} && m.removed == {}
  }

  /** The counter `open` starts from: one past the largest of this node's ids on disk, whether
      or not the row decodes or is still live. */
  ghost predicate IsStart(start: nat, disk: Disk, node: nat) {
    && (forall id :: id in disk && NodeOf(id) == node ==> LowPart(id) < start)
    && (start == 0 || exists id :: id in disk && NodeOf(id) == node && LowPart(id) + 1 == start)
  }

  lemma OpenedIsValid(m: Mem, disk: Disk, now: int)
    requires IsOpened(m, disk, now)
    ensures Valid(m) && SortedWithin(m, 0)
  {
    forall i, j | 0 <= i < j < |m.order| ensures m.order[i] != m.order[j] {
      assert Before(m.msgs, m.order[i], m.order[j]);
    }
    forall i, j | 0 <= i < j < |m.order|
      ensures m.msgs[m.order[i]].expiryAt <= m.msgs[m.order[j]].expiryAt
    {
      assert Before(m.msgs, m.order[i], m.order[j]);
    }
  }

  /** The queue rebuilt at open: earlier expiry first, and among equals the smaller id. */
  lemma OpenedOrder(m: Mem, disk: Disk, now: int, i: nat, j: nat)
    requires IsOpened(m, disk, now) && i < j < |m.order|
    ensures m.order[i] in m.msgs && m.order[j] in m.msgs
    ensures m.msgs[m.order[i]].expiryAt < m.msgs[m.order[j]].expiryAt
      || (m.msgs[m.order[i]].expiryAt == m.msgs[m.order[j]].expiryAt && m.order[i] < m.order[j])
  {
    assert Before(m.msgs, m.order[i], m.order[j]);
  }
}
