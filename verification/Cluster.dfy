/** The user tables of all nodes (src/api.rs): each operation is applied where it arrives and
    then delivered to every other node, at least once, before it counts as finished. */
module Cluster {
  import opened Options
  import opened Topic
  import opened AuthModel
  import opened AuthRequests

  type NodeId = nat

  /** An operation that has been applied at its origin and is being fanned out. */
  datatype Pending = Pending(op: ReplOp, waiting: set<NodeId>)

  datatype State = State(
    nodes: map<NodeId, Node>,
    pending: map<Text, Pending>,
    settled: map<Text, UserRecord>)   // the table as of the finished operations

  datatype Step =
    | Create(at: NodeId, q: NewUser, hash: Text)
    | Remove(at: NodeId, user: Text)
    | Deliver(user: Text, to: NodeId)
    | Finish(user: Text)
    | CatchUpFrom(to: NodeId, peer: NodeId, recs: seq<UserRecord>)
    | Login(at: NodeId, username: Option<Text>, password: Option<Text>, now: int)
    | Sweeping(at: NodeId, now: int)
    | Restarting(at: NodeId)

  function Value(users: map<Text, UserRecord>, u: Text): Option<UserRecord> {
    if u in users then Some(users[u]) else None
  }

  function NewValue(op: ReplOp): Option<UserRecord> {
    match op
    case Upsert(r) => Some(r)
    case Delete(_) => None
  }

  /** `recs` is a listing of the table `users`. */
  ghost predicate Lists(recs: seq<UserRecord>, users: map<Text, UserRecord>) {
    && (forall i :: 0 <= i < |recs| ==> recs[i].username in users && users[recs[i].username] == recs[i])
    && (forall u :: u in users ==> users[u] in recs)
  }

  /** The peer lists no user whose deletion is under way and has already reached this node. */
  ghost predicate NothingToRevive(s: State, to: NodeId, peer: NodeId)
    requires to in s.nodes && peer in s.nodes
  {
    forall u :: u in s.nodes[peer].users && u in s.pending && s.pending[u].op.Delete? ==> u in s.nodes[to].users
  }

  ghost predicate Enabled(cfg: Config, s: State, step: Step) {
    match step
    case Create(at, q, hash) => at in s.nodes && q.username !in s.pending && cfg.crypto.argon(hash, q.password)
    case Remove(at, user) => at in s.nodes && user !in s.pending
    case Deliver(user, to) => to in s.nodes && user in s.pending
    case Finish(user) => user in s.pending && s.pending[user].waiting == {}
    case CatchUpFrom(to, peer, recs) => to in s.nodes && peer in s.nodes && Lists(recs, s.nodes[peer].users)
    case Login(at, _, _, _) => at in s.nodes
    case Sweeping(at, _) => at in s.nodes
    case Restarting(at) => at in s.nodes
  }

  function SetNode(s: State, id: NodeId, n: Node): State {
    s.(nodes := s.nodes[id := n])
  }

  function Begin(s: State, user: Text, op: ReplOp, origin: NodeId): State {
    s.(pending := s.pending[user := Pending(op, s.nodes.Keys - {origin})])
  }

  function DoCreate(cfg: Config, s: State, at: NodeId, q: NewUser, hash: Text): State
    requires at in s.nodes
  {
    var (n, r) := CreateUser(cfg, s.nodes[at], q, hash);
    var t := SetNode(s, at, n);
    if r.Created? then Begin(t, q.username, Upsert(r.user), at) else t
  }

  function DoRemove(s: State, at: NodeId, user: Text): State
    requires at in s.nodes
  {
    var (n, existed) := DeleteUser(s.nodes[at], user);
    var t := SetNode(s, at, n);
    if existed then Begin(t, user, Delete(user), at) else t
  }

  function DoDeliver(s: State, user: Text, to: NodeId): State
    requires to in s.nodes && user in s.pending
  {
    var p := s.pending[user];
    SetNode(s, to, Replicate(s.nodes[to], p.op)).(pending := s.pending[user := p.(waiting := p.waiting - {to})])
  }

  function DoFinish(s: State, user: Text): State
    requires user in s.pending
  {
    s.(pending := s.pending - {user},
       settled := match s.pending[user].op
                  case Upsert(r) => s.settled[user := r]
                  case Delete(_) => s.settled - {user})
  }

  ghost function Do(cfg: Config, s: State, step: Step): State
    requires Enabled(cfg, s, step)
  {
    match step
    case Create(at, q, hash) => DoCreate(cfg, s, at, q, hash)
    case Remove(at, user) => DoRemove(s, at, user)
    case Deliver(user, to) => DoDeliver(s, user, to)
    case Finish(user) => DoFinish(s, user)
    case CatchUpFrom(to, peer, recs) => SetNode(s, to, CatchUp(s.nodes[to], recs))
    case Login(at, username, password, now) =>
      SetNode(s, at, Authenticate(cfg, s.nodes[at], username, password, now).0)
    case Sweeping(at, now) => SetNode(s, at, Sweep(s.nodes[at], now))
    case Restarting(at) => SetNode(s, at, Restart(s.nodes[at]))
  }

  ghost predicate OnlyNode(s: State, t: State, at: NodeId) {
    && t.nodes.Keys == s.nodes.Keys && t.settled == s.settled
    && forall id :: id in s.nodes && id != at ==> t.nodes[id] == s.nodes[id]
  }

  /** Removing a user the node holds takes the user out there and leaves the deletion to be
      delivered to every other node; removing any other changes no pending operation. */
  lemma RemovePends(cfg: Config, s: State, at: NodeId, user: Text)
    requires Enabled(cfg, s, Remove(at, user))
    ensures var t := Do(cfg, s, Remove(at, user));
      && OnlyNode(s, t, at) && user !in t.nodes[at].users
      && t.pending == if user in s.nodes[at].users
                      then s.pending[user := Pending(Delete(user), s.nodes.Keys - {at})]
                      else s.pending
  {
    DeleteAnswers(s.nodes[at], user);
    assert s.nodes[at := DeleteUser(s.nodes[at], user).0].Keys == s.nodes.Keys;
  }

  /** Creating a user, when the node accepts it, puts the record there and leaves that very record
      to be delivered to every other node. */
  lemma CreatePends(cfg: Config, s: State, at: NodeId, q: NewUser, hash: Text)
    requires Enabled(cfg, s, Create(at, q, hash))
    ensures var t := Do(cfg, s, Create(at, q, hash));
      var r := UserRecord(q.username, q.userid, hash, q.superuser, q.admin);
      && OnlyNode(s, t, at)
      && (if Acceptable(q) && q.username !in s.nodes[at].users then
            && q.username in t.nodes[at].users && t.nodes[at].users[q.username] == r
            && t.pending == s.pending[q.username := Pending(Upsert(r), s.nodes.Keys - {at})]
          else t.nodes[at] == s.nodes[at] && t.pending == s.pending)
  {
    CreateAnswers(cfg, s.nodes[at], q, hash);
    assert s.nodes[at := CreateUser(cfg, s.nodes[at], q, hash).0].Keys == s.nodes.Keys;
  }

  // ---------------------------------------------------------------- convergence

  /** What a node may hold for a user: the settled value when nothing is pending; while an
      operation is, the new value once it has been delivered, and until then the old value (or,
      for a creation that a snapshot has brought early, already the new one). */
  ghost predicate Consistent(s: State, id: NodeId, u: Text)
    requires id in s.nodes
  {
    var v := Value(s.nodes[id].users, u);
    if u !in s.pending then v == Value(s.settled, u)
    else
      var p := s.pending[u];
      if id !in p.waiting then v == NewValue(p.op)
      else v == Value(s.settled, u) || (p.op.Upsert? && v == NewValue(p.op))
  }

  ghost predicate Proper(s: State, u: Text)
    requires u in s.pending
  {
    match s.pending[u].op
    case Upsert(r) => r.username == u && NameOk(u) && u !in s.settled
    case Delete(name) => name == u && u in s.settled
  }

  ghost predicate Converging(s: State) {
    && (forall u :: u in s.pending ==> Proper(s, u))
    && (forall u :: u in s.pending ==> s.pending[u].waiting <= s.nodes.Keys)
    && (forall id, u :: id in s.nodes ==> Consistent(s, id, u))
  }

  ghost predicate Good(cfg: Config, s: State) {
    Converging(s) && forall id :: id in s.nodes ==> Coherent(cfg, s.nodes[id])
  }

  lemma SameTables(cfg: Config, s: State, at: NodeId, n: Node)
    requires Good(cfg, s) && at in s.nodes && n.users == s.nodes[at].users && Coherent(cfg, n)
    ensures Good(cfg, SetNode(s, at, n))
  {
    var t := SetNode(s, at, n);
    forall u | u in t.pending ensures Proper(t, u) { assert Proper(s, u); }
    forall id, u | id in t.nodes ensures Consistent(t, id, u) { assert Consistent(s, id, u); }
  }

  /** Starting an operation: the origin takes the new value, everybody else waits with the old. */
  lemma BeginConverges(s: State, at: NodeId, n: Node, user: Text, op: ReplOp)
    requires Converging(s) && at in s.nodes && user !in s.pending
    requires forall u :: Value(n.users, u) == if u == user then NewValue(op) else Value(s.nodes[at].users, u)
    requires match op
             case Upsert(r) => r.username == user && NameOk(user) && user !in s.settled
             case Delete(name) => name == user && user in s.settled
    ensures Converging(Begin(SetNode(s, at, n), user, op, at))
  {
    var t := Begin(SetNode(s, at, n), user, op, at);
    forall u | u in t.pending ensures Proper(t, u) {
      if u != user { assert Proper(s, u); }
    }
    forall id, u | id in t.nodes ensures Consistent(t, id, u) { assert Consistent(s, id, u); }
  }

  lemma CreateGood(cfg: Config, s: State, at: NodeId, q: NewUser, hash: Text)
    requires Good(cfg, s) && Enabled(cfg, s, Create(at, q, hash))
    ensures Good(cfg, DoCreate(cfg, s, at, q, hash))
  {
    var (n, r) := CreateUser(cfg, s.nodes[at], q, hash);
    CreateKeeps(cfg, s.nodes[at], q, hash);
    assert Consistent(s, at, q.username);
    if r.Created? {
      assert NUL !in q.username;
      BeginConverges(s, at, n, q.username, Upsert(r.user));
    } else {
      SameTables(cfg, s, at, n);
    }
  }

  lemma RemoveGood(cfg: Config, s: State, at: NodeId, user: Text)
    requires Good(cfg, s) && Enabled(cfg, s, Remove(at, user))
    ensures Good(cfg, DoRemove(s, at, user))
  {
    var (n, existed) := DeleteUser(s.nodes[at], user);
    DropKeeps(cfg, s.nodes[at], user);
    assert Consistent(s, at, user);
    if existed {
      BeginConverges(s, at, n, user, Delete(user));
    } else {
      SameTables(cfg, s, at, n);
    }
  }

  lemma ReplicateValue(n: Node, op: ReplOp, user: Text, u: Text)
    requires user == match op case Upsert(r) => r.username case Delete(name) => name
    ensures Value(Replicate(n, op).users, u) == if u == user then NewValue(op) else Value(n.users, u)
  {}

  lemma DeliverConverges(s: State, user: Text, to: NodeId)
    requires Converging(s) && to in s.nodes && user in s.pending
    ensures Converging(DoDeliver(s, user, to))
  {
    var t := DoDeliver(s, user, to);
    assert Proper(s, user);
    forall u | u in t.pending ensures Proper(t, u) { assert Proper(s, u); }
    forall id, u | id in t.nodes ensures Consistent(t, id, u) {
      assert Consistent(s, id, u);
      ReplicateValue(s.nodes[to], s.pending[user].op, user, u);
    }
  }

  lemma DeliverGood(cfg: Config, s: State, user: Text, to: NodeId)
    requires Good(cfg, s) && Enabled(cfg, s, Deliver(user, to))
    ensures Good(cfg, DoDeliver(s, user, to))
  {
    assert Proper(s, user) && Consistent(s, to, user);
    ReplicateKeeps(cfg, s.nodes[to], s.pending[user].op);
    DeliverConverges(s, user, to);
  }

  lemma FinishGood(cfg: Config, s: State, user: Text)
    requires Good(cfg, s) && Enabled(cfg, s, Finish(user))
    ensures Good(cfg, DoFinish(s, user))
  {
    var t := DoFinish(s, user);
    assert Proper(s, user);
    forall u | u in t.pending ensures Proper(t, u) { assert Proper(s, u); }
    forall id, u | id in t.nodes ensures Consistent(t, id, u) { assert Consistent(s, id, u); }
  }

  lemma {:induction false} UpsertAllValue(users: map<Text, UserRecord>, recs: seq<UserRecord>,
      peer: map<Text, UserRecord>, u: Text)
    requires forall i :: 0 <= i < |recs| ==> recs[i].username in peer && peer[recs[i].username] == recs[i]
    ensures Value(UpsertAll(users, recs), u)
         == if exists i :: 0 <= i < |recs| && recs[i].username == u then Value(peer, u) else Value(users, u)
  {
    if recs != [] {
      var init, last := recs[..|recs| - 1], recs[|recs| - 1];
      UpsertAllValue(users, init, peer, u);
      if last.username == u {
        assert recs[|recs| - 1].username == u;
      } else if i :| 0 <= i < |recs| && recs[i].username == u {
        assert init[i].username == u;
      } else {
        assert forall i :: 0 <= i < |init| ==> init[i] == recs[i];
      }
    }
  }

  /** Applying a peer's listing puts the peer's records over one's own. */
  lemma ListedValue(users: map<Text, UserRecord>, recs: seq<UserRecord>, peer: map<Text, UserRecord>, u: Text)
    requires Lists(recs, peer) && NamesOk(peer)
    ensures Value(UpsertAll(users, recs), u) == if u in peer then Some(peer[u]) else Value(users, u)
  {
    UpsertAllValue(users, recs, peer, u);
    if u in peer {
      var i :| 0 <= i < |recs| && recs[i] == peer[u];
      assert recs[i].username == u;
    }
  }

  /** A careful catch-up adds what the peer has and changes nothing this node has. */
  lemma CatchUpTable(s: State, to: NodeId, peer: NodeId, recs: seq<UserRecord>)
    requires Converging(s) && to in s.nodes && peer in s.nodes && NothingToRevive(s, to, peer)
    requires Lists(recs, s.nodes[peer].users) && NamesOk(s.nodes[peer].users)
    ensures var users, n, p := UpsertAll(s.nodes[to].users, recs), s.nodes[to].users, s.nodes[peer].users;
      && (forall u :: Value(users, u) == (if u in n then Some(n[u]) else Value(p, u)))
      && (forall u :: u in n ==> u in users && users[u] == n[u])
  {
    var users, n, p := UpsertAll(s.nodes[to].users, recs), s.nodes[to].users, s.nodes[peer].users;
    forall u ensures Value(users, u) == if u in n then Some(n[u]) else Value(p, u) {
      ListedValue(n, recs, p, u);
      assert Consistent(s, to, u) && Consistent(s, peer, u);
      if u in s.pending { assert Proper(s, u); }
    }
    forall u | u in n ensures u in users && users[u] == n[u] {
      assert Value(users, u) == Some(n[u]);
    }
  }

  lemma CatchUpConverges(s: State, to: NodeId, peer: NodeId, m: Node)
    requires Converging(s) && to in s.nodes && peer in s.nodes && NothingToRevive(s, to, peer)
    requires forall u :: u in s.nodes[to].users ==> Value(m.users, u) == Value(s.nodes[to].users, u)
    requires forall u :: u !in s.nodes[to].users ==> Value(m.users, u) == Value(s.nodes[peer].users, u)
    ensures Converging(SetNode(s, to, m))
  {
    var t := SetNode(s, to, m);
    forall u | u in t.pending ensures Proper(t, u) { assert Proper(s, u); }
    forall id, u | id in t.nodes ensures Consistent(t, id, u) {
      assert Consistent(s, id, u) && Consistent(s, to, u) && Consistent(s, peer, u);
      if u in s.pending { assert Proper(s, u); }
    }
  }

  lemma CatchUpGood(cfg: Config, s: State, to: NodeId, peer: NodeId, recs: seq<UserRecord>)
    requires Good(cfg, s) && Enabled(cfg, s, CatchUpFrom(to, peer, recs)) && NothingToRevive(s, to, peer)
    ensures Good(cfg, Do(cfg, s, CatchUpFrom(to, peer, recs)))
  {
    var n, p := s.nodes[to].users, s.nodes[peer].users;
    var users := UpsertAll(n, recs);
    CatchUpTable(s, to, peer, recs);
    forall u | u in users ensures users[u].username == u && NUL !in u && u != "" {
      assert Value(users, u) == Some(users[u]);
    }
    CatchUpKeeps(cfg, s.nodes[to], recs);
    CatchUpConverges(s, to, peer, CatchUp(s.nodes[to], recs));
  }

  ghost predicate Careful(s: State, step: Step) {
    step.CatchUpFrom? && step.to in s.nodes && step.peer in s.nodes ==> NothingToRevive(s, step.to, step.peer)
  }

  lemma StepGood(cfg: Config, s: State, step: Step)
    requires CollisionFree(cfg.crypto) && Good(cfg, s) && Enabled(cfg, s, step) && Careful(s, step)
    ensures Good(cfg, Do(cfg, s, step))
  {
    match step
    case Create(at, q, hash) => CreateGood(cfg, s, at, q, hash);
    case Remove(at, user) => RemoveGood(cfg, s, at, user);
    case Deliver(user, to) => DeliverGood(cfg, s, user, to);
    case Finish(user) => FinishGood(cfg, s, user);
    case CatchUpFrom(to, peer, recs) => CatchUpGood(cfg, s, to, peer, recs);
    case Login(at, username, password, now) =>
      FastEqualsSlow(cfg, s.nodes[at], username, password, now);
      SameTables(cfg, s, at, Authenticate(cfg, s.nodes[at], username, password, now).0);
    case Sweeping(at, now) => SameTables(cfg, s, at, Sweep(s.nodes[at], now));
    case Restarting(at) => SameTables(cfg, s, at, Restart(s.nodes[at]));
  }

  // ---------------------------------------------------------------- runs

  /** Equal tables, nothing pending, no cache or verifier ahead of its table. */
  ghost predicate Initial(cfg: Config, s: State) {
    && s.pending == map[]
    && forall id :: id in s.nodes ==> s.nodes[id].users == s.settled && Coherent(cfg, s.nodes[id])
  }

  ghost predicate Run(cfg: Config, s: State, steps: seq<Step>)
    decreases |steps|, 0
  {
    steps == [] ||
    var init := steps[..|steps| - 1];
    Run(cfg, s, init) && Enabled(cfg, Exec(cfg, s, init), steps[|steps| - 1])
  }

  ghost function Exec(cfg: Config, s: State, steps: seq<Step>): State
    requires Run(cfg, s, steps)
    decreases |steps|, 1
  {
    if steps == [] then s
    else Do(cfg, Exec(cfg, s, steps[..|steps| - 1]), steps[|steps| - 1])
  }

  lemma OneMore(cfg: Config, s: State, steps: seq<Step>, step: Step)
    requires Run(cfg, s, steps) && Enabled(cfg, Exec(cfg, s, steps), step)
    ensures Run(cfg, s, steps + [step]) && Exec(cfg, s, steps + [step]) == Do(cfg, Exec(cfg, s, steps), step)
  {
    assert (steps + [step])[..|steps + [step]| - 1] == steps;
  }

  /** A run in which no catch-up brings back a user that a deletion under way has taken. */
  ghost predicate CarefulRun(cfg: Config, s: State, steps: seq<Step>) {
    && Run(cfg, s, steps)
    && (steps == [] ||
        var init := steps[..|steps| - 1];
        CarefulRun(cfg, s, init) && Careful(Exec(cfg, s, init), steps[|steps| - 1]))
  }

  lemma InitialGood(cfg: Config, s: State)
    requires Initial(cfg, s)
    ensures Good(cfg, s)
  {
    forall id, u | id in s.nodes ensures Consistent(s, id, u) {}
  }

  lemma {:induction false} RunGood(cfg: Config, s: State, steps: seq<Step>)
    requires CollisionFree(cfg.crypto) && Good(cfg, s) && CarefulRun(cfg, s, steps)
    ensures Good(cfg, Exec(cfg, s, steps))
  {
    if steps != [] {
      var init := steps[..|steps| - 1];
      RunGood(cfg, s, init);
      StepGood(cfg, Exec(cfg, s, init), steps[|steps| - 1]);
    }
  }

  /** Replica convergence: whenever no operation is pending, all nodes hold the same users. */
  lemma QuietMeansEqual(cfg: Config, s: State, steps: seq<Step>, a: NodeId, b: NodeId)
    requires CollisionFree(cfg.crypto) && Initial(cfg, s) && CarefulRun(cfg, s, steps)
    requires var e := Exec(cfg, s, steps); e.pending == map[] && a in e.nodes && b in e.nodes
    ensures var e := Exec(cfg, s, steps); e.nodes[a].users == e.nodes[b].users == e.settled
  {
    var e := Exec(cfg, s, steps);
    InitialGood(cfg, s);
    RunGood(cfg, s, steps);
    TableIsSettled(e, a);
    TableIsSettled(e, b);
  }

  lemma TableIsSettled(e: State, a: NodeId)
    requires Converging(e) && e.pending == map[] && a in e.nodes
    ensures e.nodes[a].users == e.settled
  {
    forall u ensures Value(e.nodes[a].users, u) == Value(e.settled, u) { assert Consistent(e, a, u); }
    forall u ensures u in e.nodes[a].users <==> u in e.settled {
      assert Value(e.nodes[a].users, u) == Value(e.settled, u);
    }
    forall u | u in e.settled ensures e.nodes[a].users[u] == e.settled[u] {
      assert Value(e.nodes[a].users, u) == Value(e.settled, u);
    }
  }

  /** At every moment each node holds for each user the settled value or the pending new one. */
  lemma OldOrNew(cfg: Config, s: State, steps: seq<Step>, a: NodeId, u: Text)
    requires CollisionFree(cfg.crypto) && Initial(cfg, s) && CarefulRun(cfg, s, steps)
    requires a in Exec(cfg, s, steps).nodes
    ensures var e := Exec(cfg, s, steps); var v := Value(e.nodes[a].users, u);
      v == Value(e.settled, u) || (u in e.pending && v == NewValue(e.pending[u].op))
  {
    InitialGood(cfg, s);
    RunGood(cfg, s, steps);
    assert Consistent(Exec(cfg, s, steps), a, u);
  }

  /** On every node, at every moment of every run, authentication gives the answer of the slow
      check on that node's table. */
  lemma EveryNodeAnswersTruly(cfg: Config, s: State, steps: seq<Step>, a: NodeId,
      username: Option<Text>, password: Option<Text>, now: int)
    requires CollisionFree(cfg.crypto) && Initial(cfg, s) && CarefulRun(cfg, s, steps)
    requires a in Exec(cfg, s, steps).nodes
    ensures var n := Exec(cfg, s, steps).nodes[a];
      Authenticate(cfg, n, username, password, now).1 == SlowAnswer(cfg, n.users, username, password)
  {
    InitialGood(cfg, s);
    RunGood(cfg, s, steps);
    FastEqualsSlow(cfg, Exec(cfg, s, steps).nodes[a], username, password, now);
  }

  /** Once nothing is pending, any two nodes answer the same credentials alike, whatever their
      caches hold and whatever their clocks say. */
  lemma NodesAgree(cfg: Config, s: State, steps: seq<Step>, a: NodeId, b: NodeId,
      username: Option<Text>, password: Option<Text>, t1: int, t2: int)
    requires CollisionFree(cfg.crypto) && Initial(cfg, s) && CarefulRun(cfg, s, steps)
    requires var e := Exec(cfg, s, steps); e.pending == map[] && a in e.nodes && b in e.nodes
    ensures var e := Exec(cfg, s, steps);
      Authenticate(cfg, e.nodes[a], username, password, t1).1 == Authenticate(cfg, e.nodes[b], username, password, t2).1
  {
    QuietMeansEqual(cfg, s, steps, a, b);
    EveryNodeAnswersTruly(cfg, s, steps, a, username, password, t1);
    EveryNodeAnswersTruly(cfg, s, steps, b, username, password, t2);
  }

  /** A deletion that has reached a node stops that user there at once, cached or not. */
  lemma DeletedIsDenied(cfg: Config, s: State, steps: seq<Step>, a: NodeId, u: Text, password: Option<Text>, now: int)
    requires CollisionFree(cfg.crypto) && Initial(cfg, s) && CarefulRun(cfg, s, steps) && !cfg.authDisabled
    requires var e := Exec(cfg, s, steps);
      a in e.nodes && if u in e.pending then e.pending[u].op.Delete? && a !in e.pending[u].waiting else u !in e.settled
    ensures Authenticate(cfg, Exec(cfg, s, steps).nodes[a], Some(u), password, now).1 == Deny
  {
    InitialGood(cfg, s);
    RunGood(cfg, s, steps);
    assert Consistent(Exec(cfg, s, steps), a, u);
    EveryNodeAnswersTruly(cfg, s, steps, a, Some(u), password, now);
  }

  // ---------------------------------------------------------------- catching up during a deletion

  predicate NoCatchUp(steps: seq<Step>) {
    forall i :: 0 <= i < |steps| ==> !steps[i].CatchUpFrom?
  }

  ghost predicate EqualTables(s: State) {
    forall a, b :: a in s.nodes && b in s.nodes ==> s.nodes[a].users == s.nodes[b].users
  }

  lemma {:induction false} NoCatchUpIsCareful(cfg: Config, s: State, steps: seq<Step>)
    requires Run(cfg, s, steps) && NoCatchUp(steps)
    ensures CarefulRun(cfg, s, steps)
  {
    if steps != [] {
      var init := steps[..|steps| - 1];
      assert forall i :: 0 <= i < |init| ==> init[i] == steps[i];
      NoCatchUpIsCareful(cfg, s, init);
    }
  }

  /** `u` is back on node `to`, where its deletion will not be delivered again, and it is gone or
      going from node `peer`. */
  ghost predicate Revived(s: State, to: NodeId, peer: NodeId, u: Text) {
    && to in s.nodes && peer in s.nodes && to != peer && u in s.nodes[to].users
    && (if u in s.pending then s.pending[u].op.Delete? && to !in s.pending[u].waiting
                               && (peer in s.pending[u].waiting || u !in s.nodes[peer].users)
        else u !in s.nodes[peer].users)
    && forall v :: v in s.pending ==> s.pending[v].waiting <= s.nodes.Keys && Named(s.pending[v].op, v)
  }

  ghost predicate Named(op: ReplOp, u: Text) {
    u == match op case Upsert(r) => r.username case Delete(name) => name
  }

  lemma DeliverRevived(s: State, to: NodeId, peer: NodeId, u: Text, user: Text, at: NodeId)
    requires Revived(s, to, peer, u) && user in s.pending && at in s.pending[user].waiting
    ensures Revived(DoDeliver(s, user, at), to, peer, u)
  {
    var t := DoDeliver(s, user, at);
    ReplicateValue(s.nodes[at], s.pending[user].op, user, u);
    assert t.nodes.Keys == s.nodes.Keys;
    forall v | v in t.pending ensures t.pending[v].waiting <= t.nodes.Keys && Named(t.pending[v].op, v) {
      assert s.pending[v].waiting <= s.nodes.Keys && Named(s.pending[v].op, v);
    }
  }

  lemma FinishRevived(s: State, to: NodeId, peer: NodeId, u: Text, user: Text)
    requires Revived(s, to, peer, u) && user in s.pending && s.pending[user].waiting == {}
    ensures Revived(DoFinish(s, user), to, peer, u)
    ensures DoFinish(s, user).pending.Keys == s.pending.Keys - {user}
  {
    var t := DoFinish(s, user);
    forall v | v in t.pending ensures t.pending[v].waiting <= t.nodes.Keys && Named(t.pending[v].op, v) {
      assert s.pending[v].waiting <= s.nodes.Keys && Named(s.pending[v].op, v);
    }
  }

  lemma OneMoreNoCatchUp(cfg: Config, s: State, steps: seq<Step>, step: Step)
    requires Run(cfg, s, steps) && NoCatchUp(steps) && Enabled(cfg, Exec(cfg, s, steps), step) && !step.CatchUpFrom?
    ensures Run(cfg, s, steps + [step]) && NoCatchUp(steps + [step])
    ensures Exec(cfg, s, steps + [step]) == Do(cfg, Exec(cfg, s, steps), step)
  {
    OneMore(cfg, s, steps, step);
  }

  lemma DeliverAll(cfg: Config, s: State, init: seq<Step>, to: NodeId, peer: NodeId, u: Text, user: Text)
    returns (steps: seq<Step>)
    requires Run(cfg, s, init) && NoCatchUp(init) && Revived(Exec(cfg, s, init), to, peer, u)
    requires user in Exec(cfg, s, init).pending
    ensures Run(cfg, s, steps) && NoCatchUp(steps) && Revived(Exec(cfg, s, steps), to, peer, u)
    ensures Exec(cfg, s, steps).pending.Keys == Exec(cfg, s, init).pending.Keys
    ensures Exec(cfg, s, steps).pending[user].waiting == {}
    decreases Exec(cfg, s, init).pending[user].waiting
  {
    var e := Exec(cfg, s, init);
    if e.pending[user].waiting == {} { return init; }
    var at :| at in e.pending[user].waiting;
    OneMoreNoCatchUp(cfg, s, init, Deliver(user, at));
    DeliverRevived(e, to, peer, u, user, at);
    steps := DeliverAll(cfg, s, init + [Deliver(user, at)], to, peer, u, user);
  }

  lemma SettleAll(cfg: Config, s: State, init: seq<Step>, to: NodeId, peer: NodeId, u: Text)
    returns (steps: seq<Step>)
    requires Run(cfg, s, init) && NoCatchUp(init) && Revived(Exec(cfg, s, init), to, peer, u)
    ensures Run(cfg, s, steps) && NoCatchUp(steps) && Revived(Exec(cfg, s, steps), to, peer, u)
    ensures Exec(cfg, s, steps).pending == map[]
    decreases Exec(cfg, s, init).pending.Keys
  {
    var e := Exec(cfg, s, init);
    if e.pending == map[] { return init; }
    var user :| user in e.pending;
    var all := DeliverAll(cfg, s, init, to, peer, u, user);
    FinishRevived(Exec(cfg, s, all), to, peer, u, user);
    OneMoreNoCatchUp(cfg, s, all, Finish(user));
    steps := SettleAll(cfg, s, all + [Finish(user)], to, peer, u);
  }

  lemma CatchUpRevived(cfg: Config, s: State, to: NodeId, peer: NodeId, recs: seq<UserRecord>) returns (u: Text)
    requires Good(cfg, s) && Enabled(cfg, s, CatchUpFrom(to, peer, recs)) && !NothingToRevive(s, to, peer)
    ensures Revived(Do(cfg, s, CatchUpFrom(to, peer, recs)), to, peer, u)
  {
    u :| u in s.nodes[peer].users && u in s.pending && s.pending[u].op.Delete? && u !in s.nodes[to].users;
    var t := Do(cfg, s, CatchUpFrom(to, peer, recs));
    ListedValue(s.nodes[to].users, recs, s.nodes[peer].users, u);
    assert Proper(s, u) && Consistent(s, to, u) && Consistent(s, peer, u);
    assert t.nodes.Keys == s.nodes.Keys;
    forall v | v in t.pending ensures t.pending[v].waiting <= t.nodes.Keys && Named(t.pending[v].op, v) {
      assert Proper(s, v);
    }
  }

  /** A catch-up is safe - every continuation without another one that leaves nothing pending
      leaves all tables equal - if and only if it brings back no user that a deletion under way
      has already taken from this node. */
  lemma CatchUpSafeIff(cfg: Config, s: State, to: NodeId, peer: NodeId, recs: seq<UserRecord>)
    requires CollisionFree(cfg.crypto) && Good(cfg, s) && Enabled(cfg, s, CatchUpFrom(to, peer, recs))
    ensures var t := Do(cfg, s, CatchUpFrom(to, peer, recs));
      NothingToRevive(s, to, peer) <==>
        forall steps :: Run(cfg, t, steps) && NoCatchUp(steps) && Exec(cfg, t, steps).pending == map[]
          ==> EqualTables(Exec(cfg, t, steps))
  {
    var t := Do(cfg, s, CatchUpFrom(to, peer, recs));
    if NothingToRevive(s, to, peer) {
      CatchUpGood(cfg, s, to, peer, recs);
      forall steps | Run(cfg, t, steps) && NoCatchUp(steps) && Exec(cfg, t, steps).pending == map[]
        ensures EqualTables(Exec(cfg, t, steps))
      {
        NoCatchUpIsCareful(cfg, t, steps);
        RunGood(cfg, t, steps);
        QuietGoodIsEqual(cfg, Exec(cfg, t, steps));
      }
    } else {
      var u := CatchUpRevived(cfg, s, to, peer, recs);
      var steps := SettleAll(cfg, t, [], to, peer, u);
      assert !EqualTables(Exec(cfg, t, steps));
    }
  }

  lemma QuietGoodIsEqual(cfg: Config, e: State)
    requires Good(cfg, e) && e.pending == map[]
    ensures EqualTables(e)
  {
    forall a | a in e.nodes ensures e.nodes[a].users == e.settled { TableIsSettled(e, a); }
  }

  /** For instance, from equal tables: Ann is deleted on node 0; before node 1 hears of it, node 0
      catches up from node 1; the deletion then reaches node 1 and is finished. Nothing is
      pending, and Ann is a user of node 0 only. */
  lemma CatchUpRevives(cfg: Config) returns (s: State, ann: UserRecord, steps: seq<Step>)
    ensures Initial(cfg, s) && ann.username == "ann" && s.nodes.Keys == {0, 1} && s.settled == map["ann" := ann]
    ensures steps == [] + [Remove(0, "ann")] + [CatchUpFrom(0, 1, [ann])] + [Deliver("ann", 1)] + [Finish("ann")]
    ensures Run(cfg, s, steps)
    ensures var e := Exec(cfg, s, steps);
      && e.pending == map[] && e.nodes.Keys == {0, 1}
      && e.nodes[0].users == map["ann" := ann] && e.nodes[1].users == map[]
  {
    ann := UserRecord("ann", "1", "h", false, false);
    var all := map["ann" := ann];
    var n, none := Node(all, map[], map[], map[]), Node(map[], map[], map[], map[]);
    s := State(map[0 := n, 1 := n], map[], all);
    assert NameOk("ann");
    var s1 := State(map[0 := none, 1 := n], map["ann" := Pending(Delete("ann"), {1})], all);
    var s2 := State(map[0 := n, 1 := n], map["ann" := Pending(Delete("ann"), {1})], all);
    var s3 := State(map[0 := n, 1 := none], map["ann" := Pending(Delete("ann"), {})], all);
    AnnSteps(ann, s, s1, s2, s3);
    OneMore(cfg, s, [], Remove(0, "ann"));
    OneMore(cfg, s, [] + [Remove(0, "ann")], CatchUpFrom(0, 1, [ann]));
    OneMore(cfg, s, [] + [Remove(0, "ann")] + [CatchUpFrom(0, 1, [ann])], Deliver("ann", 1));
    OneMore(cfg, s, [] + [Remove(0, "ann")] + [CatchUpFrom(0, 1, [ann])] + [Deliver("ann", 1)], Finish("ann"));
    steps := [] + [Remove(0, "ann")] + [CatchUpFrom(0, 1, [ann])] + [Deliver("ann", 1)] + [Finish("ann")];
  }

  lemma AnnSteps(ann: UserRecord, s: State, s1: State, s2: State, s3: State)
    requires ann.username == "ann"
    requires var all := map["ann" := ann];
      var n, none := Node(all, map[], map[], map[]), Node(map[], map[], map[], map[]);
      && s == State(map[0 := n, 1 := n], map[], all)
      && s1 == State(map[0 := none, 1 := n], map["ann" := Pending(Delete("ann"), {1})], all)
      && s2 == State(map[0 := n, 1 := n], map["ann" := Pending(Delete("ann"), {1})], all)
      && s3 == State(map[0 := n, 1 := none], map["ann" := Pending(Delete("ann"), {})], all)
    ensures DoRemove(s, 0, "ann") == s1 && SetNode(s1, 0, CatchUp(s1.nodes[0], [ann])) == s2
    ensures DoDeliver(s2, "ann", 1) == s3 && Lists([ann], s1.nodes[1].users)
  {
    var all := map["ann" := ann];
    var n, none := Node(all, map[], map[], map[]), Node(map[], map[], map[], map[]);
    assert all - {"ann"} == map[] && n.verifiers - {"ann"} == map[] && n.userCache - {"ann"} == map[];
    assert DeleteUser(n, "ann").0 == none && Replicate(n, Delete("ann")) == none;
    assert s1.nodes.Keys == {0, 1} && s1.nodes.Keys - {0} == {1} && {1} - {1} == {};
    assert s.nodes[0 := none] == s1.nodes && s1.nodes[0 := n] == s2.nodes && s2.nodes[1 := none] == s3.nodes;
    assert s.pending["ann" := Pending(Delete("ann"), {1})] == s1.pending;
    assert s2.pending["ann" := Pending(Delete("ann"), {})] == s3.pending;
    assert [ann][..0] == [] && [ann][0] == ann;
    assert UpsertAll(map[], [ann]) == all;
  }
}
