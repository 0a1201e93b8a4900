/** How old an answer from the caches can be, over any run of one node. Nothing is assumed about
    the records that replication and catch-up bring: they may replace records at will. */
module AuthHistory {
  import opened Options
  import opened Topic
  import opened AuthModel

  datatype Request =
    | Login(username: Option<Text>, password: Option<Text>)
    | Create(q: NewUser, hash: Text)
    | Remove(user: Text)
    | Peer(op: ReplOp)
    | Snapshot(recs: seq<UserRecord>)
    | Sweeping

  function Serve(cfg: Config, n: Node, r: Request, now: int): Node {
    match r
    case Login(username, password) => Authenticate(cfg, n, username, password, now).0
    case Create(q, hash) => CreateUser(cfg, n, q, hash).0
    case Remove(user) => DeleteUser(n, user).0
    case Peer(op) => Replicate(n, op)
    case Snapshot(recs) => CatchUp(n, recs)
    case Sweeping => Sweep(n, now)
  }

  /** The node right after it served `request` at time `at`. */
  datatype Moment = Moment(at: int, request: Request, node: Node)

  /** A run from an empty cache: each moment follows from the one before. */
  ghost predicate History(cfg: Config, h: seq<Moment>) {
    && |h| >= 1
    && h[0].node.userCache == map[] && h[0].node.authCache == map[]
    && forall i :: 0 < i < |h| ==> Follows(cfg, h, i)
  }

  ghost predicate Follows(cfg: Config, h: seq<Moment>, i: int)
    requires 0 < i < |h|
  {
    && h[i - 1].at <= h[i].at
    && h[i].node == Serve(cfg, h[i - 1].node, h[i].request, h[i].at)
  }

  ghost predicate NoNulNames(h: seq<Moment>) {
    forall i, u :: 0 <= i < |h| && u in h[i].node.users ==> NUL !in u
  }

  /** At moment `i` the database held `r` for `u`. */
  ghost predicate Held(h: seq<Moment>, i: int, u: Text, r: UserRecord)
    requires 0 <= i < |h|
  {
    u in h[i].node.users && h[i].node.users[u] == r
  }

  /** A real check: the cache has no entry for the credentials, and the verifier or the stored
      hash of the record looked up accepts them. */
  ghost predicate PassedCheck(cfg: Config, n: Node, u: Text, p: Text, now: int) {
    var r := Lookup(cfg, n, u, now).1;
    && r.Some? && CacheGet(n.authCache, AuthKey(cfg.crypto, u, p), now).None?
    && (FastCheck(cfg, n, u, p) || cfg.crypto.argon(r.value.passwordHash, p))
  }

  /** At moment `i` these credentials were put through a real check and passed. */
  ghost predicate Checked(cfg: Config, h: seq<Moment>, i: int, u: Text, p: Text)
    requires 0 < i < |h|
  {
    h[i].request == Login(Some(u), Some(p)) && PassedCheck(cfg, h[i - 1].node, u, p, h[i].at)
  }

  ghost predicate UserEntryDated(cfg: Config, h: seq<Moment>, u: Text, r: UserRecord, expiry: int) {
    exists i :: 0 <= i < |h| && Held(h, i, u, r) && expiry <= h[i].at + cfg.userTtl
  }

  ghost predicate KeyEntryDated(cfg: Config, h: seq<Moment>, k: Bytes, expiry: int) {
    exists i, u, p :: 0 < i < |h| && Checked(cfg, h, i, u, p) && NUL !in u
      && k == AuthKey(cfg.crypto, u, p) && expiry <= h[i].at + cfg.authTtl
  }

  /** Every cached record is dated by a moment of the history. */
  ghost predicate UsersDated(cfg: Config, h: seq<Moment>)
    requires |h| >= 1
  {
    var n := h[|h| - 1].node;
    forall u :: u in n.userCache ==> UserEntryDated(cfg, h, u, n.userCache[u].0, n.userCache[u].1)
  }

  /** Every cached success is dated by a moment of the history. */
  ghost predicate KeysDated(cfg: Config, h: seq<Moment>)
    requires |h| >= 1
  {
    var n := h[|h| - 1].node;
    && (forall u :: u in n.userCache ==> NUL !in u)
    && (forall k :: k in n.authCache ==> KeyEntryDated(cfg, h, k, n.authCache[k].1))
  }

  lemma UserEntryGrows(cfg: Config, h: seq<Moment>, m: Moment, u: Text, r: UserRecord, expiry: int)
    requires UserEntryDated(cfg, h, u, r, expiry)
    ensures UserEntryDated(cfg, h + [m], u, r, expiry)
  {
    var i :| 0 <= i < |h| && Held(h, i, u, r) && expiry <= h[i].at + cfg.userTtl;
    assert Held(h + [m], i, u, r);
  }

  lemma KeyEntryGrows(cfg: Config, h: seq<Moment>, m: Moment, k: Bytes, expiry: int)
    requires KeyEntryDated(cfg, h, k, expiry)
    ensures KeyEntryDated(cfg, h + [m], k, expiry)
  {
    var i, u, p :| 0 < i < |h| && Checked(cfg, h, i, u, p) && NUL !in u
      && k == AuthKey(cfg.crypto, u, p) && expiry <= h[i].at + cfg.authTtl;
    assert Checked(cfg, h + [m], i, u, p);
  }

  /** What a cache holds after a request: what it held before, but for at most one new entry. */
  ghost predicate NewEntry<K(!new), V(!new)>(before: Cache<K, V>, after: Cache<K, V>, k: K, e: (V, int)) {
    forall x :: x in after ==> (x in before && after[x] == before[x]) || (x == k && after[x] == e)
  }

  lemma LookupAdds(cfg: Config, n: Node, u: Text, now: int)
    ensures var m := Lookup(cfg, n, u, now).0;
      && m == n.(userCache := m.userCache)
      && (if u in n.users then NewEntry(n.userCache, m.userCache, u, (n.users[u], now + cfg.userTtl))
          else m.userCache == n.userCache)
  {}

  lemma CheckAdds(cfg: Config, n: Node, r: UserRecord, u: Text, p: Text, now: int)
    ensures var m, k := CheckPassword(cfg, n, r, u, p, now).0, AuthKey(cfg.crypto, u, p);
      && m.users == n.users && m.userCache == n.userCache
      && (m.authCache == n.authCache
          || (NewEntry(n.authCache, m.authCache, k, (r.superuser, now + cfg.authTtl))
              && CacheGet(n.authCache, k, now).None?
              && (FastCheck(cfg, n, u, p) || cfg.crypto.argon(r.passwordHash, p))))
  {}

  /** What a login may add to the caches of the node it runs on. */
  lemma LoginAdds(cfg: Config, n: Node, u: Text, p: Text, now: int)
    ensures var m, r := Authenticate(cfg, n, Some(u), Some(p), now).0, Lookup(cfg, n, u, now).1;
      && m.users == n.users
      && (m.userCache == n.userCache
          || (u in n.users && NewEntry(n.userCache, m.userCache, u, (n.users[u], now + cfg.userTtl))))
      && (m.authCache == n.authCache
          || (PassedCheck(cfg, n, u, p, now)
              && NewEntry(n.authCache, m.authCache, AuthKey(cfg.crypto, u, p), (r.value.superuser, now + cfg.authTtl))))
  {
    var (n1, r) := Lookup(cfg, n, u, now);
    LookupAdds(cfg, n, u, now);
    if r.Some? { CheckAdds(cfg, n1, r.value, u, p, now); }
  }

  /** No other request adds to a cache. */
  lemma OthersAdd(cfg: Config, n: Node, r: Request, now: int)
    requires !(r.Login? && r.username.Some? && r.password.Some?)
    ensures var m := Serve(cfg, n, r, now);
      && (forall u :: u in m.userCache ==> u in n.userCache && m.userCache[u] == n.userCache[u])
      && (forall k :: k in m.authCache ==> k in n.authCache && m.authCache[k] == n.authCache[k])
  {}

  lemma OneMoreUsersDated(cfg: Config, h: seq<Moment>, m: Moment, g: seq<Moment>)
    requires |h| >= 1 && g == h + [m] && UsersDated(cfg, h) && Follows(cfg, g, |h|)
    ensures UsersDated(cfg, g)
  {
    var n := h[|h| - 1].node;
    assert g[|h| - 1] == h[|h| - 1];
    match m.request {
      case Login(Some(u), Some(p)) => LoginAdds(cfg, n, u, p, m.at);
      case _ => OthersAdd(cfg, n, m.request, m.at);
    }
    forall v | v in m.node.userCache
      ensures UserEntryDated(cfg, g, v, m.node.userCache[v].0, m.node.userCache[v].1)
    {
      if v in n.userCache && m.node.userCache[v] == n.userCache[v] {
        UserEntryGrows(cfg, h, m, v, n.userCache[v].0, n.userCache[v].1);
      } else {
        assert Held(g, |h|, v, n.users[v]);
      }
    }
  }

  lemma OneMoreKeysDated(cfg: Config, h: seq<Moment>, m: Moment, g: seq<Moment>)
    requires |h| >= 1 && g == h + [m] && KeysDated(cfg, h) && Follows(cfg, g, |h|) && NoNulNames(h)
    ensures KeysDated(cfg, g)
  {
    var n := h[|h| - 1].node;
    assert g[|h| - 1] == h[|h| - 1];
    assert forall u :: u in h[|h| - 1].node.users ==> NUL !in u;
    match m.request {
      case Login(Some(u), Some(p)) => LoginAdds(cfg, n, u, p, m.at);
      case _ => OthersAdd(cfg, n, m.request, m.at);
    }
    forall k | k in m.node.authCache ensures KeyEntryDated(cfg, g, k, m.node.authCache[k].1) {
      if k in n.authCache && m.node.authCache[k] == n.authCache[k] {
        KeyEntryGrows(cfg, h, m, k, n.authCache[k].1);
      } else {
        var u, p := m.request.username.value, m.request.password.value;
        assert Checked(cfg, g, |h|, u, p);
      }
    }
  }

  lemma HistoryInit(cfg: Config, h: seq<Moment>)
    requires History(cfg, h) && |h| > 1
    ensures History(cfg, h[..|h| - 1]) && Follows(cfg, h, |h| - 1)
    ensures h == h[..|h| - 1] + [h[|h| - 1]]
    ensures NoNulNames(h) ==> NoNulNames(h[..|h| - 1])
  {
    var init := h[..|h| - 1];
    forall i | 0 < i < |init| ensures Follows(cfg, init, i) { assert Follows(cfg, h, i); }
    if NoNulNames(h) {
      forall i, u | 0 <= i < |init| && u in init[i].node.users ensures NUL !in u {
        assert u in h[i].node.users;
      }
    }
  }

  lemma {:induction false} HistoryUsersDated(cfg: Config, h: seq<Moment>)
    requires History(cfg, h)
    ensures UsersDated(cfg, h)
  {
    if |h| > 1 {
      var init, m := h[..|h| - 1], h[|h| - 1];
      HistoryInit(cfg, h);
      HistoryUsersDated(cfg, init);
      OneMoreUsersDated(cfg, init, m, h);
    }
  }

  lemma {:induction false} HistoryKeysDated(cfg: Config, h: seq<Moment>)
    requires History(cfg, h) && NoNulNames(h)
    ensures KeysDated(cfg, h)
  {
    if |h| > 1 {
      var init, m := h[..|h| - 1], h[|h| - 1];
      HistoryInit(cfg, h);
      HistoryKeysDated(cfg, init);
      OneMoreKeysDated(cfg, init, m, h);
    }
  }

  /** A record that lookup returns is the database's record now, or was at some moment within
      the last user-cache lifetime. */
  lemma LookupIsRecent(cfg: Config, h: seq<Moment>, u: Text, now: int)
    requires History(cfg, h)
    ensures var r := Lookup(cfg, h[|h| - 1].node, u, now).1;
      r.Some? ==> exists i :: 0 <= i < |h| && Held(h, i, u, r.value)
                    && (i == |h| - 1 || now < h[i].at + cfg.userTtl)
  {
    var n := h[|h| - 1].node;
    HistoryUsersDated(cfg, h);
    if CacheGet(n.userCache, u, now).Some? {
      assert UserEntryDated(cfg, h, u, n.userCache[u].0, n.userCache[u].1);
    } else if u in n.users {
      assert Held(h, |h| - 1, u, n.users[u]);
    }
  }

  /** Credentials that the authentication cache lets through were put through a real check, as
      these very credentials, and passed it within the last authentication-cache lifetime. */
  lemma CachedLoginIsRecent(cfg: Config, h: seq<Moment>, u: Text, p: Text, now: int)
    requires History(cfg, h) && NoNulNames(h) && CollisionFree(cfg.crypto)
    requires Lookup(cfg, h[|h| - 1].node, u, now).1.Some?
    requires CacheGet(h[|h| - 1].node.authCache, AuthKey(cfg.crypto, u, p), now).Some?
    ensures exists i :: 0 < i < |h| && Checked(cfg, h, i, u, p) && now < h[i].at + cfg.authTtl
  {
    var n, k := h[|h| - 1].node, AuthKey(cfg.crypto, u, p);
    HistoryKeysDated(cfg, h);
    assert NUL !in u by { if u in n.users { assert u in h[|h| - 1].node.users; } }
    assert KeyEntryDated(cfg, h, k, n.authCache[k].1);
    var i, v, q :| 0 < i < |h| && Checked(cfg, h, i, v, q) && NUL !in v
      && k == AuthKey(cfg.crypto, v, q) && n.authCache[k].1 <= h[i].at + cfg.authTtl;
    FramedInjective(u, p, v, q);
  }

  // ---------------------------------------------------------------- exact answers over runs

  /** A snapshot that brings only new records, or records the table already has. */
  ghost predicate AddsOnly(users: map<Text, UserRecord>, recs: seq<UserRecord>) {
    forall i :: 0 <= i < |recs| ==>
      NameOk(recs[i].username) && AbsentOrSame(UpsertAll(users, recs[..i]), recs[i])
  }

  ghost predicate Faithful(cfg: Config, n: Node, r: Request) {
    match r
    case Create(q, hash) => cfg.crypto.argon(hash, q.password)
    case Peer(op) => op.Upsert? ==> NameOk(op.user.username) && AbsentOrSame(n.users, op.user)
    case Snapshot(recs) => AddsOnly(n.users, recs)
    case _ => true
  }

  lemma {:induction false} AddsOnlyKeeps(users: map<Text, UserRecord>, recs: seq<UserRecord>)
    requires NamesOk(users) && AddsOnly(users, recs)
    ensures NamesOk(UpsertAll(users, recs))
    ensures forall u :: u in users ==> u in UpsertAll(users, recs) && UpsertAll(users, recs)[u] == users[u]
  {
    if recs != [] {
      var init := recs[..|recs| - 1];
      forall i | 0 <= i < |init|
        ensures NameOk(init[i].username) && AbsentOrSame(UpsertAll(users, init[..i]), init[i])
      {
        assert init[..i] == recs[..i];
      }
      AddsOnlyKeeps(users, init);
      assert AbsentOrSame(UpsertAll(users, init), recs[|recs| - 1]);
    }
  }

  lemma ServeKeeps(cfg: Config, n: Node, r: Request, now: int)
    requires CollisionFree(cfg.crypto) && Coherent(cfg, n) && Faithful(cfg, n, r)
    ensures Coherent(cfg, Serve(cfg, n, r, now))
  {
    match r
    case Login(username, password) => FastEqualsSlow(cfg, n, username, password, now);
    case Create(q, hash) => CreateKeeps(cfg, n, q, hash);
    case Remove(user) => DropKeeps(cfg, n, user);
    case Peer(op) => ReplicateKeeps(cfg, n, op);
    case Snapshot(recs) =>
      AddsOnlyKeeps(n.users, recs);
      CatchUpKeeps(cfg, n, recs);
    case Sweeping =>
  }

  /** Over any run whose upserts meet an absent or an identical record, every authentication
      gives the answer of the slow check on the table as it then is. */
  lemma {:induction false} RunAnswersTruly(cfg: Config, h: seq<Moment>, i: nat, username: Option<Text>,
      password: Option<Text>, now: int)
    requires CollisionFree(cfg.crypto) && History(cfg, h) && i < |h| && Coherent(cfg, h[0].node)
    requires forall j :: 0 < j < |h| ==> Faithful(cfg, h[j - 1].node, h[j].request)
    ensures Coherent(cfg, h[i].node)
    ensures Authenticate(cfg, h[i].node, username, password, now).1
         == SlowAnswer(cfg, h[i].node.users, username, password)
  {
    if i > 0 {
      RunAnswersTruly(cfg, h, i - 1, username, password, now);
      assert Follows(cfg, h, i);
      ServeKeeps(cfg, h[i - 1].node, h[i].request, h[i].at);
    }
    FastEqualsSlow(cfg, h[i].node, username, password, now);
  }
}
