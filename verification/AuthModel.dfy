/** One node's user tables and authentication caches (src/api.rs, src/db.rs) as a value: what
    each request does to them, and why the caches and the verifier table never change an answer. */
module AuthModel {
  import opened Options
  import opened Topic

  type Bytes = seq<bv8>

  datatype UserRecord = UserRecord(username: Text, userid: Text, passwordHash: Text, superuser: bool, admin: bool)

  /** The primitives the node calls: SHA-256, HMAC under a key, and the argon2 check of a stored
      hash against a password. */
  datatype Crypto = Crypto(sha: Text -> Bytes, mac: (Bytes, Text) -> Bytes, argon: (Text, Text) -> bool)

  ghost predicate CollisionFree(c: Crypto) {
    && (forall x, y :: c.sha(x) == c.sha(y) ==> x == y)
    && (forall k, x, y :: c.mac(k, x) == c.mac(k, y) ==> x == y)
  }

  /** Collision-free hashes exist: write each character in unary. */
  function Unary(s: Text): Bytes {
    if s == "" then [] else Zeros(s[0] as nat) + [1] + Unary(s[1..])
  }

  function Zeros(n: nat): Bytes {
    seq(n, _ => 0)
  }

  lemma UnaryHead(s: Text)
    requires s != ""
    ensures var n := s[0] as nat;
      && |Unary(s)| > n && Unary(s)[n] == 1 && (forall i :: 0 <= i < n ==> Unary(s)[i] == 0)
      && Unary(s)[n + 1..] == Unary(s[1..])
  {
    var n := s[0] as nat;
    assert Unary(s)[..n] == Zeros(n);
  }

  lemma {:induction false} UnaryInjective(s: Text, t: Text)
    requires Unary(s) == Unary(t)
    ensures s == t
  {
    if s != "" { UnaryHead(s); }
    if t != "" { UnaryHead(t); }
    if s != "" && t != "" {
      assert Unary(s)[s[0] as nat] == 1 && Unary(t)[t[0] as nat] == 1;
      UnaryInjective(s[1..], t[1..]);
      assert s == [s[0]] + s[1..] && t == [t[0]] + t[1..];
    }
  }

  lemma CollisionFreeCrypto() returns (c: Crypto)
    ensures CollisionFree(c) && forall hash, password :: c.argon(hash, password) <==> hash == password
  {
    c := Crypto(Unary, (k, x) => Unary(x), (hash, password) => hash == password);
    forall x, y | Unary(x) == Unary(y) ensures x == y { UnaryInjective(x, y); }
  }

  datatype Config = Config(crypto: Crypto, pepper: Option<Bytes>, userTtl: nat, authTtl: nat, authDisabled: bool)

  /** A cached value and the time it expires. */
  type Cache<K, V> = map<K, (V, int)>

  datatype Node = Node(
    users: map<Text, UserRecord>,
    verifiers: map<Text, Bytes>,
    userCache: Cache<Text, UserRecord>,
    authCache: Cache<Bytes, bool>)

  function CacheGet<K, V>(m: Cache<K, V>, k: K, now: int): Option<V> {
    if k in m && m[k].1 > now then Some(m[k].0) else None
  }

  function CachePut<K, V>(m: Cache<K, V>, k: K, v: V, ttl: nat, now: int): Cache<K, V> {
    if ttl == 0 then m else m[k := (v, now + ttl)]
  }

  function CacheSweep<K, V>(m: Cache<K, V>, now: int): Cache<K, V> {
    map k | k in m && m[k].1 > now :: m[k]
  }

  // ---------------------------------------------------------------- names and keys

  const NUL := '\0'

  predicate ValidUsername(s: Text) {
    0 < |s| <= 128 && forall i :: 0 <= i < |s| ==> '!' <= s[i] <= '~'
  }

  /** What is hashed for a pair of credentials: name, a zero byte, password. */
  function Framed(username: Text, password: Text): Text {
    username + [NUL] + password
  }

  lemma FramedInjective(u: Text, p: Text, v: Text, q: Text)
    requires NUL !in u && NUL !in v && Framed(u, p) == Framed(v, q)
    ensures u == v && p == q
  {
    var a, b := Framed(u, p), Framed(v, q);
    assert a[|u|] == NUL && b[|v|] == NUL;
    assert forall i :: 0 <= i < |v| ==> b[i] == v[i] && v[i] in v;
    assert forall i :: 0 <= i < |u| ==> a[i] == u[i] && u[i] in u;
    assert a[..|u|] == u && b[..|v|] == v;
    assert a[|u| + 1..] == p && b[|v| + 1..] == q;
  }

  function AuthKey(c: Crypto, username: Text, password: Text): Bytes {
    c.sha(Framed(username, password))
  }

  function Verifier(c: Crypto, pepper: Bytes, username: Text, password: Text): Bytes {
    c.mac(pepper, Framed(username, password))
  }

  // ---------------------------------------------------------------- requests

  /** `lookup_user`: the user cache, or the table and then the cache is filled. */
  function Lookup(cfg: Config, n: Node, username: Text, now: int): (Node, Option<UserRecord>) {
    var hit := CacheGet(n.userCache, username, now);
    if hit.Some? then (n, hit)
    else if username in n.users then
      (n.(userCache := CachePut(n.userCache, username, n.users[username], cfg.userTtl, now)),
       Some(n.users[username]))
    else (n, None)
  }

  datatype Outcome = Deny | Allow(superuser: bool, who: Option<UserRecord>)

  predicate FastCheck(cfg: Config, n: Node, username: Text, password: Text) {
    && cfg.pepper.Some? && username in n.verifiers
    && Verifier(cfg.crypto, cfg.pepper.value, username, password) == n.verifiers[username]
  }

  /** The password check for a user whose record has been looked up. */
  function CheckPassword(cfg: Config, n: Node, r: UserRecord, username: Text, password: Text, now: int)
    : (Node, bool)
  {
    var key := AuthKey(cfg.crypto, username, password);
    if CacheGet(n.authCache, key, now).Some? then (n, true)
    else
      var cached := n.(authCache := CachePut(n.authCache, key, r.superuser, cfg.authTtl, now));
      if FastCheck(cfg, n, username, password) then (cached, true)
      else if cfg.crypto.argon(r.passwordHash, password) then
        if cfg.pepper.None? then (cached, true)
        else
          var v := Verifier(cfg.crypto, cfg.pepper.value, username, password);
          (cached.(verifiers := n.verifiers[username := v]), true)
      else (n, false)
  }

  /** `authenticate`; a missing name, or a password that is missing or not UTF-8, is None. */
  function Authenticate(cfg: Config, n: Node, username: Option<Text>, password: Option<Text>, now: int)
    : (Node, Outcome)
  {
    if cfg.authDisabled then (n, Allow(true, None))
    else if username.None? || password.None? || username.value == "" || password.value == "" then (n, Deny)
    else
      var (n1, r) := Lookup(cfg, n, username.value, now);
      if r.None? then (n1, Deny)
      else
        var (n2, ok) := CheckPassword(cfg, n1, r.value, username.value, password.value, now);
        (n2, if ok then Allow(r.value.superuser, r) else Deny)
  }

  datatype NewUser = NewUser(username: Text, userid: Text, password: Text, superuser: bool, admin: bool)

  datatype ReplOp = Upsert(user: UserRecord) | Delete(username: Text)

  datatype CreateResult = BadRequest | Conflict | Created(user: UserRecord)

  predicate ValidRequest(q: NewUser) {
    ValidUsername(q.username) && ValidSegment(q.userid) && 0 < |q.password| <= 512
  }

  function RecordOf(q: NewUser, hash: Text): UserRecord {
    UserRecord(q.username, q.userid, hash, q.superuser, q.admin)
  }

  /** `create_user`; `hash` is the fresh argon2 hash of the requested password. */
  function CreateUser(cfg: Config, n: Node, q: NewUser, hash: Text): (Node, CreateResult) {
    if !ValidRequest(q) then (n, BadRequest)
    else if q.username in n.users then (n, Conflict)
    else
      var r := RecordOf(q, hash);
      (n.(users := n.users[q.username := r],
          verifiers := if cfg.pepper.None? then n.verifiers
                       else n.verifiers[q.username := Verifier(cfg.crypto, cfg.pepper.value, q.username, q.password)]),
       Created(r))
  }

  /** The delete transaction: the record and the verifier go together. */
  function DropUser(n: Node, username: Text): Node {
    n.(users := n.users - {username}, verifiers := n.verifiers - {username})
  }

  function Purge(n: Node, username: Text): Node {
    n.(authCache := map[], userCache := n.userCache - {username})
  }

  /** `delete_user`: true when there was such a user; only then are the caches purged. */
  function DeleteUser(n: Node, username: Text): (Node, bool) {
    if username in n.users then (Purge(DropUser(n, username), username), true)
    else (DropUser(n, username), false)
  }

  /** `replicate`: apply a peer's operation, then purge. Verifiers survive an upsert. */
  function Replicate(n: Node, op: ReplOp): Node {
    match op
    case Upsert(user) => Purge(n.(users := n.users[user.username := user]), user.username)
    case Delete(username) => Purge(DropUser(n, username), username)
  }

  function UpsertAll(users: map<Text, UserRecord>, recs: seq<UserRecord>): map<Text, UserRecord> {
    if recs == [] then users
    else UpsertAll(users, recs[..|recs| - 1])[recs[|recs| - 1].username := recs[|recs| - 1]]
  }

  /** `catch_up`: upsert a peer's snapshot; no cache is purged. */
  function CatchUp(n: Node, recs: seq<UserRecord>): Node {
    n.(users := UpsertAll(n.users, recs))
  }

  function Sweep(n: Node, now: int): Node {
    n.(userCache := CacheSweep(n.userCache, now), authCache := CacheSweep(n.authCache, now))
  }

  function Restart(n: Node): Node {
    n.(userCache := map[], authCache := map[])
  }

  // ---------------------------------------------------------------- the slow truth

  /** The database holds the user and its stored hash accepts the password. */
  predicate Grants(cfg: Config, users: map<Text, UserRecord>, username: Text, password: Text) {
    username in users && cfg.crypto.argon(users[username].passwordHash, password)
  }

  /** Authentication with no cache and no verifier. */
  function SlowAnswer(cfg: Config, users: map<Text, UserRecord>, username: Option<Text>, password: Option<Text>)
    : Outcome
  {
    if cfg.authDisabled then Allow(true, None)
    else if username.None? || password.None? || username.value == "" || password.value == "" then Deny
    else if Grants(cfg, users, username.value, password.value) then
      Allow(users[username.value].superuser, Some(users[username.value]))
    else Deny
  }

  // ---------------------------------------------------------------- the invariant

  ghost predicate KeyEarned(cfg: Config, users: map<Text, UserRecord>, key: Bytes) {
    exists u, p :: Grants(cfg, users, u, p) && key == AuthKey(cfg.crypto, u, p)
  }

  ghost predicate VerifierEarned(cfg: Config, users: map<Text, UserRecord>, u: Text, v: Bytes)
    requires cfg.pepper.Some?
  {
    exists p :: p != "" && Grants(cfg, users, u, p) && v == Verifier(cfg.crypto, cfg.pepper.value, u, p)
  }

  ghost predicate NamesOk(users: map<Text, UserRecord>) {
    forall u :: u in users ==> users[u].username == u && NUL !in u && u != ""
  }

  /** Whatever the caches and the verifier table say follows from the user table. */
  ghost predicate Coherent(cfg: Config, n: Node) {
    && NamesOk(n.users)
    && (forall u :: u in n.userCache ==> u in n.users && n.userCache[u].0 == n.users[u])
    && (forall k :: k in n.authCache ==> KeyEarned(cfg, n.users, k))
    && (cfg.pepper.Some? ==> forall u :: u in n.verifiers ==> VerifierEarned(cfg, n.users, u, n.verifiers[u]))
  }

  lemma KeyHit(cfg: Config, users: map<Text, UserRecord>, u: Text, p: Text)
    requires CollisionFree(cfg.crypto) && NamesOk(users)
    requires u in users && KeyEarned(cfg, users, AuthKey(cfg.crypto, u, p))
    ensures Grants(cfg, users, u, p)
  {
    var v, q :| Grants(cfg, users, v, q) && AuthKey(cfg.crypto, u, p) == AuthKey(cfg.crypto, v, q);
    FramedInjective(u, p, v, q);
  }

  lemma FastHit(cfg: Config, n: Node, u: Text, p: Text)
    requires CollisionFree(cfg.crypto) && Coherent(cfg, n) && FastCheck(cfg, n, u, p)
    ensures Grants(cfg, n.users, u, p)
  {
    var q :| q != "" && Grants(cfg, n.users, u, q) && n.verifiers[u] == Verifier(cfg.crypto, cfg.pepper.value, u, q);
    FramedInjective(u, p, u, q);
  }

  lemma LookupTrue(cfg: Config, n: Node, u: Text, now: int)
    requires Coherent(cfg, n)
    ensures Lookup(cfg, n, u, now).1 == if u in n.users then Some(n.users[u]) else None
    ensures Coherent(cfg, Lookup(cfg, n, u, now).0) && Lookup(cfg, n, u, now).0.users == n.users
  {
    var m := Lookup(cfg, n, u, now).0;
    assert m == n.(userCache := m.userCache);
  }

  lemma CheckTrue(cfg: Config, n: Node, u: Text, p: Text, now: int)
    requires CollisionFree(cfg.crypto) && Coherent(cfg, n) && u in n.users && p != ""
    ensures var (m, ok) := CheckPassword(cfg, n, n.users[u], u, p, now);
      ok == Grants(cfg, n.users, u, p) && m.users == n.users && Coherent(cfg, m)
  {
    var key := AuthKey(cfg.crypto, u, p);
    var (m, ok) := CheckPassword(cfg, n, n.users[u], u, p, now);
    if CacheGet(n.authCache, key, now).Some? {
      KeyHit(cfg, n.users, u, p);
    } else if FastCheck(cfg, n, u, p) {
      FastHit(cfg, n, u, p);
    }
    if ok {
      assert KeyEarned(cfg, n.users, key);
      if cfg.pepper.Some? {
        assert VerifierEarned(cfg, n.users, u, Verifier(cfg.crypto, cfg.pepper.value, u, p));
      }
    }
  }

  /** Authentication through both caches and the verifier table gives the answer of the slow
      check, record and flags included, and leaves the node coherent. */
  lemma FastEqualsSlow(cfg: Config, n: Node, username: Option<Text>, password: Option<Text>, now: int)
    requires CollisionFree(cfg.crypto) && Coherent(cfg, n)
    ensures Authenticate(cfg, n, username, password, now).1 == SlowAnswer(cfg, n.users, username, password)
    ensures Authenticate(cfg, n, username, password, now).0.users == n.users
    ensures Coherent(cfg, Authenticate(cfg, n, username, password, now).0)
  {
    if username.Some? && password.Some? && username.value != "" && password.value != "" {
      var u, p := username.value, password.value;
      LookupTrue(cfg, n, u, now);
      if u in n.users { CheckTrue(cfg, Lookup(cfg, n, u, now).0, u, p, now); }
    }
  }

  // ---------------------------------------------------------------- requests keep it

  lemma MoreUsersKeep(cfg: Config, n: Node, users: map<Text, UserRecord>)
    requires Coherent(cfg, n) && NamesOk(users)
    requires forall u :: u in n.users ==> u in users && users[u] == n.users[u]
    ensures Coherent(cfg, n.(users := users))
  {
    forall k | k in n.authCache ensures KeyEarned(cfg, users, k) {
      var u, p :| Grants(cfg, n.users, u, p) && k == AuthKey(cfg.crypto, u, p);
      assert Grants(cfg, users, u, p);
    }
    if cfg.pepper.Some? {
      forall u | u in n.verifiers ensures VerifierEarned(cfg, users, u, n.verifiers[u]) {
        var p :| p != "" && Grants(cfg, n.users, u, p)
          && n.verifiers[u] == Verifier(cfg.crypto, cfg.pepper.value, u, p);
        assert Grants(cfg, users, u, p);
      }
    }
  }

  lemma CreateKeeps(cfg: Config, n: Node, q: NewUser, hash: Text)
    requires Coherent(cfg, n) && cfg.crypto.argon(hash, q.password)
    ensures Coherent(cfg, CreateUser(cfg, n, q, hash).0)
    ensures CreateUser(cfg, n, q, hash).1.Created? && cfg.pepper.Some? ==>
      FastCheck(cfg, CreateUser(cfg, n, q, hash).0, q.username, q.password)
  {
    if ValidRequest(q) && q.username !in n.users {
      var r := RecordOf(q, hash);
      var users := n.users[q.username := r];
      assert NUL !in q.username;
      MoreUsersKeep(cfg, n, users);
      assert Grants(cfg, users, q.username, q.password);
      if cfg.pepper.Some? {
        assert VerifierEarned(cfg, users, q.username, Verifier(cfg.crypto, cfg.pepper.value, q.username, q.password));
      }
    }
  }

  lemma DropKeeps(cfg: Config, n: Node, username: Text)
    requires Coherent(cfg, n)
    ensures Coherent(cfg, Purge(DropUser(n, username), username))
    ensures Coherent(cfg, DeleteUser(n, username).0)
  {
    var users := n.users - {username};
    if cfg.pepper.Some? {
      forall u | u in n.verifiers && u != username ensures VerifierEarned(cfg, users, u, n.verifiers[u]) {
        var p :| p != "" && Grants(cfg, n.users, u, p)
          && n.verifiers[u] == Verifier(cfg.crypto, cfg.pepper.value, u, p);
        assert Grants(cfg, users, u, p);
      }
      assert username !in n.users ==> username !in n.verifiers by {
        if username in n.verifiers { assert VerifierEarned(cfg, n.users, username, n.verifiers[username]); }
      }
    }
    if username !in n.users { assert users == n.users; }
  }

  ghost predicate AbsentOrSame(users: map<Text, UserRecord>, r: UserRecord) {
    r.username in users ==> users[r.username] == r
  }

  ghost predicate NameOk(u: Text) { NUL !in u && u != "" }

  lemma ReplicateKeeps(cfg: Config, n: Node, op: ReplOp)
    requires Coherent(cfg, n)
    requires op.Upsert? ==> NameOk(op.user.username) && AbsentOrSame(n.users, op.user)
    ensures Coherent(cfg, Replicate(n, op))
  {
    match op
    case Upsert(r) => MoreUsersKeep(cfg, n, n.users[r.username := r]);
    case Delete(username) => DropKeeps(cfg, n, username);
  }

  lemma CatchUpKeeps(cfg: Config, n: Node, recs: seq<UserRecord>)
    requires Coherent(cfg, n) && NamesOk(UpsertAll(n.users, recs))
    requires forall u :: u in n.users ==>
      u in UpsertAll(n.users, recs) && UpsertAll(n.users, recs)[u] == n.users[u]
    ensures Coherent(cfg, CatchUp(n, recs))
  {
    MoreUsersKeep(cfg, n, UpsertAll(n.users, recs));
  }

  // ---------------------------------------------------------------- upserts over other records

  /** No verifier is in force for the user, or the password behind it passes the new hash. */
  ghost predicate VerifierFits(cfg: Config, n: Node, r: UserRecord) {
    cfg.pepper.Some? && r.username in n.verifiers ==>
      exists p :: p != "" && n.verifiers[r.username] == Verifier(cfg.crypto, cfg.pepper.value, r.username, p)
        && cfg.crypto.argon(r.passwordHash, p)
  }

  ghost predicate AnswersTruly(cfg: Config, n: Node) {
    forall username, password, now ::
      Authenticate(cfg, n, username, password, now).1 == SlowAnswer(cfg, n.users, username, password)
  }

  /** Replicating an upsert over an existing record leaves its verifier behind, so fast and slow
      answers still agree exactly when that verifier fits the new record. (A coherent node has
      exactly one password behind each verifier.) */
  lemma UpsertAgreesIff(cfg: Config, n: Node, r: UserRecord)
    requires CollisionFree(cfg.crypto) && Coherent(cfg, n) && NameOk(r.username) && !cfg.authDisabled
    ensures AnswersTruly(cfg, Replicate(n, Upsert(r))) <==> VerifierFits(cfg, n, r)
  {
    var m := Replicate(n, Upsert(r));
    if VerifierFits(cfg, n, r) {
      UpsertFits(cfg, n, r);
      forall username, password, now
        ensures Authenticate(cfg, m, username, password, now).1 == SlowAnswer(cfg, m.users, username, password)
      {
        FastEqualsSlow(cfg, m, username, password, now);
      }
    } else {
      assert VerifierEarned(cfg, n.users, r.username, n.verifiers[r.username]);
      var p :| p != "" && Grants(cfg, n.users, r.username, p)
        && n.verifiers[r.username] == Verifier(cfg.crypto, cfg.pepper.value, r.username, p);
      assert !cfg.crypto.argon(r.passwordHash, p);
      UpsertMisleads(cfg, n, r, p, 0);
    }
  }

  lemma UpsertFits(cfg: Config, n: Node, r: UserRecord)
    requires Coherent(cfg, n) && NameOk(r.username) && VerifierFits(cfg, n, r)
    ensures Coherent(cfg, Replicate(n, Upsert(r)))
  {
    var users := n.users[r.username := r];
    if cfg.pepper.Some? {
      forall u | u in n.verifiers ensures VerifierEarned(cfg, users, u, n.verifiers[u]) {
        if u == r.username {
          var p :| p != "" && n.verifiers[u] == Verifier(cfg.crypto, cfg.pepper.value, u, p)
            && cfg.crypto.argon(r.passwordHash, p);
          assert Grants(cfg, users, u, p);
        } else {
          var p :| p != "" && Grants(cfg, n.users, u, p)
            && n.verifiers[u] == Verifier(cfg.crypto, cfg.pepper.value, u, p);
          assert Grants(cfg, users, u, p);
        }
      }
    }
  }

  /** A caller can be sure of it beforehand: with no verifier stored for the name, or no pepper,
      replacing the record is safe whatever it says. */
  lemma UpsertWithoutVerifier(cfg: Config, n: Node, r: UserRecord)
    requires CollisionFree(cfg.crypto) && Coherent(cfg, n) && NameOk(r.username) && !cfg.authDisabled
    requires cfg.pepper.None? || r.username !in n.verifiers
    ensures AnswersTruly(cfg, Replicate(n, Upsert(r)))
  {
    UpsertAgreesIff(cfg, n, r);
  }

  /** The failing case: a password the old record's verifier accepts and the new hash does not. */
  lemma UpsertMisleads(cfg: Config, n: Node, r: UserRecord, p: Text, now: int)
    requires !cfg.authDisabled && r.username != "" && p != ""
    requires FastCheck(cfg, n, r.username, p) && !cfg.crypto.argon(r.passwordHash, p)
    ensures var m := Replicate(n, Upsert(r));
      && Authenticate(cfg, m, Some(r.username), Some(p), now).1 == Allow(r.superuser, Some(r))
      && SlowAnswer(cfg, m.users, Some(r.username), Some(p)) == Deny
  {
    var m := Replicate(n, Upsert(r));
    assert m.users[r.username] == r && FastCheck(cfg, m, r.username, p);
    assert CheckPassword(cfg, Lookup(cfg, m, r.username, now).0, r, r.username, p, now).1;
  }

  /** For instance: Ann is created with the password "old" on an empty node; a peer replaces her
      record by one whose hash rejects it; "old" still lets her in here. */
  lemma UpsertExample(c: Crypto, oldHash: Text, newHash: Text) returns (cfg: Config, n: Node, r: UserRecord)
    requires CollisionFree(c) && c.argon(oldHash, "old") && !c.argon(newHash, "old")
    ensures cfg == Config(c, Some([]), 0, 0, false) && r == UserRecord("ann", "1", newHash, false, false)
    ensures n == CreateUser(cfg, Node(map[], map[], map[], map[]), NewUser("ann", "1", "old", false, false), oldHash).0
    ensures Coherent(cfg, n) && r.username in n.users
    ensures var m := Replicate(n, Upsert(r));
      && Authenticate(cfg, m, Some("ann"), Some("old"), 0).1 == Allow(false, Some(r))
      && SlowAnswer(cfg, m.users, Some("ann"), Some("old")) == Deny
  {
    cfg := Config(c, Some([]), 0, 0, false);
    r := UserRecord("ann", "1", newHash, false, false);
    var q := NewUser("ann", "1", "old", false, false);
    var none := Node(map[], map[], map[], map[]);
    assert ValidRequest(q);
    CreateKeeps(cfg, none, q, oldHash);
    n := CreateUser(cfg, none, q, oldHash).0;
    UpsertMisleads(cfg, n, r, "old", 0);
  }

  // ---------------------------------------------------------------- what caching buys

  /** A success is remembered: while its entries live, the same credentials are answered from
      the two caches, and a password that had to be checked passes the fast check from then on. */
  lemma SuccessIsRemembered(cfg: Config, n: Node, u: Text, p: Text, now: int)
    requires !cfg.authDisabled && cfg.userTtl > 0 && cfg.authTtl > 0
    requires Authenticate(cfg, n, Some(u), Some(p), now).1.Allow?
    ensures var m := Authenticate(cfg, n, Some(u), Some(p), now).0;
      && CacheGet(m.userCache, u, now) == Authenticate(cfg, n, Some(u), Some(p), now).1.who
      && CacheGet(m.authCache, AuthKey(cfg.crypto, u, p), now).Some?
      && (cfg.pepper.Some? && CacheGet(n.authCache, AuthKey(cfg.crypto, u, p), now).None? ==> FastCheck(cfg, m, u, p))
  {
    var (n1, r) := Lookup(cfg, n, u, now);
    assert r.Some? && CacheGet(n1.userCache, u, now) == r && n1.authCache == n.authCache;
    var (m, ok) := CheckPassword(cfg, n1, r.value, u, p, now);
    assert ok && m.userCache == n1.userCache;
  }

  lemma SweptEntries(n: Node, swept: int, now: int)
    requires swept <= now
    ensures forall u :: CacheGet(Sweep(n, swept).userCache, u, now) == CacheGet(n.userCache, u, now)
    ensures forall k :: CacheGet(Sweep(n, swept).authCache, k, now) == CacheGet(n.authCache, k, now)
  {
    forall u ensures CacheGet(Sweep(n, swept).userCache, u, now) == CacheGet(n.userCache, u, now) {}
    forall k ensures CacheGet(Sweep(n, swept).authCache, k, now) == CacheGet(n.authCache, k, now) {}
  }

  lemma CheckSame(cfg: Config, n: Node, m: Node, r: UserRecord, u: Text, p: Text, now: int)
    requires m.verifiers == n.verifiers
    requires var k := AuthKey(cfg.crypto, u, p);
      CacheGet(m.authCache, k, now).Some? == CacheGet(n.authCache, k, now).Some?
    ensures CheckPassword(cfg, m, r, u, p, now).1 == CheckPassword(cfg, n, r, u, p, now).1
  {
    assert FastCheck(cfg, m, u, p) == FastCheck(cfg, n, u, p);
  }

  /** Sweeping drops only entries that no later request would have used. */
  lemma SweepIsInvisible(cfg: Config, n: Node, username: Option<Text>, password: Option<Text>, swept: int, now: int)
    requires swept <= now
    ensures Authenticate(cfg, Sweep(n, swept), username, password, now).1
         == Authenticate(cfg, n, username, password, now).1
    ensures forall u :: CacheGet(Sweep(n, swept).userCache, u, now) == CacheGet(n.userCache, u, now)
    ensures forall k :: CacheGet(Sweep(n, swept).authCache, k, now) == CacheGet(n.authCache, k, now)
  {
    SweptEntries(n, swept, now);
    if username.Some? && password.Some? {
      var u, p := username.value, password.value;
      var (n1, r) := Lookup(cfg, n, u, now);
      var (m1, q) := Lookup(cfg, Sweep(n, swept), u, now);
      assert q == r && m1.authCache == Sweep(n, swept).authCache && n1.authCache == n.authCache;
      if r.Some? { CheckSame(cfg, n1, m1, r.value, u, p, now); }
    }
  }
}
