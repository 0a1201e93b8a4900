/** The caches, tables and handlers of src/api.rs and src/db.rs as they run: state updated in
    place, each method proved to do what AuthModel says. */
module AuthService {
  import opened Options
  import opened Topic
  import opened AuthModel

  /** The constant-time comparison: or-ing the differences of all bytes is zero only when there
      are none. */
  method CtEq(a: Bytes, b: Bytes) returns (same: bool)
    ensures same <==> a == b
  {
    if |a| != |b| { return false; }
    var diff: bv8 := 0;
    for i := 0 to |a|
      invariant diff == 0 <==> a[..i] == b[..i]
    {
      ghost var before := diff;
      diff := diff | (a[i] ^ b[i]);
      OrXorZero(before, a[i], b[i]);
      assert a[..i + 1] == a[..i] + [a[i]] && b[..i + 1] == b[..i] + [b[i]];
    }
    assert a[..|a|] == a && b[..|a|] == b;
    same := diff == 0;
  }

  lemma OrXorZero(d: bv8, x: bv8, y: bv8)
    ensures (d | (x ^ y)) == 0 <==> d == 0 && x == y
  {}

  class AuthCache {
    var entries: Cache<Bytes, bool>
    const ttl: nat

    constructor (ttl: nat)
      ensures entries == map[] && this.ttl == ttl
    {
      entries, this.ttl := map[], ttl;
    }

    method Get(key: Bytes, now: int) returns (r: Option<bool>)
      ensures r == CacheGet(entries, key, now)
    {
      if key !in entries { return None; }
      var (superuser, expiry) := entries[key];
      r := if expiry > now then Some(superuser) else None;
    }

    method Insert(key: Bytes, superuser: bool, now: int)
      modifies this
      ensures entries == CachePut(old(entries), key, superuser, ttl, now)
    {
      if ttl == 0 { return; }
      entries := entries[key := (superuser, now + ttl)];
    }

    /** Entries are keyed by a hash of name and password, so one user's cannot be told apart. */
    method PurgeUser()
      modifies this
      ensures entries == map[]
    {
      entries := map[];
    }

    method Sweep(now: int)
      modifies this
      ensures entries == CacheSweep(old(entries), now)
    {
      entries := map k | k in entries && entries[k].1 > now :: entries[k];
    }
  }

  class UserCache {
    var entries: Cache<Text, UserRecord>
    const ttl: nat

    constructor (ttl: nat)
      ensures entries == map[] && this.ttl == ttl
    {
      entries, this.ttl := map[], ttl;
    }

    method Get(username: Text, now: int) returns (r: Option<UserRecord>)
      ensures r == CacheGet(entries, username, now)
    {
      if username !in entries { return None; }
      var (record, expiry) := entries[username];
      r := if expiry > now then Some(record) else None;
    }

    method Insert(username: Text, record: UserRecord, now: int)
      modifies this
      ensures entries == CachePut(old(entries), username, record, ttl, now)
    {
      if ttl == 0 { return; }
      entries := entries[username := (record, now + ttl)];
    }

    method Purge(username: Text)
      modifies this
      ensures entries == old(entries) - {username}
    {
      entries := entries - {username};
    }

    method Sweep(now: int)
      modifies this
      ensures entries == CacheSweep(old(entries), now)
    {
      entries := map k | k in entries && entries[k].1 > now :: entries[k];
    }
  }

  class RedbStore {
    var users: map<Text, UserRecord>
    var verifiers: map<Text, Bytes>

    constructor (users: map<Text, UserRecord>, verifiers: map<Text, Bytes>)
      ensures this.users == users && this.verifiers == verifiers
    {
      this.users, this.verifiers := users, verifiers;
    }

    method InsertUser(rec: UserRecord) returns (inserted: bool)
      modifies this`users
      ensures inserted == (rec.username !in old(users))
      ensures users == if inserted then old(users)[rec.username := rec] else old(users)
    {
      if rec.username in users { return false; }
      users := users[rec.username := rec];
      inserted := true;
    }

    method UpsertUser(rec: UserRecord)
      modifies this`users
      ensures users == old(users)[rec.username := rec]
    {
      users := users[rec.username := rec];
    }

    /** One transaction: the table changes only at the end. */
    method UpsertMany(recs: seq<UserRecord>)
      modifies this`users
      ensures users == UpsertAll(old(users), recs)
    {
      if recs == [] { return; }
      var t := users;
      for i := 0 to |recs|
        invariant users == old(users) && t == UpsertAll(users, recs[..i])
      {
        assert recs[..i + 1][..i] == recs[..i];
        t := t[recs[i].username := recs[i]];
      }
      assert recs[..|recs|] == recs;
      users := t;
    }

    method DeleteUser(username: Text) returns (existed: bool)
      modifies this
      ensures existed == (username in old(users))
      ensures users == old(users) - {username} && verifiers == old(verifiers) - {username}
    {
      existed := username in users;
      users := users - {username};
      verifiers := verifiers - {username};
    }

    method GetUser(username: Text) returns (r: Option<UserRecord>)
      ensures r == if username in users then Some(users[username]) else None
    {
      r := if username in users then Some(users[username]) else None;
    }

    method GetVerifier(username: Text) returns (r: Option<Bytes>)
      ensures r == if username in verifiers then Some(verifiers[username]) else None
    {
      r := if username in verifiers then Some(verifiers[username]) else None;
    }

    method SetVerifier(username: Text, verifier: Bytes)
      modifies this`verifiers
      ensures verifiers == old(verifiers)[username := verifier]
    {
      verifiers := verifiers[username := verifier];
    }
  }

  method VerifyFast(c: Crypto, pepper: Bytes, username: Text, password: Text, stored: Bytes) returns (ok: bool)
    ensures ok <==> Verifier(c, pepper, username, password) == stored
  {
    ok := CtEq(Verifier(c, pepper, username, password), stored);
  }

  class AppState {
    const cfg: Config
    const db: RedbStore
    const authCache: AuthCache
    const userCache: UserCache

    ghost predicate Valid() {
      authCache.ttl == cfg.authTtl && userCache.ttl == cfg.userTtl
    }

    ghost function Model(): Node
      reads db, authCache, userCache
    {
      Node(db.users, db.verifiers, userCache.entries, authCache.entries)
    }

    constructor (cfg: Config, db: RedbStore)
      ensures Valid() && this.cfg == cfg && this.db == db
      ensures fresh(authCache) && fresh(userCache)
      ensures Model() == Node(db.users, db.verifiers, map[], map[])
    {
      this.cfg, this.db := cfg, db;
      authCache := new AuthCache(cfg.authTtl);
      userCache := new UserCache(cfg.userTtl);
    }

    method LookupUser(username: Text, now: int) returns (r: Option<UserRecord>)
      requires Valid()
      modifies userCache
      ensures (Model(), r) == Lookup(cfg, old(Model()), username, now)
    {
      r := userCache.Get(username, now);
      if r.Some? { return; }
      r := db.GetUser(username);
      if r.Some? { userCache.Insert(username, r.value, now); }
    }

    /** The part of authenticate after the record is known. */
    method Verify(record: UserRecord, username: Text, password: Text, now: int) returns (verified: bool)
      requires Valid()
      modifies authCache, db`verifiers
      ensures (Model(), verified) == CheckPassword(cfg, old(Model()), record, username, password, now)
    {
      var key := AuthKey(cfg.crypto, username, password);
      var hit := authCache.Get(key, now);
      verified := hit.Some?;
      if !verified && cfg.pepper.Some? {
        var v := db.GetVerifier(username);
        if v.Some? {
          var ok := VerifyFast(cfg.crypto, cfg.pepper.value, username, password, v.value);
          if ok {
            authCache.Insert(key, record.superuser, now);
            verified := true;
          }
        }
      }
      if !verified && cfg.crypto.argon(record.passwordHash, password) {
        authCache.Insert(key, record.superuser, now);
        if cfg.pepper.Some? {
          db.SetVerifier(username, Verifier(cfg.crypto, cfg.pepper.value, username, password));
        }
        verified := true;
      }
    }

    method Authenticate(username: Option<Text>, password: Option<Text>, now: int) returns (r: Outcome)
      requires Valid()
      modifies authCache, userCache, db`verifiers
      ensures (Model(), r) == AuthModel.Authenticate(cfg, old(Model()), username, password, now)
    {
      if cfg.authDisabled { return Allow(true, None); }
      if username.None? || password.None? { return Deny; }
      if username.value == "" || password.value == "" { return Deny; }
      var record := LookupUser(username.value, now);
      if record.None? { return Deny; }
      var verified := Verify(record.value, username.value, password.value, now);
      r := if verified then Allow(record.value.superuser, record) else Deny;
    }

    method CreateUser(q: NewUser, hash: Text) returns (r: CreateResult)
      modifies db
      ensures (Model(), r) == AuthModel.CreateUser(cfg, old(Model()), q, hash)
    {
      if !ValidUsername(q.username) || !ValidSegment(q.userid) { return BadRequest; }
      if |q.password| == 0 || |q.password| > 512 { return BadRequest; }
      var rec := RecordOf(q, hash);
      var inserted := db.InsertUser(rec);
      if !inserted { return Conflict; }
      if cfg.pepper.Some? {
        db.SetVerifier(q.username, Verifier(cfg.crypto, cfg.pepper.value, q.username, q.password));
      }
      r := Created(rec);
    }

    method DeleteUser(username: Text) returns (existed: bool)
      modifies db, authCache, userCache
      ensures (Model(), existed) == AuthModel.DeleteUser(old(Model()), username)
    {
      existed := db.DeleteUser(username);
      if existed {
        authCache.PurgeUser();
        userCache.Purge(username);
      }
    }

    method Replicate(op: ReplOp)
      modifies db, authCache, userCache
      ensures Model() == AuthModel.Replicate(old(Model()), op)
    {
      var username;
      match op {
        case Upsert(user) =>
          username := user.username;
          db.UpsertUser(user);
        case Delete(name) =>
          username := name;
          var _ := db.DeleteUser(name);
      }
      authCache.PurgeUser();
      userCache.Purge(username);
    }

    method CatchUp(snapshot: seq<UserRecord>)
      modifies db`users
      ensures Model() == AuthModel.CatchUp(old(Model()), snapshot)
    {
      db.UpsertMany(snapshot);
    }

    method Sweep(now: int)
      modifies authCache, userCache
      ensures Model() == AuthModel.Sweep(old(Model()), now)
    {
      authCache.Sweep(now);
      userCache.Sweep(now);
    }
  }
}
