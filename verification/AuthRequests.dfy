/** What each request means to those who make it: answers and tables in terms of the request's own
    fields, and what the next login is told. */
module AuthRequests {
  import opened Options
  import opened Topic
  import opened AuthModel

  /** Two tables hold the same for every name but `u`. */
  ghost predicate SameBut<V(!new)>(a: map<Text, V>, b: map<Text, V>, u: Text) {
    forall v :: v != u ==> (v in a <==> v in b) && (v in a ==> a[v] == b[v])
  }

  // ---------------------------------------------------------------- creating

  predicate Acceptable(q: NewUser) {
    && 1 <= |q.username| <= 128 && (forall c :: c in q.username ==> '!' <= c <= '~')
    && 1 <= |q.userid| <= 64
    && (forall c :: c in q.userid ==>
          'a' <= c <= 'z' || 'A' <= c <= 'Z' || '0' <= c <= '9' || c == '_' || c == '-')
    && 1 <= |q.password| <= 512
  }

  lemma AcceptableIff(q: NewUser)
    ensures ValidRequest(q) <==> Acceptable(q)
  {
    if Acceptable(q) {
      forall i | 0 <= i < |q.userid| ensures SegmentChar(q.userid[i]) { assert q.userid[i] in q.userid; }
      forall i | 0 <= i < |q.username| ensures '!' <= q.username[i] <= '~' { assert q.username[i] in q.username; }
    }
    if ValidRequest(q) {
      forall c | c in q.userid
        ensures 'a' <= c <= 'z' || 'A' <= c <= 'Z' || '0' <= c <= '9' || c == '_' || c == '-'
      {
        var i :| 0 <= i < |q.userid| && q.userid[i] == c;
        assert SegmentChar(q.userid[i]);
      }
    }
  }

  /** A user is created exactly when the request is acceptable and the name is free. The record has
      the fields of the request and the given hash, and nobody else's record or verifier changes.
      A request turned down changes nothing. */
  lemma CreateAnswers(cfg: Config, n: Node, q: NewUser, hash: Text)
    ensures var (m, r) := CreateUser(cfg, n, q, hash);
      && (r.Created? <==> Acceptable(q) && q.username !in n.users)
      && (r.Conflict? <==> Acceptable(q) && q.username in n.users)
      && (r.BadRequest? <==> !Acceptable(q))
      && (!r.Created? ==> m == n)
      && (r.Created? ==>
            && r.user.username == q.username && r.user.userid == q.userid && r.user.passwordHash == hash
            && r.user.superuser == q.superuser && r.user.admin == q.admin
            && q.username in m.users && m.users[q.username] == r.user
            && SameBut(m.users, n.users, q.username) && SameBut(m.verifiers, n.verifiers, q.username)
            && m.userCache == n.userCache && m.authCache == n.authCache)
  {
    AcceptableIff(q);
  }

  /** From then on the user logs in with the password of the request, and with no other that the
      stored hash rejects, and is who the request said. */
  lemma CreatedLogsIn(cfg: Config, n: Node, q: NewUser, hash: Text, password: Text, now: int)
    requires CollisionFree(cfg.crypto) && Coherent(cfg, n) && !cfg.authDisabled
    requires cfg.crypto.argon(hash, q.password) && Acceptable(q) && q.username !in n.users
    ensures var m := CreateUser(cfg, n, q, hash).0;
      && Authenticate(cfg, m, Some(q.username), Some(q.password), now).1
         == Allow(q.superuser, Some(UserRecord(q.username, q.userid, hash, q.superuser, q.admin)))
      && (password == "" || !cfg.crypto.argon(hash, password) ==>
            Authenticate(cfg, m, Some(q.username), Some(password), now).1 == Deny)
  {
    var m := CreateUser(cfg, n, q, hash).0;
    CreateAnswers(cfg, n, q, hash);
    CreateKeeps(cfg, n, q, hash);
    FastEqualsSlow(cfg, m, Some(q.username), Some(q.password), now);
    FastEqualsSlow(cfg, m, Some(q.username), Some(password), now);
  }

  // ---------------------------------------------------------------- deleting

  /** Deletion answers whether there was such a user. Afterwards there is none, nor a verifier, and
      nobody else's record or verifier has changed; if there was one, the caches have forgotten. */
  lemma DeleteAnswers(n: Node, u: Text)
    ensures var (m, existed) := DeleteUser(n, u);
      && existed == (u in n.users)
      && u !in m.users && u !in m.verifiers
      && SameBut(m.users, n.users, u) && SameBut(m.verifiers, n.verifiers, u)
      && SameBut(m.userCache, n.userCache, u)
      && (existed ==> u !in m.userCache && m.authCache == map[])
      && (!existed ==> m.userCache == n.userCache && m.authCache == n.authCache)
  {
    var m := DeleteUser(n, u).0;
    assert m.users == n.users - {u} && m.verifiers == n.verifiers - {u};
  }

  /** The next login under that name is denied; everybody else is answered as before. */
  lemma DeletedIsOut(cfg: Config, n: Node, u: Text, v: Text, password: Option<Text>, now: int)
    requires CollisionFree(cfg.crypto) && Coherent(cfg, n) && !cfg.authDisabled
    ensures var m := DeleteUser(n, u).0;
      Authenticate(cfg, m, Some(v), password, now).1
      == if v == u then Deny else Authenticate(cfg, n, Some(v), password, now).1
  {
    var m := DeleteUser(n, u).0;
    DropKeeps(cfg, n, u);
    DeleteAnswers(n, u);
    FastEqualsSlow(cfg, m, Some(v), password, now);
    FastEqualsSlow(cfg, n, Some(v), password, now);
  }

  /** Creating a user and deleting it again leaves both tables as they were. */
  lemma DeleteUndoesCreate(cfg: Config, n: Node, q: NewUser, hash: Text)
    requires Coherent(cfg, n) && (q.username in n.verifiers ==> q.username in n.users)
    requires CreateUser(cfg, n, q, hash).1.Created?
    ensures var (m, existed) := DeleteUser(CreateUser(cfg, n, q, hash).0, q.username);
      existed && m.users == n.users && m.verifiers == n.verifiers
  {
    var c := CreateUser(cfg, n, q, hash).0;
    CreateAnswers(cfg, n, q, hash);
    DeleteAnswers(c, q.username);
    var m := DeleteUser(c, q.username).0;
    forall v ensures v in m.users <==> v in n.users {}
    forall v ensures v in m.verifiers <==> v in n.verifiers {}
  }

  // ---------------------------------------------------------------- replication and catching up

  /** A peer's operation is applied whatever the table held; an upsert leaves the verifiers alone,
      a deletion takes the verifier along. The user's cached record and all cached successes go. */
  lemma ReplicateAnswers(n: Node, op: ReplOp, u: Text)
    requires u == match op case Upsert(r) => r.username case Delete(name) => name
    ensures var m := Replicate(n, op);
      && (op.Upsert? ==> u in m.users && m.users[u] == op.user && m.verifiers == n.verifiers)
      && (op.Delete? ==> u !in m.users && u !in m.verifiers)
      && SameBut(m.users, n.users, u) && SameBut(m.verifiers, n.verifiers, u)
      && u !in m.userCache && SameBut(m.userCache, n.userCache, u) && m.authCache == map[]
  {}

  ghost predicate IsLastFor(recs: seq<UserRecord>, i: nat, u: Text)
    requires i < |recs|
  {
    recs[i].username == u && forall j :: i < j < |recs| ==> recs[j].username != u
  }

  /** A snapshot leaves the names it does not list alone, */
  lemma {:induction false} SnapshotLeavesOthers(users: map<Text, UserRecord>, recs: seq<UserRecord>, u: Text)
    requires forall i :: 0 <= i < |recs| ==> recs[i].username != u
    ensures var after := UpsertAll(users, recs); (u in after <==> u in users) && (u in after ==> after[u] == users[u])
  {
    if recs != [] {
      var init := recs[..|recs| - 1];
      assert forall j :: 0 <= j < |init| ==> init[j] == recs[j];
      SnapshotLeavesOthers(users, init, u);
      assert recs[|recs| - 1].username != u;
    }
  }

  /** and for the others puts the last record it has. */
  lemma {:induction false} SnapshotLastWins(users: map<Text, UserRecord>, recs: seq<UserRecord>, u: Text, i: nat)
    requires i < |recs| && IsLastFor(recs, i, u)
    ensures u in UpsertAll(users, recs) && UpsertAll(users, recs)[u] == recs[i]
  {
    var n := |recs| - 1;
    if i < n {
      var init := recs[..n];
      assert recs[n].username != u;
      assert forall j :: 0 <= j < |init| ==> init[j] == recs[j];
      SnapshotLastWins(users, init, u, i);
    }
  }

  /** A catch-up purges nothing: a record cached before hides the one it brought. */
  lemma CatchUpIsHidden(cfg: Config, n: Node, recs: seq<UserRecord>, u: Text, now: int)
    requires CacheGet(n.userCache, u, now).Some?
    ensures Lookup(cfg, CatchUp(n, recs), u, now).1 == CacheGet(n.userCache, u, now)
    ensures CatchUp(n, recs).verifiers == n.verifiers && CatchUp(n, recs).authCache == n.authCache
  {
    assert CatchUp(n, recs).userCache == n.userCache;
  }

  // ---------------------------------------------------------------- caches

  /** After a sweep each cache holds exactly its live entries. */
  lemma SweepClears(n: Node, now: int)
    ensures var m := Sweep(n, now);
      && m.users == n.users && m.verifiers == n.verifiers
      && (forall u :: u in m.userCache <==> u in n.userCache && n.userCache[u].1 > now)
      && (forall u :: u in m.userCache ==> m.userCache[u] == n.userCache[u])
      && (forall k :: k in m.authCache <==> k in n.authCache && n.authCache[k].1 > now)
      && (forall k :: k in m.authCache ==> m.authCache[k] == n.authCache[k])
  {}

  /** After a restart the tables are as they were and no cached answer is left: a lookup returns the
      table's record, and credentials that neither verifier nor hash accepts are denied. */
  lemma RestartForgets(cfg: Config, n: Node, u: Text, p: Text, now: int)
    requires !cfg.authDisabled
    ensures var m := Restart(n);
      && m.users == n.users && m.verifiers == n.verifiers
      && Lookup(cfg, m, u, now).1 == (if u in n.users then Some(n.users[u]) else None)
      && (Authenticate(cfg, m, Some(u), Some(p), now).1.Allow? <==>
            u != "" && p != "" && u in n.users
            && (FastCheck(cfg, n, u, p) || cfg.crypto.argon(n.users[u].passwordHash, p)))
  {
    var m := Restart(n);
    var (m1, r) := Lookup(cfg, m, u, now);
    assert m1.authCache == map[] && FastCheck(cfg, m1, u, p) == FastCheck(cfg, n, u, p);
    if r.Some? {
      assert CheckPassword(cfg, m1, r.value, u, p, now).1
        == (FastCheck(cfg, n, u, p) || cfg.crypto.argon(r.value.passwordHash, p));
    }
  }

  /** What a login had to look up or check anew is remembered for the whole lifetime and no longer. */
  lemma RememberedForLifetime(cfg: Config, n: Node, u: Text, p: Text, now: int, t: int)
    requires !cfg.authDisabled && now <= t && cfg.userTtl > 0 && cfg.authTtl > 0
    requires Authenticate(cfg, n, Some(u), Some(p), now).1.Allow?
    ensures var (m, r) := Authenticate(cfg, n, Some(u), Some(p), now); var k := AuthKey(cfg.crypto, u, p);
      && (CacheGet(n.userCache, u, now).None? ==>
            CacheGet(m.userCache, u, t) == if t < now + cfg.userTtl then r.who else None)
      && (CacheGet(n.authCache, k, now).None? ==>
            (CacheGet(m.authCache, k, t).Some? <==> t < now + cfg.authTtl))
  {
    var (n1, r) := Lookup(cfg, n, u, now);
    assert r.Some? && n1.authCache == n.authCache;
    assert CheckPassword(cfg, n1, r.value, u, p, now).0.userCache == n1.userCache;
  }

  /** While both entries live a login is answered from them alone: whatever the tables and argon2
      would say, and without changing anything. */
  lemma CachedIsAnswered(cfg: Config, n: Node, u: Text, p: Text, now: int)
    requires !cfg.authDisabled && u != "" && p != ""
    requires CacheGet(n.userCache, u, now).Some? && CacheGet(n.authCache, AuthKey(cfg.crypto, u, p), now).Some?
    ensures var r := CacheGet(n.userCache, u, now).value;
      Authenticate(cfg, n, Some(u), Some(p), now) == (n, Allow(r.superuser, Some(r)))
  {
    assert Lookup(cfg, n, u, now) == (n, CacheGet(n.userCache, u, now));
  }

  /** With a pepper, a password that was checked anew is never put through argon2 again while the
      user stays: later logins succeed whatever argon2 would say. */
  lemma NoSecondSlowCheck(cfg: Config, n: Node, u: Text, p: Text, now: int, slow: (Text, Text) -> bool, t: int)
    requires !cfg.authDisabled && cfg.pepper.Some?
    requires Authenticate(cfg, n, Some(u), Some(p), now).1.Allow?
    requires CacheGet(n.authCache, AuthKey(cfg.crypto, u, p), now).None?
    ensures var m := Authenticate(cfg, n, Some(u), Some(p), now).0;
      var c := cfg.(crypto := cfg.crypto.(argon := slow));
      u in m.users ==> Authenticate(c, m, Some(u), Some(p), t).1.Allow?
  {
    var m := Authenticate(cfg, n, Some(u), Some(p), now).0;
    var c := cfg.(crypto := cfg.crypto.(argon := slow));
    var (n1, r) := Lookup(cfg, n, u, now);
    assert r.Some? && n1.authCache == n.authCache && n1.verifiers == n.verifiers;
    assert CheckPassword(cfg, n1, r.value, u, p, now) == (m, true);
    assert FastCheck(c, m, u, p);
    var (m1, q) := Lookup(c, m, u, t);
    if q.Some? {
      assert FastCheck(c, m1, u, p);
      assert CheckPassword(c, m1, q.value, u, p, t).1;
    }
  }
}
