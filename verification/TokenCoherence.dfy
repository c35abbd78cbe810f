/** The cache agrees with the table over every run of calls, and what follows for checking a token. */
module TokenCoherence {
  import opened Options
  import opened Tokens
  import opened TokenTable
  import opened TokenCache
  import M = TTLMaps

  // Every entry, live or not, is the row that the table has now under that hash.
  ghost predicate Current(s: State, key: string) {
    exists i :: i in s.table && key == CacheKey(s.table[i].hash) && key in s.cache.data && s.cache.data[key] == s.table[i]
  }

  ghost predicate Coherent(s: State) {
    Proper(s.table) && forall k :: k in s.cache.data ==> Current(s, k)
  }

  datatype Call =
    | Get(model: Token, opts: Token -> bool, now: Clock)
    | FailedGet(model: Token, get: int)
    | Create(model: Token, id: int, at: int)
    | Update(model: Token, change: Token -> Token, opts: Token -> bool, stamp: int, newId: int, at: int)
    | Delete(model: Token, opts: Token -> bool, returned: Token)
    | Expire(scope: string, userID: string, reason: string, at: int, stamp: int)
    | DeleteAllForUser(scope: string, userID: string)
    | DeleteExpired(before: int)

  ghost function After(s: State, ttl: int, c: Call): State {
    match c
    case Get(model, opts, now) => AfterGet(s, model, opts, ttl, now)
    case FailedGet(model, get) => State(s.table, Looked(s, model, get))
    case Create(model, id, at) => Put(s, model.(id := id), ttl, at)
    case Update(model, change, opts, stamp, newId, at) =>
      (match First(s.table, model, opts) case Some(r) => Put(s, Changed(r, change, stamp, newId), ttl, at) case None => s)
    case Delete(model, opts, returned) => AfterDelete(s, Selected(s.table, model, opts), returned)
    case Expire(scope, userID, reason, at, stamp) => AfterExpire(s, ToExpire(s.table, scope, userID, at), reason, stamp)
    case DeleteAllForUser(scope, userID) => AfterDeleteAll(s, OfUser(s.table, scope, userID))
    case DeleteExpired(before) => AfterDeleteAll(s, ExpiredBefore(s.table, before))
  }

  ghost predicate Unused(t: Table, hash: seq<byte>) {
    forall i :: i in t ==> t[i].hash != hash
  }

  // What a delete returns into the model.
  ghost predicate Returns(t: Table, c: Call)
    requires c.Delete?
  {
    var gone := Selected(t, c.model, c.opts);
    if gone == {} then c.returned == c.model else exists i :: i in gone && c.returned == t[i]
  }

  // A new row has a new hash, an update keeps the primary key and the hash, and a delete removes one row at most.
  ghost predicate Disciplined(s: State, c: Call) {
    match c
    case Create(model, id, _) => id !in s.table && Unused(s.table, model.hash)
    case Update(model, change, opts, stamp, newId, _) =>
      var r := First(s.table, model, opts);
      r.Some? ==> var t := Changed(r.value, change, stamp, newId); t.id == r.value.id && t.hash == r.value.hash
    case Delete(model, opts, _) =>
      && Returns(s.table, c)
      && (forall i, j :: i in Selected(s.table, model, opts) && j in Selected(s.table, model, opts) ==> i == j)
    case _ => true
  }

  /******* One call *******/

  lemma FewerEntries(s: State, s': State)
    requires Coherent(s) && s'.table == s.table
    requires forall k :: k in s'.cache.data ==> k in s.cache.data && s'.cache.data[k] == s.cache.data[k]
    ensures Coherent(s')
  {
    forall k | k in s'.cache.data ensures Current(s', k) {
      assert Current(s, k);
    }
  }

  lemma PutKeepsCoherent(s: State, t: Token, ttl: int, now: int)
    requires Coherent(s)
    requires if t.id in s.table then s.table[t.id].hash == t.hash else Unused(s.table, t.hash)
    ensures Coherent(Put(s, t, ttl, now))
  {
    var s' := Put(s, t, ttl, now);
    forall k | k in s'.cache.data ensures Current(s', k) {
      if k == CacheKey(t.hash) {
        assert s'.table[t.id] == t;
      } else {
        assert Current(s, k);
        var i :| i in s.table && k == CacheKey(s.table[i].hash) && s.cache.data[k] == s.table[i];
        assert i != t.id;
        assert s'.table[i] == s.table[i];
      }
    }
  }

  lemma FillKeepsCoherent(s: State, i: int, ttl: int, load: int, store: int)
    requires Coherent(s) && i in s.table
    ensures Coherent(State(s.table, AfterSetNX(s.cache, CacheKey(s.table[i].hash), s.table[i], ttl, load, store)))
  {
    var key := CacheKey(s.table[i].hash);
    var dropped := State(s.table, M.AfterLoad(s.cache, key, load));
    FewerEntries(s, dropped);
    PutKeepsCoherent(dropped, s.table[i], ttl, store);
    assert s.table[i := s.table[i]] == s.table;
  }

  // Rows may change or go if the entries under their hashes do.
  lemma EvictionKeepsCoherent(s: State, s': State, rows: set<int>)
    requires Coherent(s) && Proper(s'.table)
    requires forall i :: i in s.table && i !in rows ==> i in s'.table && s'.table[i] == s.table[i]
    requires forall k :: k in s'.cache.data ==> k in s.cache.data && s'.cache.data[k] == s.cache.data[k]
    requires forall i :: i in rows && i in s.table ==> CacheKey(s.table[i].hash) !in s'.cache.data
    ensures Coherent(s')
  {
    forall k | k in s'.cache.data ensures Current(s', k) {
      assert Current(s, k);
      var i :| i in s.table && k == CacheKey(s.table[i].hash) && s.cache.data[k] == s.table[i];
      assert s'.table[i] == s.table[i];
    }
  }

  lemma KeyIsEvicted(t: Table, rows: set<int>, i: int)
    requires i in rows && i in t
    ensures CacheKey(t[i].hash) in KeysOf(HashesOf(t, rows))
  {
    assert Hex(t[i].hash) in HashesOf(t, rows);
  }

  lemma CallKeepsCoherent(s: State, ttl: int, c: Call)
    requires Coherent(s) && Disciplined(s, c)
    ensures Coherent(After(s, ttl, c))
  {
    match c
    case Get(model, opts, now) =>
      var looked := State(s.table, Looked(s, model, now.get));
      FewerEntries(s, looked);
      var r := First(s.table, model, opts);
      if r.Some? {
        var i :| i in Selected(s.table, model, opts) && r.value == s.table[i];
        FillKeepsCoherent(looked, i, ttl, now.load, now.store);
      }
    case FailedGet(model, get) =>
      FewerEntries(s, After(s, ttl, c));
    case Create(model, id, at) =>
      PutKeepsCoherent(s, model.(id := id), ttl, at);
    case Update(model, change, opts, stamp, newId, at) =>
      var r := First(s.table, model, opts);
      if r.Some? {
        var i :| i in Selected(s.table, model, opts) && r.value == s.table[i];
        PutKeepsCoherent(s, Changed(r.value, change, stamp, newId), ttl, at);
      }
    case Delete(model, opts, returned) =>
      EvictionKeepsCoherent(s, After(s, ttl, c), Selected(s.table, model, opts));
    case Expire(scope, userID, reason, at, stamp) =>
      var rows := ToExpire(s.table, scope, userID, at);
      forall i | i in rows ensures CacheKey(s.table[i].hash) in KeysOf(HashesOf(s.table, rows)) {
        KeyIsEvicted(s.table, rows, i);
      }
      EvictionKeepsCoherent(s, After(s, ttl, c), rows);
    case DeleteAllForUser(scope, userID) =>
      DeleteAllKeepsCoherent(s, OfUser(s.table, scope, userID));
    case DeleteExpired(before) =>
      DeleteAllKeepsCoherent(s, ExpiredBefore(s.table, before));
  }

  lemma DeleteAllKeepsCoherent(s: State, rows: set<int>)
    requires Coherent(s)
    ensures Coherent(AfterDeleteAll(s, rows))
  {
    forall i | i in rows && i in s.table ensures CacheKey(s.table[i].hash) in KeysOf(HashesOf(s.table, rows)) {
      KeyIsEvicted(s.table, rows, i);
    }
    EvictionKeepsCoherent(s, AfterDeleteAll(s, rows), rows);
  }

  /******* Every run *******/

  ghost function AfterRun(s: State, ttl: int, run: seq<Call>): State
    decreases |run|
  {
    if run == [] then s else AfterRun(After(s, ttl, run[0]), ttl, run[1..])
  }

  ghost predicate RunDisciplined(s: State, ttl: int, run: seq<Call>)
    decreases |run|
  {
    run == [] || (Disciplined(s, run[0]) && RunDisciplined(After(s, ttl, run[0]), ttl, run[1..]))
  }

  lemma {:induction false} RunKeepsCoherent(s: State, ttl: int, run: seq<Call>)
    requires Coherent(s) && RunDisciplined(s, ttl, run)
    ensures Coherent(AfterRun(s, ttl, run))
    decreases |run|
  {
    if run != [] {
      CallKeepsCoherent(s, ttl, run[0]);
      RunKeepsCoherent(After(s, ttl, run[0]), ttl, run[1..]);
    }
  }

  // After any such run, a hash that no row has is not cached, and one that a row has is cached, if at
  // all, as that row.
  lemma CacheAnswersFromTable(table: Table, ttl: int, run: seq<Call>, hash: seq<byte>, now: int)
    requires Proper(table)
    requires RunDisciplined(State(table, M.State(map[], map[])), ttl, run)
    ensures var s := AfterRun(State(table, M.State(map[], map[])), ttl, run);
            var hit := M.Found(s.cache, CacheKey(hash), now);
            && (Unused(s.table, hash) ==> hit == None)
            && (forall i :: i in s.table && s.table[i].hash == hash && hit.Some? ==> hit.value == s.table[i])
  {
    var s0 := State(table, M.State(map[], map[]));
    RunKeepsCoherent(s0, ttl, run);
    var s := AfterRun(s0, ttl, run);
    var key := CacheKey(hash);
    if key in s.cache.data {
      assert Current(s, key);
      var i :| i in s.table && key == CacheKey(s.table[i].hash) && s.cache.data[key] == s.table[i];
      CacheKeyInjective(hash, s.table[i].hash);
    }
  }

  /******* Exactly when an undisciplined update or delete does harm *******/

  // Every entry that a read at this moment would return is a current row.
  ghost predicate LiveCoherent(s: State, at: int) {
    && (forall i, j :: i in s.table && j in s.table && s.table[i].hash == s.table[j].hash ==> i == j)
    && forall k :: M.Found(s.cache, k, at).Some? ==> Current(s, k)
  }

  // Every disciplined run reaches such a state, whatever the moment: what follows is about the next call.
  lemma RunIsLiveCoherent(table: Table, ttl: int, run: seq<Call>, at: int)
    requires Proper(table)
    requires RunDisciplined(State(table, M.State(map[], map[])), ttl, run)
    ensures LiveCoherent(AfterRun(State(table, M.State(map[], map[])), ttl, run), at)
  {
    RunKeepsCoherent(State(table, M.State(map[], map[])), ttl, run);
  }

  lemma NoRowNoEntry(s: State, hash: seq<byte>)
    requires Unused(s.table, hash)
    ensures !Current(s, CacheKey(hash))
  {
    forall i | i in s.table ensures CacheKey(hash) != CacheKey(s.table[i].hash) {
      if CacheKey(hash) == CacheKey(s.table[i].hash) {
        CacheKeyInjective(hash, s.table[i].hash);
      }
    }
  }

  lemma SameRowStaysCurrent(s: State, s': State, k: string, gone: set<int>)
    requires Current(s, k) && s'.cache.data.Keys >= {k} && s'.cache.data[k] == s.cache.data[k]
    requires forall i :: i in s.table && i !in gone ==> i in s'.table && s'.table[i] == s.table[i]
    requires forall i :: i in gone && i in s.table ==> k != CacheKey(s.table[i].hash)
    ensures Current(s', k)
  {
    var i :| i in s.table && k == CacheKey(s.table[i].hash) && s.cache.data[k] == s.table[i];
    assert s'.table[i] == s.table[i];
  }

  // An update may change the hash exactly when no read can find the entry of the old one any more.
  lemma UpdateCoherentIff(s: State, ttl: int, i: int, r: Token, now: int, at: int)
    requires LiveCoherent(s, at) && i in s.table && r.id == i
    requires forall j :: j in s.table && j != i ==> s.table[j].hash != r.hash
    ensures LiveCoherent(Put(s, r, ttl, now), at) <==>
              r.hash == s.table[i].hash || M.Found(s.cache, CacheKey(s.table[i].hash), at) == None
  {
    var s' := Put(s, r, ttl, now);
    var key, key' := CacheKey(s.table[i].hash), CacheKey(r.hash);
    if r.hash != s.table[i].hash {
      if key == key' {
        CacheKeyInjective(s.table[i].hash, r.hash);
      }
      assert M.Found(s'.cache, key, at) == M.Found(s.cache, key, at);
      NoRowNoEntry(s', s.table[i].hash);
    }
    forall k | M.Found(s'.cache, k, at).Some? && (k != key || key == key') ensures Current(s', k) {
      if k == key' {
        assert s'.table[i] == r;
      } else {
        assert Current(s, k);
        SameRowStaysCurrent(s, s', k, {i});
      }
    }
  }

  // A delete of several rows evicts one entry: no read may find the entry of another.
  lemma DeleteCoherentIff(s: State, gone: set<int>, returned: int, at: int)
    requires LiveCoherent(s, at) && returned in gone && gone <= s.table.Keys
    ensures LiveCoherent(AfterDelete(s, gone, s.table[returned]), at) <==>
              forall i :: i in gone && i != returned ==> M.Found(s.cache, CacheKey(s.table[i].hash), at) == None
  {
    var s' := AfterDelete(s, gone, s.table[returned]);
    forall i | i in gone && i != returned
      ensures M.Found(s'.cache, CacheKey(s.table[i].hash), at) == M.Found(s.cache, CacheKey(s.table[i].hash), at)
      ensures !Current(s', CacheKey(s.table[i].hash))
    {
      if CacheKey(s.table[i].hash) == CacheKey(s.table[returned].hash) {
        CacheKeyInjective(s.table[i].hash, s.table[returned].hash);
      }
      NoRowNoEntry(s', s.table[i].hash);
    }
    if forall i :: i in gone && i != returned ==> M.Found(s.cache, CacheKey(s.table[i].hash), at) == None {
      forall k | M.Found(s'.cache, k, at).Some? ensures Current(s', k) {
        assert Current(s, k);
        SameRowStaysCurrent(s, s', k, gone);
      }
    }
  }

  /******* Runs that reach such harm *******/

  function OwnHash(hash: seq<byte>): Token -> bool {
    (r: Token) => r.hash == hash
  }

  function Rehash(hash: seq<byte>): Token -> Token {
    (r: Token) => r.(hash := hash)
  }

  function Everyone(): Token -> bool {
    (r: Token) => true
  }

  const EMPTY := State(map[], M.State(map[], map[]))

  // A token is created and its hash changed: until the ttl is over a read by the old hash finds the
  // token as it was, though the table has no such row.
  lemma UpdateLeavesStaleEntry(h: seq<byte>, h': seq<byte>, ttl: int, stamp: int, now: int, at: int)
    requires h != h' && h != [] && at <= now + ttl
    ensures var run := [Create(ByHash(h), 1, now), Update(ZeroToken(), Rehash(h'), OwnHash(h), stamp, 2, now)];
            var s := AfterRun(EMPTY, ttl, run);
            && AnswerGet(s, ByHash(h), OwnHash(h), at) == Done(Image(ByHash(h).(id := 1)))
            && First(s.table, ByHash(h), OwnHash(h)) == None
  {
    var run := [Create(ByHash(h), 1, now), Update(ZeroToken(), Rehash(h'), OwnHash(h), stamp, 2, now)];
    var t := ByHash(h).(id := 1);
    var s1 := Put(EMPTY, t, ttl, now);
    assert s1.table == map[1 := t];
    OnlyRow(s1.table, 1, ZeroToken(), OwnHash(h));
    var t' := Changed(t, Rehash(h'), stamp, 2);
    assert t' == t.(hash := h', updatedAt := stamp);
    var s2 := Put(s1, t', ttl, now);
    assert After(EMPTY, ttl, run[0]) == s1 && After(s1, ttl, run[1]) == s2;
    RunOfTwo(EMPTY, ttl, run[0], run[1]);
    assert s2.table == map[1 := t'];
    assert Selected(s2.table, ByHash(h), OwnHash(h)) == {};
    if CacheKey(h) == CacheKey(h') {
      CacheKeyInjective(h, h');
    }
  }

  lemma RunOfTwo(s: State, ttl: int, c: Call, d: Call)
    ensures AfterRun(s, ttl, [c, d]) == After(After(s, ttl, c), ttl, d)
  {
    assert [c, d][1..] == [d] && [d][1..] == [];
    assert AfterRun(After(s, ttl, c), ttl, [d]) == AfterRun(After(After(s, ttl, c), ttl, d), ttl, []);
  }

  lemma OnlyRow(t: Table, i: int, model: Token, opts: Token -> bool)
    requires t.Keys == {i} && model.id == 0 && opts(t[i])
    ensures First(t, model, opts) == Some(t[i])
  {
    assert i in Selected(t, model, opts);
  }

  // Two tokens are deleted in one call: one of them is still found by a read.
  lemma DeleteLeavesStaleEntry(one: seq<byte>, two: seq<byte>, ttl: int, now: int, at: int)
    requires one != two && two != [] && at <= now + ttl
    ensures var first := ByHash(one).(id := 1);
            var run := [Create(ByHash(one), 1, now), Create(ByHash(two), 2, now), Delete(ZeroToken(), Everyone(), first)];
            var s := AfterRun(EMPTY, ttl, run);
            && Returns(AfterRun(EMPTY, ttl, run[..2]).table, run[2])
            && AnswerGet(s, ByHash(two), OwnHash(two), at) == Done(Image(ByHash(two).(id := 2)))
            && First(s.table, ByHash(two), OwnHash(two)) == None
  {
    var first, second := ByHash(one).(id := 1), ByHash(two).(id := 2);
    var run := [Create(ByHash(one), 1, now), Create(ByHash(two), 2, now), Delete(ZeroToken(), Everyone(), first)];
    var s1 := Put(EMPTY, first, ttl, now);
    var s2 := Put(s1, second, ttl, now);
    assert After(EMPTY, ttl, run[0]) == s1 && After(s1, ttl, run[1]) == s2;
    assert run[..2] == [run[0], run[1]] && run[1..] == [run[1], run[2]];
    RunOfTwo(EMPTY, ttl, run[0], run[1]);
    assert s2.table == map[1 := first, 2 := second];
    var gone := Selected(s2.table, ZeroToken(), Everyone());
    assert gone == {1, 2};
    var s3 := AfterDelete(s2, gone, first);
    assert After(s2, ttl, run[2]) == s3;
    RunOfTwo(s1, ttl, run[1], run[2]);
    assert s3.table == map[];
    assert Selected(s3.table, ByHash(two), OwnHash(two)) == {};
    if CacheKey(one) == CacheKey(two) {
      CacheKeyInjective(one, two);
    }
  }

  /******* Reading through the cache *******/

  ghost predicate SelectsOwnHash(model: Token, opts: Token -> bool) {
    model.id == 0 && forall r :: opts(r) <==> r.hash == model.hash
  }

  lemma FirstIsOwn(t: Table, model: Token, opts: Token -> bool, i: int)
    requires Proper(t) && SelectsOwnHash(model, opts) && i in t && t[i].hash == model.hash
    ensures First(t, model, opts) == Some(t[i])
  {
    assert i in Selected(t, model, opts);
    var j :| j in Selected(t, model, opts) && First(t, model, opts) == Some(t[j]);
  }

  // A read through the cache finds a row exactly when the table does: the row, or its JSON image.
  lemma GetAgrees(s: State, model: Token, opts: Token -> bool, now: int)
    requires Coherent(s) && SelectsOwnHash(model, opts)
    ensures match First(s.table, model, opts)
            case None => AnswerGet(s, model, opts, now) == NotFound
            case Some(r) =>
              AnswerGet(s, model, opts, now) == Done(if CachedAt(s, model, now).Some? then Image(r) else r)
  {
    var hit := CachedAt(s, model, now);
    if hit.Some? {
      var key := CacheKey(model.hash);
      assert Current(s, key);
      var i :| i in s.table && key == CacheKey(s.table[i].hash) && s.cache.data[key] == s.table[i];
      CacheKeyInjective(model.hash, s.table[i].hash);
      FirstIsOwn(s.table, model, opts, i);
    }
  }

  // A read that missed leaves the row in the cache for the ttl; until then a repeated read is a hit.
  lemma MissFillsCache(s: State, model: Token, opts: Token -> bool, ttl: int, now: Clock, at: int)
    requires Coherent(s) && M.KeysAgree(s.cache) && SelectsOwnHash(model, opts) && model.hash != []
    requires CachedAt(s, model, now.get) == None
    ensures var s' := AfterGet(s, model, opts, ttl, now);
            && M.KeysAgree(s'.cache) && s'.table == s.table
            && CachedAt(s', model, at) == if at <= now.store + ttl then First(s.table, model, opts) else None
  {
    if First(s.table, model, opts) == None {
      var key := CacheKey(model.hash);
      if key in s.cache.data {
        assert Current(s, key);
        var i :| i in s.table && key == CacheKey(s.table[i].hash) && s.cache.data[key] == s.table[i];
        CacheKeyInjective(model.hash, s.table[i].hash);
        FirstIsOwn(s.table, model, opts, i);
      }
    }
  }

  // Without a hash in the model a read asks the table, whatever is cached.
  lemma NoHashNoHit(s: State, model: Token, opts: Token -> bool, now: int)
    requires model.hash == []
    ensures AnswerGet(s, model, opts, now) ==
            match First(s.table, model, opts) case Some(t) => Done(t) case None => NotFound
  {
  }

  // Whatever selected it, the row that the table gave is cached under its own hash.
  lemma TableReadFillsCache(s: State, model: Token, opts: Token -> bool, ttl: int, now: Clock)
    requires Coherent(s) && 0 <= ttl && now.load <= now.store
    requires CachedAt(s, model, now.get) == None && First(s.table, model, opts).Some?
    ensures var r := First(s.table, model, opts).value;
            M.Found(AfterGet(s, model, opts, ttl, now).cache, CacheKey(r.hash), now.load) == Some(r)
  {
    var r := First(s.table, model, opts).value;
    var key := CacheKey(r.hash);
    var i :| i in Selected(s.table, model, opts) && r == s.table[i];
    if key in s.cache.data {
      assert Current(s, key);
      var j :| j in s.table && key == CacheKey(s.table[j].hash) && s.cache.data[key] == s.table[j];
      CacheKeyInjective(r.hash, s.table[j].hash);
    }
  }

  // A write is read back at once, whatever was cached before: as the image of what was written until
  // the ttl is over, and then as the row itself.
  lemma WriteIsReadBack(s: State, t: Token, ttl: int, now: int, at: int)
    requires Coherent(s) && t.hash != []
    requires if t.id in s.table then s.table[t.id].hash == t.hash else Unused(s.table, t.hash)
    ensures var s' := Put(s, t, ttl, now);
            && Coherent(s')
            && AnswerGet(s', ByHash(t.hash), OwnHash(t.hash), at) == Done(if at <= now + ttl then Image(t) else t)
  {
    PutKeepsCoherent(s, t, ttl, now);
    FirstIsOwn(Put(s, t, ttl, now).table, ByHash(t.hash), OwnHash(t.hash), t.id);
  }

  /******* Checking a token *******/

  datatype Verdict = Accepted | Rejected(message: string) | DBError

  const LOGIN_AGAIN := "请重新登录"

  function Judge(r: Reply<Token>, now: int): Verdict {
    match r
    case NotFound => Rejected(LOGIN_AGAIN)
    case Failed => DBError
    case Done(t) => if t.expiredAt < now then Rejected(if t.reason != "" then t.reason else LOGIN_AGAIN) else Accepted
  }

  function ZeroToken(): Token {
    ByHash([])
  }

  function ByHash(hash: seq<byte>): Token {
    Token(0, "", "", hash, ZERO_TIME, ZERO_TIME, ZERO_TIME, "")
  }

  class Core {
    const store: Store

    constructor (store: Store)
      ensures this.store == store
    {
      this.store := store;
    }

    // A database error comes back exactly if the cache had nothing live under the hash and the table's
    // read failed; any other verdict is that of the answer.
    method Valid(hash: seq<byte>, clock: Clock, now: int, fails: bool) returns (v: Verdict)
      modifies store.cache.m
      ensures v == DBError <==> fails && old(CachedAt(store.Contents(), ByHash(hash), clock.get)) == None
      ensures v != DBError ==> v == Judge(old(AnswerGet(store.Contents(), ByHash(hash), OwnHash(hash), clock.get)), now)
    {
      var to := ByHash(hash);
      var r := store.Get(to, OwnHash(hash), clock, fails);
      if r.NotFound? {
        return Rejected(LOGIN_AGAIN);
      }
      if r.Failed? {
        return DBError;
      }
      if r.value.expiredAt < now {
        if r.value.reason != "" {
          return Rejected(r.value.reason);
        }
        return Rejected(LOGIN_AGAIN);
      }
      return Accepted;
    }
  }

  // Through the cache a token is accepted only if the table accepts it, it is refused less than a
  // second early at worst, and a token refused by both is refused with the same message.
  lemma ValidThroughCache(s: State, opts: Token -> bool, hash: seq<byte>, get: int, now: int)
    requires Coherent(s) && SelectsOwnHash(ByHash(hash), opts) && YEAR_TWO <= now
    ensures var cached := Judge(AnswerGet(s, ByHash(hash), opts, get), now);
            var row := First(s.table, ByHash(hash), opts);
            var direct := Judge(if row.Some? then Done(row.value) else NotFound, now);
            && (cached == Accepted ==> direct == Accepted)
            && (direct == Accepted && cached != Accepted ==> row.Some? && row.value.expiredAt - now < SECOND)
            && (direct != Accepted ==> cached == direct)
  {
    GetAgrees(s, ByHash(hash), opts, get);
    var row := First(s.table, ByHash(hash), opts);
    if row.Some? {
      TimeImageTruncates(row.value.expiredAt);
    }
  }

  // Expiring a user's tokens sets their reason and evicts them, and nothing else: whether a token is
  // accepted does not change, only what a later refusal says.
  lemma ExpireKeepsAccepting(s: State, scope: string, userID: string, reason: string, at: int, stamp: int,
                             opts: Token -> bool, hash: seq<byte>, i: int, get: int, now: int)
    requires Coherent(s) && SelectsOwnHash(ByHash(hash), opts)
    requires i in ToExpire(s.table, scope, userID, at) && s.table[i].hash == hash
    ensures var s' := AfterExpire(s, ToExpire(s.table, scope, userID, at), reason, stamp);
            var verdict := Judge(AnswerGet(s', ByHash(hash), opts, get), now);
            && (verdict == Accepted <==> Judge(Done(s.table[i]), now) == Accepted)
            && (verdict != Accepted ==> verdict == Rejected(if reason != "" then reason else LOGIN_AGAIN))
  {
    var rows := ToExpire(s.table, scope, userID, at);
    var s' := AfterExpire(s, rows, reason, stamp);
    KeyIsEvicted(s.table, rows, i);
    assert Proper(s'.table) && s'.table[i].hash == hash;
    FirstIsOwn(s'.table, ByHash(hash), opts, i);
  }
}
