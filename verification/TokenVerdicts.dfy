/** What each call on the token store does to the verdict on every token: whose tokens it touches, and
    that it leaves all others alone. */
module TokenVerdicts {
  import opened Options
  import opened Tokens
  import opened TokenTable
  import opened TokenCache
  import opened TokenCoherence
  import M = TTLMaps

  ghost function Answer(s: State, hash: seq<byte>, get: int): Reply<Token> {
    AnswerGet(s, ByHash(hash), OwnHash(hash), get)
  }

  ghost function VerdictOn(s: State, hash: seq<byte>, get: int, now: int): Verdict {
    Judge(Answer(s, hash, get), now)
  }

  // A row and an entry that a call leaves alone are read as before.
  lemma SameAnswer(s: State, s': State, i: int, get: int)
    requires Proper(s.table) && Proper(s'.table) && i in s.table && i in s'.table && s'.table[i] == s.table[i]
    requires var key := CacheKey(s.table[i].hash);
             M.Found(s'.cache, key, get) == M.Found(s.cache, key, get)
    ensures Answer(s', s.table[i].hash, get) == Answer(s, s.table[i].hash, get)
  {
    var hash := s.table[i].hash;
    FirstIsOwn(s.table, ByHash(hash), OwnHash(hash), i);
    FirstIsOwn(s'.table, ByHash(hash), OwnHash(hash), i);
  }

  // Without a row or an entry a token is unknown.
  lemma Unknown(s: State, hash: seq<byte>, get: int)
    requires Unused(s.table, hash) && CacheKey(hash) !in s.cache.data
    ensures Answer(s, hash, get) == NotFound
  {
    forall i | i in s.table ensures i !in Selected(s.table, ByHash(hash), OwnHash(hash)) {
      assert s.table[i].hash != hash;
    }
    assert Selected(s.table, ByHash(hash), OwnHash(hash)) == {};
  }

  lemma OtherKey(t: Table, rows: set<int>, i: int)
    requires Proper(t) && i in t && i !in rows
    ensures CacheKey(t[i].hash) !in KeysOf(HashesOf(t, rows))
  {
    if CacheKey(t[i].hash) in KeysOf(HashesOf(t, rows)) {
      var h :| h in HashesOf(t, rows) && CacheKey(t[i].hash) == "TOKEN:" + h;
      var j :| j in rows && j in t && h == Hex(t[j].hash);
      CacheKeyInjective(t[i].hash, t[j].hash);
    }
  }

  // A removal of rows with all their entries.
  lemma DeleteAllAnswers(s: State, rows: set<int>, i: int, get: int)
    requires Coherent(s) && i in s.table
    ensures Answer(AfterDeleteAll(s, rows), s.table[i].hash, get) ==
            if i in rows then NotFound else Answer(s, s.table[i].hash, get)
  {
    var s' := AfterDeleteAll(s, rows);
    if i in rows {
      KeyIsEvicted(s.table, rows, i);
      Unknown(s', s.table[i].hash, get);
    } else {
      OtherKey(s.table, rows, i);
      SameAnswer(s, s', i, get);
    }
  }

  // Removing a user's tokens of a scope: exactly those are unknown afterwards.
  lemma DeleteAllForUserVerdicts(s: State, ttl: int, scope: string, userID: string, i: int, get: int, now: int)
    requires Coherent(s) && i in s.table
    ensures var hash, s' := s.table[i].hash, After(s, ttl, DeleteAllForUser(scope, userID));
            if s.table[i].userID == userID && s.table[i].scope == scope
            then VerdictOn(s', hash, get, now) == Rejected("请重新登录")
            else Answer(s', hash, get) == Answer(s, hash, get)
  {
    DeleteAllAnswers(s, OfUser(s.table, scope, userID), i, get);
  }

  // Removing what expired before a moment: exactly those are unknown afterwards, and nothing is
  // accepted or refused for it that was not before, as long as the moment is not to come.
  lemma DeleteExpiredVerdicts(s: State, ttl: int, before: int, i: int, get: int, now: int)
    requires Coherent(s) && i in s.table && YEAR_TWO <= now
    ensures var hash, s' := s.table[i].hash, After(s, ttl, DeleteExpired(before));
            && (if s.table[i].expiredAt < before then VerdictOn(s', hash, get, now) == Rejected("请重新登录")
                else Answer(s', hash, get) == Answer(s, hash, get))
            && (before <= now ==> (VerdictOn(s', hash, get, now) == Accepted <==> VerdictOn(s, hash, get, now) == Accepted))
  {
    DeleteAllAnswers(s, ExpiredBefore(s.table, before), i, get);
    var hash := s.table[i].hash;
    GetAgrees(s, ByHash(hash), OwnHash(hash), get);
    FirstIsOwn(s.table, ByHash(hash), OwnHash(hash), i);
    TimeImageTruncates(s.table[i].expiredAt);
  }

  // Expiring a user's tokens of a scope: those that have not expired yet get the reason, and it does
  // not change whether they are accepted; all others are read as before.
  lemma ExpireVerdicts(s: State, ttl: int, scope: string, userID: string, reason: string, at: int, stamp: int, i: int,
                       get: int, now: int)
    requires Coherent(s) && i in s.table
    ensures var t, s' := s.table[i], After(s, ttl, Expire(scope, userID, reason, at, stamp));
            if t.userID == userID && t.scope == scope && t.expiredAt > at
            then VerdictOn(s', t.hash, get, now) ==
                 if now <= t.expiredAt then Accepted else Rejected(if reason != "" then reason else "请重新登录")
            else Answer(s', t.hash, get) == Answer(s, t.hash, get)
    ensures var t, s' := s.table[i], After(s, ttl, Expire(scope, userID, reason, at, stamp));
            && s'.table.Keys == s.table.Keys
            && s'.table[i] == if t.userID == userID && t.scope == scope && t.expiredAt > at
                              then t.(reason := reason, updatedAt := stamp) else t
  {
    var rows, hash := ToExpire(s.table, scope, userID, at), s.table[i].hash;
    var s' := AfterExpire(s, rows, reason, stamp);
    assert Proper(s'.table);
    if i in rows {
      ExpireKeepsAccepting(s, scope, userID, reason, at, stamp, OwnHash(hash), hash, i, get, now);
    } else {
      OtherKey(s.table, rows, i);
      SameAnswer(s, s', i, get);
    }
  }

  // Deleting a token by its hash: it is unknown afterwards, and all others are read as before.
  lemma DeleteVerdicts(s: State, ttl: int, hash: seq<byte>, i: int, j: int, get: int, now: int)
    requires Coherent(s) && i in s.table && s.table[i].hash == hash && j in s.table
    ensures var s' := After(s, ttl, Delete(ZeroToken(), OwnHash(hash), s.table[i]));
            if j == i then VerdictOn(s', hash, get, now) == Rejected("请重新登录")
            else Answer(s', s.table[j].hash, get) == Answer(s, s.table[j].hash, get)
  {
    var gone := Selected(s.table, ZeroToken(), OwnHash(hash));
    forall k ensures k in gone <==> k == i {
      if k in gone {
        assert s.table[k].hash == s.table[i].hash;
      }
    }
    assert gone == {i};
    var s' := AfterDelete(s, gone, s.table[i]);
    if j == i {
      Unknown(s', hash, get);
    } else {
      if CacheKey(s.table[j].hash) == CacheKey(hash) {
        CacheKeyInjective(s.table[j].hash, hash);
      }
      SameAnswer(s, s', j, get);
    }
  }

  // Writing one token leaves all others as they were.
  lemma WriteKeepsOthers(s: State, t: Token, ttl: int, now: int, j: int, get: int)
    requires Coherent(s) && j in s.table && j != t.id
    requires if t.id in s.table then s.table[t.id].hash == t.hash else Unused(s.table, t.hash)
    ensures Answer(Put(s, t, ttl, now), s.table[j].hash, get) == Answer(s, s.table[j].hash, get)
  {
    var s' := Put(s, t, ttl, now);
    if CacheKey(s.table[j].hash) == CacheKey(t.hash) {
      CacheKeyInjective(s.table[j].hash, t.hash);
    }
    SameAnswer(s, s', j, get);
  }

  // An update saves what the change makes of the row: under the key that this has, or, if it has none,
  // under the new one.
  lemma UpdateSaves(s: State, ttl: int, hash: seq<byte>, change: Token -> Token, stamp: int, newId: int, at: int, i: int)
    requires Proper(s.table) && i in s.table && s.table[i].hash == hash
    ensures var t := change(s.table[i]);
            var key := if t.id != 0 then t.id else newId;
            After(s, ttl, Update(ZeroToken(), change, OwnHash(hash), stamp, newId, at)).table ==
            s.table[key := t.(id := key, updatedAt := stamp)]
  {
    FirstIsOwn(s.table, ByHash(hash), OwnHash(hash), i);
    assert Selected(s.table, ZeroToken(), OwnHash(hash)) == Selected(s.table, ByHash(hash), OwnHash(hash));
  }
}
