/** The token store with a cache in front of it.  Writes go to the table first and then to the
    cache; a read that misses fills it.  The cache holds the caller's record; a hit copies it out
    through its JSON text, since a stored pointer cannot be assigned to a record directly. */
module TokenCache {
  import opened Options
  import opened Tokens
  import opened TokenTable
  import M = TTLMaps

  type Cached = M.State<string, Token>

  /******* The cache *******/

  function AfterSetNX(c: Cached, key: string, v: Token, ttl: int, load: int, store: int): Cached {
    if M.Found(c, key, load).Some? then M.AfterLoad(c, key, load)
    else M.StoreIn(M.AfterLoad(c, key, load), key, v, ttl, store)
  }

  // A SetNX on a live entry changes neither its value nor its deadline.
  lemma SetNXKeepsLive(c: Cached, key: string, v: Token, ttl: int, load: int, store: int)
    requires key in c.data && M.Live(c, key, load)
    ensures AfterSetNX(c, key, v, ttl, load, store) == c
  {
  }

  function Evicted(c: Cached, keys: set<string>): Cached {
    M.State(c.data - keys, c.exp - keys)
  }

  function KeysOf(hashes: set<string>): set<string> {
    set h | h in hashes :: "TOKEN:" + h
  }

  class TTLCache {
    const m: M.TTLMap<string, Token>
    const ttl: int

    constructor (ttl: int)
      ensures fresh(m) && this.ttl == ttl && m.Contents() == M.State(map[], map[])
    {
      m := new M.TTLMap<string, Token>();
      this.ttl := ttl;
    }

    method Set(key: string, v: Token, now: int)
      modifies m
      ensures m.Contents() == M.StoreIn(old(m.Contents()), key, v, ttl, now)
    {
      m.Store(key, v, ttl, now);
    }

    method Del(key: string)
      modifies m
      ensures m.Contents() == M.Remove(old(m.Contents()), key)
    {
      m.Delete(key);
    }

    method Get(key: string, now: int) returns (r: Option<Token>)
      modifies m
      ensures m.Contents() == M.AfterLoad(old(m.Contents()), key, now)
      ensures r == match M.Found(old(m.Contents()), key, now) case Some(t) => Some(Image(t)) case None => None
    {
      var v := m.Load(key, now);
      return if v.Some? then Some(Image(v.value)) else None;
    }

    method SetNX(key: string, v: Token, load: int, store: int)
      modifies m
      ensures m.Contents() == AfterSetNX(old(m.Contents()), key, v, ttl, load, store)
    {
      var existing := m.Load(key, load);
      if existing.None? {
        m.Store(key, v, ttl, store);
      }
    }
  }

  /******* What each call does to the table and the cache *******/

  datatype State = State(table: Table, cache: Cached)

  function CachedAt(s: State, model: Token, now: int): Option<Token> {
    if model.hash == [] then None else M.Found(s.cache, CacheKey(model.hash), now)
  }

  function Looked(s: State, model: Token, now: int): Cached {
    if model.hash == [] then s.cache else M.AfterLoad(s.cache, CacheKey(model.hash), now)
  }

  // The moments at which a Get reads the clock: its own load, and the load and store of SetNX.
  datatype Clock = Clock(get: int, load: int, store: int)

  ghost function AfterGet(s: State, model: Token, opts: Token -> bool, ttl: int, now: Clock): State {
    var c := Looked(s, model, now.get);
    if CachedAt(s, model, now.get).Some? then State(s.table, c)
    else match First(s.table, model, opts)
      case None => State(s.table, c)
      case Some(t) => State(s.table, AfterSetNX(c, CacheKey(t.hash), t, ttl, now.load, now.store))
  }

  ghost function AnswerGet(s: State, model: Token, opts: Token -> bool, now: int): Reply<Token> {
    match CachedAt(s, model, now)
    case Some(t) => Done(Image(t))
    case None => match First(s.table, model, opts) case Some(t) => Done(t) case None => NotFound
  }

  function Put(s: State, t: Token, ttl: int, now: int): State {
    State(s.table[t.id := t], M.StoreIn(s.cache, CacheKey(t.hash), t, ttl, now))
  }

  // The rows are gone, and so is the entry of the one that was returned into the model.
  function AfterDelete(s: State, gone: set<int>, model: Token): State {
    State(s.table - gone, M.Remove(s.cache, CacheKey(model.hash)))
  }

  function AfterExpire(s: State, rows: set<int>, reason: string, stamp: int): State {
    State(WithReason(s.table, rows, reason, stamp), Evicted(s.cache, KeysOf(HashesOf(s.table, rows))))
  }

  function AfterDeleteAll(s: State, rows: set<int>): State {
    State(s.table - rows, Evicted(s.cache, KeysOf(HashesOf(s.table, rows))))
  }

  class Store {
    const db: TokenDB
    const cache: TTLCache

    constructor (db: TokenDB, cache: TTLCache)
      ensures this.db == db && this.cache == cache
    {
      this.db, this.cache := db, cache;
    }

    function Contents(): State
      reads this, db, cache, cache.m
    {
      State(db.rows, cache.m.Contents())
    }

    // The table is asked only if the cache has nothing live under the model's own hash.
    method Get(model: Token, opts: Token -> bool, now: Clock, fails: bool) returns (r: Reply<Token>)
      modifies cache.m
      ensures r.Failed? <==> fails && old(CachedAt(Contents(), model, now.get)) == None
      ensures !r.Failed? ==> Contents() == old(AfterGet(Contents(), model, opts, cache.ttl, now))
      ensures !r.Failed? ==> r == old(AnswerGet(Contents(), model, opts, now.get))
      ensures r.Failed? ==> Contents() == old(State(db.rows, Looked(Contents(), model, now.get)))
    {
      if model.hash != [] {
        var hit := cache.Get(CacheKey(model.hash), now.get);
        if hit.Some? {
          return Done(hit.value);
        }
      }
      r := db.Get(model, opts, fails);
      if r.Done? {
        cache.SetNX(CacheKey(r.value.hash), r.value, now.load, now.store);
      }
    }

    method Create(model: Token, id: int, now: int, fails: bool) returns (r: Reply<Token>)
      requires id !in db.rows
      modifies db, cache.m
      ensures r == if fails then Failed else Done(model.(id := id))
      ensures Contents() == old(if r.Done? then Put(Contents(), model.(id := id), cache.ttl, now) else Contents())
    {
      r := db.Create(model, id, fails);
      if r.Done? {
        cache.Set(CacheKey(r.value.hash), r.value, now);
      }
    }

    method Update(model: Token, change: Token -> Token, opts: Token -> bool, stamp: int, newId: int, now: int,
                  readFails: bool, saveFails: bool) returns (r: Reply<Token>)
      requires newId !in db.rows
      modifies db, cache.m
      ensures r.Failed? <==> readFails || (saveFails && old(First(db.rows, model, opts)).Some?)
      ensures r.NotFound? <==> !readFails && old(First(db.rows, model, opts)) == None
      ensures !r.Done? ==> Contents() == old(Contents())
      ensures r.Done? ==> old(First(db.rows, model, opts).Some?) &&
                          r.value == Changed(old(First(db.rows, model, opts).value), change, stamp, newId) &&
                          Contents() == old(Put(Contents(), r.value, cache.ttl, now))
    {
      r := db.Update(model, change, opts, stamp, newId, readFails, saveFails);
      if r.Done? {
        cache.Set(CacheKey(r.value.hash), r.value, now);
      }
    }

    // The table fills the model with a row that it removed; the model is left alone if there is none.
    method Delete(model: Token, opts: Token -> bool, fails: bool) returns (r: Reply<Token>)
      modifies db, cache.m
      ensures if fails then r.Failed? && Contents() == old(Contents()) else r.Done?
      ensures r.Done? ==> Contents() == old(AfterDelete(Contents(), Selected(db.rows, model, opts), r.value))
      ensures r.Done? ==> if old(Selected(db.rows, model, opts)) == {} then r.value == model
                          else exists i :: i in old(Selected(db.rows, model, opts)) && r.value == old(db.rows)[i]
    {
      var gone := db.Delete(model, opts, fails);
      if gone.Failed? {
        return Failed;
      }
      var model' := if gone.value.Some? then gone.value.value else model;
      cache.Del(CacheKey(model'.hash));
      return Done(model');
    }

    method Expire(scope: string, userID: string, reason: string, now: int, stamp: int, fails: bool)
      returns (r: Reply<seq<string>>)
      modifies db, cache.m
      ensures if fails then r.Failed? && Contents() == old(Contents()) else r.Done?
      ensures r.Done? ==> Contents() == old(AfterExpire(Contents(), ToExpire(db.rows, scope, userID, now), reason, stamp))
      ensures r.Done? ==> HashesReturned(r.value, old(db.rows), ToExpire(old(db.rows), scope, userID, now))
    {
      r := db.Expire(scope, userID, reason, now, stamp, fails);
      if r.Done? {
        Evict(r.value);
      }
    }

    method DeleteAllForUser(scope: string, userID: string, fails: bool) returns (r: Reply<seq<string>>)
      modifies db, cache.m
      ensures if fails then r.Failed? && Contents() == old(Contents()) else r.Done?
      ensures r.Done? ==> Contents() == old(AfterDeleteAll(Contents(), OfUser(db.rows, scope, userID)))
      ensures r.Done? ==> HashesReturned(r.value, old(db.rows), OfUser(old(db.rows), scope, userID))
    {
      r := db.DeleteAllForUser(scope, userID, fails);
      if r.Done? {
        Evict(r.value);
      }
    }

    method DeleteExpired(before: int, fails: bool) returns (r: Reply<seq<string>>)
      modifies db, cache.m
      ensures if fails then r.Failed? && Contents() == old(Contents()) else r.Done?
      ensures r.Done? ==> Contents() == old(AfterDeleteAll(Contents(), ExpiredBefore(db.rows, before)))
      ensures r.Done? ==> HashesReturned(r.value, old(db.rows), ExpiredBefore(old(db.rows), before))
    {
      r := db.DeleteExpired(before, fails);
      if r.Done? {
        Evict(r.value);
      }
    }

    method Evict(hashes: seq<string>)
      modifies cache.m
      ensures cache.m.Contents() == Evicted(old(cache.m.Contents()), KeysOf(Elements(hashes)))
    {
      for i := 0 to |hashes|
        invariant cache.m.Contents() == Evicted(old(cache.m.Contents()), KeysOf(Elements(hashes[..i])))
      {
        cache.Del("TOKEN:" + hashes[i]);
        assert hashes[..i + 1] == hashes[..i] + [hashes[i]];
        assert Elements(hashes[..i + 1]) == Elements(hashes[..i]) + {hashes[i]};
        assert KeysOf(Elements(hashes[..i + 1])) == KeysOf(Elements(hashes[..i])) + {"TOKEN:" + hashes[i]};
      }
      assert hashes[..|hashes|] == hashes;
    }
  }
}
