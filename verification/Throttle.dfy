/** The throttle on extending a token: a LoadOrStore in a map with expiry decides whether the token
    store is updated.  Every call renews the deadline, so only a sweep opens the gate again. */
module Throttle {
  import opened Options
  import opened Tokens
  import opened TTLMaps
  import T = TokenTable
  import C = TokenCache
  import V = TokenCoherence

  const TEN_MINUTES := 600_000_000_000

  function Expiring(at: int): Token -> Token {
    (t: Token) => t.(expiredAt := at)
  }

  // The row with this hash, if there is one, gets the new expiry, and so does its cache entry.
  ghost predicate Extended(s: C.State, s': C.State, hash: seq<byte>, expire: int, ttl: int, stamp: int, newId: int,
                           now: int, r: T.Reply<()>) {
    var row := T.First(s.table, V.ZeroToken(), V.OwnHash(hash));
    match r
    case Failed => s' == s
    case NotFound => s' == s && row == None
    case Done(_) => row.Some? && s' == C.Put(s, T.Changed(row.value, Expiring(expire), stamp, newId), ttl, now)
  }

  class Core {
    const data: TTLMap<string, ()>
    const store: C.Store
    const sha256: string -> seq<byte>

    constructor (store: C.Store, sha256: string -> seq<byte>)
      ensures fresh(data) && data.Contents() == State(map[], map[])
      ensures this.store == store && this.sha256 == sha256
    {
      data := new TTLMap<string, ()>();
      this.store, this.sha256 := store, sha256;
    }

    // The row cannot be read, or, if it is there, not be saved.
    ghost predicate UpdateFails(hash: seq<byte>, readFails: bool, saveFails: bool)
      reads store.db
    {
      readFails || (saveFails && T.First(store.db.rows, V.ZeroToken(), V.OwnHash(hash)).Some?)
    }

    method DelayToken(token: string, expire: int, now: int, stamp: int, newId: int, cached: int,
                      readFails: bool, saveFails: bool) returns (r: T.Reply<()>)
      requires newId !in store.db.rows
      modifies data, store.db, store.cache.m
      ensures data.Contents() == AfterLoadOrStore(old(data.Contents()), token, (), TEN_MINUTES, now)
      ensures if token in old(data.data) then r == T.Done(()) && store.Contents() == old(store.Contents())
              else Extended(old(store.Contents()), store.Contents(), sha256(token), expire, store.cache.ttl, stamp,
                            newId, cached, r)
      ensures r.Failed? <==> token !in old(data.data) && old(UpdateFails(sha256(token), readFails, saveFails))
    {
      var v, exist := data.LoadOrStore(token, (), TEN_MINUTES, now);
      if exist {
        return T.Done(());
      }
      r := DelayTokenNow(token, expire, stamp, newId, cached, readFails, saveFails);
    }

    method DelayTokenNow(token: string, expire: int, stamp: int, newId: int, cached: int,
                      readFails: bool, saveFails: bool) returns (r: T.Reply<()>)
      requires newId !in store.db.rows
      modifies store.db, store.cache.m
      ensures Extended(old(store.Contents()), store.Contents(), sha256(token), expire, store.cache.ttl, stamp, newId,
                       cached, r)
      ensures r.Failed? <==> old(UpdateFails(sha256(token), readFails, saveFails))
    {
      var saved := store.Update(V.ZeroToken(), Expiring(expire), V.OwnHash(sha256(token)), stamp, newId, cached,
                                readFails, saveFails);
      return match saved case Done(_) => T.Done(()) case NotFound => T.NotFound case Failed => T.Failed;
    }
  }

  // One record is the other, but for its expiry and the time of its last update.
  predicate SameBut(a: Token, b: Token) {
    && a.id == b.id && a.userID == b.userID && a.scope == b.scope && a.hash == b.hash
    && a.createdAt == b.createdAt && a.reason == b.reason
  }

  // An extension changes that row's expiry and nothing else, and keeps the cache coherent;
  // the token is then accepted up to the new expiry, on its whole second while its entry is cached.
  lemma ExtendedIsAccepted(s: C.State, s': C.State, hash: seq<byte>, expire: int, ttl: int, stamp: int, newId: int,
                           cached: int, get: int, now: int)
    requires V.Coherent(s) && 0 !in s.table && hash != []
    requires Extended(s, s', hash, expire, ttl, stamp, newId, cached, T.Done(()))
    ensures V.Coherent(s')
    ensures var row := T.First(s.table, V.ZeroToken(), V.OwnHash(hash)).value;
            && s'.table.Keys == s.table.Keys && row.id in s.table
            && SameBut(s.table[row.id], s'.table[row.id])
            && s'.table[row.id].expiredAt == expire && s'.table[row.id].updatedAt == stamp
            && forall j :: j in s.table && j != row.id ==> s'.table[j] == s.table[j]
    ensures var verdict := V.Judge(C.AnswerGet(s', V.ByHash(hash), V.OwnHash(hash), get), now);
            verdict == V.Accepted <==> now <= if get <= cached + ttl then TimeImage(expire) else expire
  {
    var row := T.First(s.table, V.ZeroToken(), V.OwnHash(hash)).value;
    var saved := T.Changed(row, Expiring(expire), stamp, newId);
    var i :| i in T.Selected(s.table, V.ZeroToken(), V.OwnHash(hash)) && row == s.table[i];
    V.WriteIsReadBack(s, saved, ttl, cached, get);
  }

  /******* Runs: calls and sweeps on a clock that does not go back *******/

  type Gate = State<string, ()>

  function Delay(token: string): Op<string, ()> {
    LoadOrStore(token, (), TEN_MINUTES)
  }

  ghost predicate Run(run: seq<Event<string, ()>>) {
    && (forall i :: 0 <= i < |run| ==> run[i].op.Sweep? || IsCall(run[i]))
    && (forall i, j :: 0 <= i <= j < |run| ==> run[i].now <= run[j].now)
  }

  predicate IsCall(e: Event<string, ()>) {
    e.op.LoadOrStore? && e.op == Delay(e.op.k)
  }

  predicate Calls(run: seq<Event<string, ()>>, i: nat, token: string)
    requires i < |run|
  {
    run[i].op == Delay(token)
  }

  function Before(run: seq<Event<string, ()>>, i: nat): Gate
    requires i <= |run|
  {
    if i == 0 then State(map[], map[]) else Step(Before(run, i - 1), run[i - 1])
  }

  // The call at i reaches the token store.
  predicate Updates(run: seq<Event<string, ()>>, i: nat, token: string)
    requires i < |run|
  {
    Calls(run, i, token) && token !in Before(run, i).data
  }

  ghost predicate NoCallBetween(run: seq<Event<string, ()>>, p: int, i: nat, token: string)
    requires -1 <= p < i <= |run|
  {
    forall j :: p < j < i ==> !Calls(run, j, token)
  }

  // A sweep after the call at p, and late enough to find its deadline passed.
  ghost predicate SweptLate(run: seq<Event<string, ()>>, p: nat, i: nat)
    requires p < i <= |run|
  {
    exists m :: p < m < i && run[m].op.Sweep? && run[m].now > run[p].now + TEN_MINUTES
  }

  lemma {:induction false} NeverCalled(run: seq<Event<string, ()>>, i: nat, token: string)
    requires Run(run) && i <= |run| && NoCallBetween(run, -1, i, token)
    ensures token !in Before(run, i).data && token !in Before(run, i).exp
  {
    if i > 0 {
      NeverCalled(run, i - 1, token);
      assert !Calls(run, i - 1, token);
    }
  }

  lemma {:induction false} HeldUntilSwept(run: seq<Event<string, ()>>, p: nat, i: nat, token: string)
    requires Run(run) && p < i <= |run| && Calls(run, p, token) && NoCallBetween(run, p, i, token)
    ensures token in Before(run, i).data <==> !SweptLate(run, p, i)
    ensures token in Before(run, i).exp <==> !SweptLate(run, p, i)
    ensures token in Before(run, i).exp ==> Before(run, i).exp[token] == run[p].now + TEN_MINUTES
    decreases i
  {
    if p < i - 1 {
      HeldUntilSwept(run, p, i - 1, token);
      var e := run[i - 1];
      assert !Calls(run, i - 1, token);
      assert SweptLate(run, p, i) <==> SweptLate(run, p, i - 1) || (e.op.Sweep? && e.now > run[p].now + TEN_MINUTES);
    }
  }

  // A later call updates the store exactly when a sweep came after the previous call's deadline.
  lemma UpdatesIffSwept(run: seq<Event<string, ()>>, p: nat, i: nat, token: string)
    requires Run(run) && p < i < |run| && Calls(run, p, token) && Calls(run, i, token)
    requires NoCallBetween(run, p, i, token)
    ensures Updates(run, i, token) <==> SweptLate(run, p, i)
  {
    HeldUntilSwept(run, p, i, token);
  }

  lemma FirstCallUpdates(run: seq<Event<string, ()>>, i: nat, token: string)
    requires Run(run) && i < |run| && Calls(run, i, token) && NoCallBetween(run, -1, i, token)
    ensures Updates(run, i, token)
  {
    NeverCalled(run, i, token);
  }

  // Within ten minutes of the previous call, whether that one updated or was suppressed.
  lemma CloseCallIsSuppressed(run: seq<Event<string, ()>>, p: nat, i: nat, token: string)
    requires Run(run) && p < i < |run| && Calls(run, p, token) && Calls(run, i, token)
    requires NoCallBetween(run, p, i, token) && run[i].now <= run[p].now + 10 * 60 * 1_000_000_000
    ensures !Updates(run, i, token)
  {
    UpdatesIffSwept(run, p, i, token);
  }

  // The last call before i, from j on.
  lemma {:induction false} PreviousCall(run: seq<Event<string, ()>>, j: nat, i: nat, token: string) returns (p: nat)
    requires j < i <= |run| && Calls(run, j, token)
    ensures j <= p < i && Calls(run, p, token) && NoCallBetween(run, p, i, token)
    decreases i
  {
    if Calls(run, i - 1, token) {
      p := i - 1;
    } else {
      p := PreviousCall(run, j, i - 1, token);
    }
  }

  lemma UpdatesAreApart(run: seq<Event<string, ()>>, j: nat, i: nat, token: string)
    requires Run(run) && j < i < |run| && Updates(run, j, token) && Updates(run, i, token)
    ensures run[i].now > run[j].now + 10 * 60 * 1_000_000_000
  {
    var p := PreviousCall(run, j, i, token);
    if run[i].now <= run[p].now + TEN_MINUTES {
      CloseCallIsSuppressed(run, p, i, token);
    }
  }

  // A chain of calls, each close to the one before it, updates only at its first call.
  lemma ChainUpdatesOnce(run: seq<Event<string, ()>>, i: nat, token: string)
    requires Run(run) && i < |run| && Calls(run, i, token)
    requires forall p, j | 0 <= p < j <= i && Calls(run, p, token) && Calls(run, j, token) ::
               NoCallBetween(run, p, j, token) ==> run[j].now <= run[p].now + TEN_MINUTES
    ensures Updates(run, i, token) <==> NoCallBetween(run, -1, i, token)
  {
    if NoCallBetween(run, -1, i, token) {
      FirstCallUpdates(run, i, token);
    } else {
      var j :| 0 <= j < i && Calls(run, j, token);
      var p := PreviousCall(run, j, i, token);
      CloseCallIsSuppressed(run, p, i, token);
    }
  }

  // The updates among the first n events, at times from lo to hi.
  function Updated(run: seq<Event<string, ()>>, n: nat, token: string, lo: int, hi: int): (u: seq<nat>)
    requires n <= |run|
    ensures forall k :: 0 <= k < |u| ==> u[k] < n && Updates(run, u[k], token) && lo <= run[u[k]].now <= hi
    ensures forall k, l :: 0 <= k < l < |u| ==> u[k] < u[l]
    ensures forall i :: 0 <= i < n && Updates(run, i, token) && lo <= run[i].now <= hi ==> i in u
  {
    if n == 0 then []
    else Updated(run, n - 1, token, lo, hi) +
         if Updates(run, n - 1, token) && lo <= run[n - 1].now <= hi then [n - 1] else []
  }

  lemma {:induction false} UpdatesSpan(run: seq<Event<string, ()>>, u: seq<nat>, k: nat, token: string)
    requires Run(run) && k < |u| && (forall l :: 0 <= l < |u| ==> u[l] < |run| && Updates(run, u[l], token))
    requires forall l, m :: 0 <= l < m < |u| ==> u[l] < u[m]
    ensures run[u[k]].now >= run[u[0]].now + k * TEN_MINUTES
  {
    if k > 0 {
      UpdatesSpan(run, u, k - 1, token);
      UpdatesAreApart(run, u[k - 1], u[k], token);
    }
  }

  // In a span of time there is at most one update for each ten minutes, and one more.
  lemma UpdateCount(run: seq<Event<string, ()>>, token: string, lo: int, span: nat)
    requires Run(run)
    ensures |Updated(run, |run|, token, lo, lo + span)| <= span / TEN_MINUTES + 1
  {
    var u := Updated(run, |run|, token, lo, lo + span);
    if u != [] {
      UpdatesSpan(run, u, |u| - 1, token);
      assert (|u| - 1) * TEN_MINUTES <= span;
    }
  }

  // Ten minutes alone do not open the gate: a call an hour later is suppressed if nothing was swept.
  lemma UnsweptCallIsSuppressed()
    ensures var run := [At(0, Delay("t")), At(6 * TEN_MINUTES, Delay("t"))];
            Run(run) && Updates(run, 0, "t") && !Updates(run, 1, "t")
  {
    var run := [At(0, Delay("t")), At(6 * TEN_MINUTES, Delay("t"))];
    FirstCallUpdates(run, 0, "t");
    UpdatesIffSwept(run, 0, 1, "t");
  }
}
