/** When a removal from the token table is final, with any number of callers: after its eviction a call
    that took the row before may still put it back into the cache. */
module ConcurrentDeletes {
  import opened Tokens
  import opened ConcurrentTokens
  import M = ConcurrentTTL

  type PC = M.PC<string, Copy>

  // The call has a copy of the row for h that it has yet to write, or a Get has just loaded one.
  predicate PendingCall(c: Caller, pc: PC, h: Hash) {
    || ((c.Adding? || c.AddingMissed? || c.Setting?) && c.h == h && !pc.StoreClock? && !pc.StoreDeadline? && !pc.Hit?)
    || ReadsBack(c, pc, h)
  }

  predicate ReadsBack(c: Caller, pc: PC, h: Hash) {
    c == Getting(h) && pc.Hit?
  }

  ghost predicate Pending(s: State, t: int, h: Hash) {
    t in s.callers && t in s.cells.threads && PendingCall(s.callers[t], s.cells.threads[t], h)
  }

  // Neither the table nor the map has the row, and nobody is about to write it.
  ghost predicate Settled(s: State, h: Hash) {
    h !in s.table && CacheKey(h) !in s.cells.data && forall t :: !Pending(s, t, h)
  }

  /******* Without such a call the removal is final *******/

  lemma OwnerOfKey(ttl: int, b: seq<State>, i: nat, t: int, h: Hash)
    requires Behaviour(ttl, b) && i < |b| && t in b[i].cells.threads
    requires b[i].cells.threads[t].StoreValue? && b[i].cells.threads[t].k == CacheKey(h)
    ensures Pending(b[i], t, h)
  {
    StoreInFlight(ttl, b, i, t);
    CacheKeyInjective(b[i].callers[t].h, h);
  }

  lemma ActorStaysSettled(ttl: int, b: seq<State>, i: nat, t: int, h: Hash)
    requires i + 1 < |b| && CallerStep(ttl, b[i], b[i + 1], t) && Settled(b[i], h) && h !in b[i + 1].table
    requires CallerOk(b, i, b[i].callers[t], b[i].cells.threads[t])
    ensures !Pending(b[i + 1], t, h)
  {
    assert !Pending(b[i], t, h);
  }

  lemma StepStaysSettled(ttl: int, b: seq<State>, i: nat, h: Hash)
    requires Behaviour(ttl, b) && i + 1 < |b| && Settled(b[i], h) && h !in b[i + 1].table
    ensures Settled(b[i + 1], h)
  {
    var s, s' := b[i], b[i + 1];
    assert StepAt(ttl, b, i);
    BehaviourInv(ttl, b, i);
    var t :| CallerStep(ttl, s, s', t);
    ActorStaysSettled(ttl, b, i, t, h);
    forall u ensures !Pending(s', u, h) {
      if u != t {
        assert !Pending(s, u, h);
      }
    }
    if M.ThreadStep(s.cells, s'.cells, t) {
      M.ActsOnMaps(s.cells, s'.cells, s.cells.threads[t], s'.cells.threads[t]);
      if CacheKey(h) in s'.cells.data {
        OwnerOfKey(ttl, b, i, t, h);
      }
    }
  }

  lemma {:induction false} StaysSettled(ttl: int, b: seq<State>, i: nat, j: nat, h: Hash)
    requires Behaviour(ttl, b) && i <= j < |b| && Settled(b[i], h)
    requires forall k :: i <= k <= j ==> h !in b[k].table
    ensures Settled(b[j], h)
    decreases j
  {
    if i < j {
      StaysSettled(ttl, b, i, j - 1, h);
      StepStaysSettled(ttl, b, j - 1, h);
    }
  }

  /******* With such a call the row can come back *******/

  ghost function Moved(s: State, t: int, data: map<string, M.Written<Copy>>, exp: map<string, M.Deadline>, pc: PC,
                       c: Caller, now: int): State {
    State(M.State(data, exp, s.cells.threads[t := pc], s.cells.step + 1, now), s.table, s.callers[t := c])
  }

  ghost function Spoken(s: State, t: int, table: map<Hash, Token>, c: Caller): State {
    State(s.cells.(step := s.cells.step + 1), table, s.callers[t := c])
  }

  ghost function Last(b: seq<State>): State
    requires b != []
  {
    b[|b| - 1]
  }

  lemma Extend(ttl: int, b: seq<State>, t: int, s': State)
    requires Behaviour(ttl, b) && CallerStep(ttl, Last(b), s', t)
    ensures Behaviour(ttl, b + [s'])
  {
    var b' := b + [s'];
    forall i: nat | i + 1 < |b'| ensures StepAt(ttl, b', i) {
      if i + 1 < |b| {
        assert StepAt(ttl, b, i);
      }
    }
  }

  lemma Go(ttl: int, b: seq<State>, t: int, data: map<string, M.Written<Copy>>, exp: map<string, M.Deadline>, pc: PC,
           c: Caller, now: int) returns (b': seq<State>)
    requires Behaviour(ttl, b) && t in Last(b).callers && t in Last(b).cells.threads && Last(b).cells.now <= now
    requires M.Acts(Last(b).cells, Moved(Last(b), t, data, exp, pc, c, now).cells, Last(b).cells.threads[t], pc)
    requires CacheStep(ttl, Last(b).cells.threads[t], pc, Last(b).callers[t], c)
    ensures b' == b + [Moved(Last(b), t, data, exp, pc, c, now)] && Continues(ttl, b, b')
  {
    var s, s' := Last(b), Moved(Last(b), t, data, exp, pc, c, now);
    assert s'.callers[t] == c && s'.cells.threads[t] == pc;
    assert M.ThreadStep(s.cells, s'.cells, t);
    Extend(ttl, b, t, s');
    b' := b + [s'];
  }

  lemma Say(ttl: int, b: seq<State>, t: int, table: map<Hash, Token>, c: Caller) returns (b': seq<State>)
    requires Behaviour(ttl, b) && t in Last(b).callers && t in Last(b).cells.threads && Last(b).cells.threads[t].Idle?
    requires Statement(Last(b), Spoken(Last(b), t, table, c), Last(b).callers[t], c)
    ensures b' == b + [Spoken(Last(b), t, table, c)] && Behaviour(ttl, b')
  {
    var s, s' := Last(b), Spoken(Last(b), t, table, c);
    assert s'.callers[t] == c;
    Extend(ttl, b, t, s');
    b' := b + [s'];
  }

  // What is done after b leaves the table alone.
  ghost predicate Continues(ttl: int, b: seq<State>, b': seq<State>) {
    Behaviour(ttl, b') && b != [] && b <= b' && forall k :: |b| - 1 <= k < |b'| ==> b'[k].table == Last(b).table
  }

  lemma Further(ttl: int, b: seq<State>, b': seq<State>, b'': seq<State>)
    requires Continues(ttl, b, b') && Continues(ttl, b', b'')
    ensures Continues(ttl, b, b'')
  {
    assert Last(b').table == Last(b).table;
    forall k | |b| - 1 <= k < |b''| ensures b''[k].table == Last(b).table {
      if k < |b'| - 1 {
        assert b''[k] == b'[k];
      }
    }
  }

  function Rank(pc: PC): nat {
    match pc
    case Idle => 6
    case LoadDeadline(_) => 5
    case LoadClock(_, _) => 4
    case LoadValue(_, _, _) => 3
    case LoadDropValue(_) => 3
    case LoadDropDeadline(_) => 2
    case _ => 1
  }

  // Thread t is in this call, at this place of the map's code.
  ghost predicate In(s: State, t: int, c: Caller, pc: PC) {
    t in s.callers && t in s.cells.threads && s.callers[t] == c && s.cells.threads[t] == pc
  }

  ghost predicate Missing(s: State, t: int, h: Hash, x: Copy) {
    && t in s.callers && t in s.cells.threads && s.callers[t] == Adding(h, x) && CacheKey(h) !in s.cells.data
    && (s.cells.threads[t].Idle? || Loads(s.cells.threads[t], CacheKey(h))) && !s.cells.threads[t].Hit?
  }

  // A Get has this copy in its hands, under a deadline that it checked at this moment.
  ghost predicate Has(s: State, t: int, h: Hash, at: int, x: Copy) {
    && t in s.callers && t in s.cells.threads && ReadsBack(s.callers[t], s.cells.threads[t], h)
    && s.cells.threads[t].check == at && s.cells.threads[t].got.v == x
  }

  // The next place in a load under a key without a value, and what is left of the two maps.
  function MissPC(m: M.State<string, Copy>, pc: PC, key: string): PC {
    match pc
    case LoadDeadline(_) => if key in m.exp then M.LoadClock(key, m.exp[key]) else M.Missed(key)
    case LoadClock(_, d) => if m.now > d.at then M.LoadDropValue(key) else M.LoadValue(key, d, m.now)
    case LoadDropValue(_) => M.LoadDropDeadline(key)
    case Idle => M.LoadDeadline(key)
    case Missed(_) => M.Idle
    case _ => M.Missed(key)
  }

  function MissData(m: M.State<string, Copy>, pc: PC, key: string): map<string, M.Written<Copy>> {
    if pc.LoadDropValue? then m.data - {key} else m.data
  }

  function MissExp(m: M.State<string, Copy>, pc: PC, key: string): map<string, M.Deadline> {
    if pc.LoadDropDeadline? then m.exp - {key} else m.exp
  }

  // One step of the load inside a SetNX, under a key without a value.
  lemma MissStep(ttl: int, b: seq<State>, t: int, h: Hash, x: Copy) returns (b': seq<State>)
    requires Behaviour(ttl, b) && Missing(Last(b), t, h, x)
    ensures Continues(ttl, b, b') && Last(b').cells.now == Last(b).cells.now
    ensures if Last(b).cells.threads[t].Missed? then In(Last(b'), t, AddingMissed(h, x), M.Idle)
            else Missing(Last(b'), t, h, x) && Rank(Last(b').cells.threads[t]) < Rank(Last(b).cells.threads[t])
  {
    var m, key := Last(b).cells, CacheKey(h);
    var pc := m.threads[t];
    b' := Go(ttl, b, t, MissData(m, pc, key), MissExp(m, pc, key), MissPC(m, pc, key),
             if pc.Missed? then AddingMissed(h, x) else Adding(h, x), m.now);
  }

  lemma {:induction false} Misses(ttl: int, b: seq<State>, t: int, h: Hash, x: Copy) returns (b': seq<State>)
    requires Behaviour(ttl, b) && Missing(Last(b), t, h, x)
    ensures Continues(ttl, b, b') && Last(b').cells.now == Last(b).cells.now && In(Last(b'), t, AddingMissed(h, x), M.Idle)
    decreases Rank(Last(b).cells.threads[t])
  {
    var b1 := MissStep(ttl, b, t, h, x);
    if Last(b).cells.threads[t].Missed? {
      b' := b1;
    } else {
      b' := Misses(ttl, b1, t, h, x);
      Further(ttl, b, b1, b');
    }
  }

  // A Set, or a SetNX that missed, writes its copy and dates it.
  lemma Writes(ttl: int, b: seq<State>, t: int, c: Caller) returns (b': seq<State>)
    requires Behaviour(ttl, b) && (c.AddingMissed? || c.Setting?)
    requires In(Last(b), t, c, M.StoreValue(CacheKey(c.h), c.copy, ttl))
    ensures Continues(ttl, b, b') && Last(b').cells.now == Last(b).cells.now && In(Last(b'), t, Free, M.Idle)
    ensures var key, m := CacheKey(c.h), Last(b').cells;
            key in m.data && m.data[key].v == c.copy && key in m.exp && m.exp[key].at == m.now + ttl
  {
    var m := Last(b).cells;
    var key, at := CacheKey(c.h), M.Stamp(m.step, m.now);
    var d := M.Deadline(m.now + ttl, ttl, at, m.now);
    var data := m.data[key := M.Written(c.copy, at)];
    var b1 := Go(ttl, b, t, data, m.exp, M.StoreClock(key, c.copy, ttl, at), c, m.now);
    var b2 := Go(ttl, b1, t, data, m.exp, M.StoreDeadline(key, d), c, m.now);
    b' := Go(ttl, b2, t, data, m.exp[key := d], M.Idle, Free, m.now);
    Further(ttl, b, b1, b2);
    Further(ttl, b, b2, b');
  }

  lemma Publishes(ttl: int, b: seq<State>, t: int, c: Caller) returns (b': seq<State>)
    requires Behaviour(ttl, b) && (c.AddingMissed? || c.Setting?)
    requires In(Last(b), t, c, M.Idle) || In(Last(b), t, c, M.StoreValue(CacheKey(c.h), c.copy, ttl))
    ensures Continues(ttl, b, b') && Last(b').cells.now == Last(b).cells.now && In(Last(b'), t, Free, M.Idle)
    ensures var key, m := CacheKey(c.h), Last(b').cells;
            key in m.data && m.data[key].v == c.copy && key in m.exp && m.exp[key].at == m.now + ttl
  {
    if In(Last(b), t, c, M.Idle) {
      var m := Last(b).cells;
      var b1 := Go(ttl, b, t, m.data, m.exp, M.StoreValue(CacheKey(c.h), c.copy, ttl), c, m.now);
      b' := Writes(ttl, b1, t, c);
      Further(ttl, b, b1, b');
    } else {
      b' := Writes(ttl, b, t, c);
    }
  }

  // A Get of a live entry is a hit.
  lemma Reads(ttl: int, b: seq<State>, t: int, h: Hash, at: int) returns (b': seq<State>)
    requires Behaviour(ttl, b) && In(Last(b), t, Free, M.Idle) && Last(b).cells.now <= at
    requires CacheKey(h) in Last(b).cells.data && CacheKey(h) in Last(b).cells.exp && at <= Last(b).cells.exp[CacheKey(h)].at
    ensures Continues(ttl, b, b') && Has(Last(b'), t, h, at, Last(b).cells.data[CacheKey(h)].v)
  {
    var m, key := Last(b).cells, CacheKey(h);
    var d := m.exp[key];
    var b1 := Go(ttl, b, t, m.data, m.exp, M.LoadDeadline(key), Getting(h), at);
    var b2 := Go(ttl, b1, t, m.data, m.exp, M.LoadClock(key, d), Getting(h), at);
    var b3 := Go(ttl, b2, t, m.data, m.exp, M.LoadValue(key, d, at), Getting(h), at);
    b' := Go(ttl, b3, t, m.data, m.exp, M.Hit(key, d, at, m.data[key]), Getting(h), at);
    Further(ttl, b, b1, b2);
    Further(ttl, b, b2, b3);
    Further(ttl, b, b3, b');
  }

  // From any reached state with such a call: it writes its copy, and a Get returns it at any moment up
  // to the ttl, though the table is not touched.
  lemma PendingIsReadBack(ttl: int, b: seq<State>, t: int, h: Hash, at: int) returns (b': seq<State>)
    requires Behaviour(ttl, b) && Pending(Last(b), t, h) && CacheKey(h) !in Last(b).cells.data
    requires !ReadsBack(Last(b).callers[t], Last(b).cells.threads[t], h)
    requires Last(b).cells.now <= at <= Last(b).cells.now + ttl
    ensures Continues(ttl, b, b') && Has(Last(b'), t, h, at, Last(b).callers[t].copy)
  {
    BehaviourInv(ttl, b, |b| - 1);
    StoresAreOwned(ttl, b, |b| - 1, t);
    var c, pc := Last(b).callers[t], Last(b).cells.threads[t];
    assert ThreadOk(ttl, b, |b| - 1, pc) && CallerOk(b, |b| - 1, c, pc);
    b' := b;
    if c.Adding? {
      b' := Misses(ttl, b, t, h, c.copy);
      c := AddingMissed(h, c.copy);
    }
    var b1 := Publishes(ttl, b', t, c);
    Further(ttl, b, b', b1);
    b' := Reads(ttl, b1, t, h, at);
    Further(ttl, b, b1, b');
  }

  /******* Exactly when *******/

  // Some continuation, in which the table never has the row again, ends in a Get that returns it.
  ghost predicate ComesBack(ttl: int, b: seq<State>, b': seq<State>, t: int, h: Hash) {
    && Behaviour(ttl, b') && b != [] && b <= b' && (forall k :: |b| - 1 <= k < |b'| ==> h !in b'[k].table)
    && t in Last(b').callers && t in Last(b').cells.threads
    && ReadsBack(Last(b').callers[t], Last(b').cells.threads[t], h)
  }

  // Once a removed row is out of the table and of the map, it can come back exactly if a call has yet
  // to write it, or a Get has it already.
  lemma RemovalFinalIff(ttl: int, b: seq<State>, h: Hash)
    requires Behaviour(ttl, b) && 0 <= ttl && h !in Last(b).table && CacheKey(h) !in Last(b).cells.data
    ensures (exists b', t :: ComesBack(ttl, b, b', t, h)) <==> exists t :: Pending(Last(b), t, h)
  {
    if t :| Pending(Last(b), t, h) {
      if ReadsBack(Last(b).callers[t], Last(b).cells.threads[t], h) {
        assert ComesBack(ttl, b, b, t, h);
      } else {
        var b' := PendingIsReadBack(ttl, b, t, h, Last(b).cells.now);
        assert ComesBack(ttl, b, b', t, h);
      }
    } else {
      forall b', t | ComesBack(ttl, b, b', t, h) ensures false {
        assert Last(b) == b'[|b| - 1];
        StaysSettled(ttl, b', |b| - 1, |b'| - 1, h);
        assert Pending(Last(b'), t, h);
      }
    }
  }

  /******* Such a run *******/

  function TwoThreads(table: map<Hash, Token>, pc0: PC, c0: Caller, pc1: PC, c1: Caller, step: nat, now: int): State {
    State(M.State(map[], map[], map[0 := pc0, 1 := pc1], step, now), table, map[0 := c0, 1 := c1])
  }

  lemma Start(ttl: int, table: map<Hash, Token>, now: int) returns (b: seq<State>)
    requires TableOk(table)
    ensures Behaviour(ttl, b) && Last(b) == TwoThreads(table, M.Idle, Free, M.Idle, Free, 0, now)
  {
    b := [TwoThreads(table, M.Idle, Free, M.Idle, Free, 0, now)];
    assert Init(b[0]);
  }

  lemma TwoMoved(table: map<Hash, Token>, pc0: PC, c0: Caller, pc1: PC, c1: Caller, pc: PC, c: Caller, step: nat, now: int)
    ensures var two := TwoThreads(table, pc0, c0, pc1, c1, step, now);
            && Moved(two, 0, map[], map[], pc, c, now) == TwoThreads(table, pc, c, pc1, c1, step + 1, now)
            && Moved(two, 1, map[], map[], pc, c, now) == TwoThreads(table, pc0, c0, pc, c, step + 1, now)
  {
    TwoUpdated(pc0, pc1, pc);
    TwoUpdated(c0, c1, c);
  }

  lemma TwoUpdated<X>(x: X, y: X, z: X)
    ensures map[0 := x, 1 := y][0 := z] == map[0 := z, 1 := y] && map[0 := x, 1 := y][1 := z] == map[0 := x, 1 := z]
  {
  }

  // A step of thread 0 that leaves both maps empty.
  lemma Move0(ttl: int, b: seq<State>, table: map<Hash, Token>, pc: PC, c: Caller, pc': PC, c': Caller, step: nat,
              now: int) returns (b': seq<State>)
    requires Behaviour(ttl, b) && Last(b) == TwoThreads(table, pc, c, M.Idle, Free, step, now)
    requires M.Acts(TwoThreads(table, pc, c, M.Idle, Free, step, now).cells,
                    TwoThreads(table, pc', c', M.Idle, Free, step + 1, now).cells, pc, pc')
    requires CacheStep(ttl, pc, pc', c, c')
    ensures Behaviour(ttl, b') && Last(b') == TwoThreads(table, pc', c', M.Idle, Free, step + 1, now)
  {
    TwoMoved(table, pc, c, M.Idle, Free, pc', c', step, now);
    b' := Go(ttl, b, 0, map[], map[], pc', c', now);
  }

  lemma Move1(ttl: int, b: seq<State>, c0: Caller, pc: PC, c: Caller, pc': PC, c': Caller, step: nat, now: int)
    returns (b': seq<State>)
    requires Behaviour(ttl, b) && Last(b) == TwoThreads(map[], M.Idle, c0, pc, c, step, now)
    requires M.Acts(TwoThreads(map[], M.Idle, c0, pc, c, step, now).cells,
                    TwoThreads(map[], M.Idle, c0, pc', c', step + 1, now).cells, pc, pc')
    requires CacheStep(ttl, pc, pc', c, c')
    ensures Behaviour(ttl, b') && Last(b') == TwoThreads(map[], M.Idle, c0, pc', c', step + 1, now)
  {
    TwoMoved(map[], M.Idle, c0, pc, c, pc', c', step, now);
    b' := Go(ttl, b, 1, map[], map[], pc', c', now);
  }

  lemma GetMisses(ttl: int, b: seq<State>, table: map<Hash, Token>, h: Hash, now: int) returns (b': seq<State>)
    requires Behaviour(ttl, b) && Last(b) == TwoThreads(table, M.Idle, Free, M.Idle, Free, 0, now)
    ensures Behaviour(ttl, b') && Last(b') == TwoThreads(table, M.Idle, Fetching(h), M.Idle, Free, 3, now)
  {
    var key := CacheKey(h);
    var b1 := Move0(ttl, b, table, M.Idle, Free, M.LoadDeadline(key), Getting(h), 0, now);
    var b2 := Move0(ttl, b1, table, M.LoadDeadline(key), Getting(h), M.Missed(key), Getting(h), 1, now);
    b' := Move0(ttl, b2, table, M.Missed(key), Getting(h), M.Idle, Fetching(h), 2, now);
  }

  // Thread 0 misses the cache and reads the row.
  lemma ReaderFetches(ttl: int, row: Token, now: int) returns (b: seq<State>)
    ensures Behaviour(ttl, b)
    ensures Last(b) == TwoThreads(map[row.hash := row], M.Idle, Adding(row.hash, Copy(row, M.Stamp(3, now))),
                                  M.Idle, Free, 4, now)
  {
    var table, c := map[row.hash := row], Adding(row.hash, Copy(row, M.Stamp(3, now)));
    b := Start(ttl, table, now);
    b := GetMisses(ttl, b, table, row.hash, now);
    b := Say(ttl, b, 0, table, c);
    assert Last(b) == TwoThreads(table, M.Idle, c, M.Idle, Free, 4, now);
  }

  // Thread 1 evicts the key, step by step.
  lemma Evicts(ttl: int, b: seq<State>, h: Hash, c: Caller, now: int) returns (b': seq<State>)
    requires Behaviour(ttl, b) && Last(b) == TwoThreads(map[], M.Idle, c, M.Idle, Evicting({h}), 5, now)
    ensures Behaviour(ttl, b') && Last(b') == TwoThreads(map[], M.Idle, c, M.Idle, Evicting({}), 8, now)
  {
    var key := CacheKey(h);
    assert {h} - {h} == {};
    var b1 := Move1(ttl, b, c, M.Idle, Evicting({h}), M.DeleteValue(key), Evicting({}), 5, now);
    var b2 := Move1(ttl, b1, c, M.DeleteValue(key), Evicting({}), M.DeleteDeadline(key), Evicting({}), 6, now);
    b' := Move1(ttl, b2, c, M.DeleteDeadline(key), Evicting({}), M.Idle, Evicting({}), 7, now);
  }

  // Thread 1 removes the row, evicts its key, and is done.
  lemma RemoverEvicts(ttl: int, b: seq<State>, row: Token, c: Caller, now: int) returns (b': seq<State>)
    requires Behaviour(ttl, b) && Last(b) == TwoThreads(map[row.hash := row], M.Idle, c, M.Idle, Free, 4, now)
    ensures Behaviour(ttl, b') && Last(b') == TwoThreads(map[], M.Idle, c, M.Idle, Free, 9, now)
  {
    b' := Say(ttl, b, 1, map[], Evicting({row.hash}));
    assert Last(b') == TwoThreads(map[], M.Idle, c, M.Idle, Evicting({row.hash}), 5, now);
    b' := Evicts(ttl, b', row.hash, c, now);
    b' := Say(ttl, b', 1, map[], Free);
    assert Last(b') == TwoThreads(map[], M.Idle, c, M.Idle, Free, 9, now);
  }

  // Thread 0 then puts the row back, and a Get returns it at any moment up to the ttl.
  lemma RemovedRowIsReadBack(ttl: int, row: Token, now: int, at: int) returns (b: seq<State>, b': seq<State>)
    requires now <= at <= now + ttl
    ensures Continues(ttl, b, b') && In(Last(b), 1, Free, M.Idle) && Last(b).table == map[]
    ensures exists x: Copy :: x.row == row && Has(Last(b'), 0, row.hash, at, x)
  {
    var x := Copy(row, M.Stamp(3, now));
    var fetched := ReaderFetches(ttl, row, now);
    b := RemoverEvicts(ttl, fetched, row, Adding(row.hash, x), now);
    b' := PendingIsReadBack(ttl, b, 0, row.hash, at);
    assert Has(Last(b'), 0, row.hash, at, x);
  }
}
