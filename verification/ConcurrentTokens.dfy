/** The token cache under any number of callers: each statement on the table, and each step of the
    map with expiry, is taken on its own.  The table is a map from hash to row. */
module ConcurrentTokens {
  import opened Tokens
  import M = ConcurrentTTL

  type Hash = seq<byte>

  // A copy of a row, with the step on the table that read or wrote it.
  datatype Copy = Copy(row: Token, seen: M.Stamp)

  datatype Caller =
    | Free
    | Getting(h: Hash)
    | Fetching(h: Hash)
    | Adding(h: Hash, copy: Copy)
    | AddingMissed(h: Hash, copy: Copy)
    | Setting(h: Hash, copy: Copy)
    | Evicting(hs: set<Hash>)

  type Cells = M.State<string, Copy>

  datatype State = State(cells: Cells, table: map<Hash, Token>, callers: map<int, Caller>)

  ghost predicate TableOk(t: map<Hash, Token>) {
    forall h :: h in t ==> t[h].hash == h
  }

  ghost predicate Init(s: State) {
    && M.Init(s.cells) && TableOk(s.table)
    && s.callers.Keys == s.cells.threads.Keys && (forall t :: t in s.callers ==> s.callers[t] == Free)
  }

  ghost predicate RowAt(t: map<Hash, Token>, c: Caller)
    requires c.Setting? || c.Adding?
  {
    c.h in t && t[c.h] == c.copy.row
  }

  // A statement on the table.  A write publishes the row as it is afterwards, whatever else it changed;
  // a removal or an expiry evicts some keys, not always those of all the rows that it changed; a read
  // finds any row, whether it comes after a miss or never asked the cache, or none.
  ghost predicate Statement(s: State, s': State, c: Caller, c': Caller) {
    var at := M.Stamp(s.cells.step, s.cells.now);
    match c
    case Free =>
      || (c'.Setting? && c'.copy.seen == at && TableOk(s'.table) && RowAt(s'.table, c'))
      || (c'.Evicting? && TableOk(s'.table))
      || (c'.Adding? && c'.copy.seen == at && s'.table == s.table && RowAt(s.table, c'))
    case Fetching(h) =>
      s'.table == s.table && (c' == Free || (c'.Adding? && c'.copy.seen == at && RowAt(s.table, c')))
    case Evicting(hs) => s'.table == s.table && hs == {} && c' == Free
    case _ => false
  }

  // A step of the map, inside a call of the cache.
  ghost predicate CacheStep(ttl: int, pc: M.PC<string, Copy>, pc': M.PC<string, Copy>, c: Caller, c': Caller) {
    if pc.Idle? then
      match c
      case Free =>
        || (c'.Getting? && pc' == M.LoadDeadline(CacheKey(c'.h)))
        || (c' == Free && (pc'.SweepNext? || pc'.ClearValues?))
      case Adding(h, copy) => pc' == M.LoadDeadline(CacheKey(h)) && c' == c
      case AddingMissed(h, copy) => pc' == M.StoreValue(CacheKey(h), copy, ttl) && c' == c
      case Setting(h, copy) => pc' == M.StoreValue(CacheKey(h), copy, ttl) && c' == c
      case Evicting(hs) => pc'.DeleteValue? && exists h :: h in hs && pc'.k == CacheKey(h) && c' == Evicting(hs - {h})
      case _ => false
    else
      match c
      case Getting(h) => c' == if pc.Missed? then Fetching(h) else if pc.Hit? then Free else c
      case Adding(h, copy) => c' == if pc.Missed? then AddingMissed(h, copy) else if pc.Hit? then Free else c
      case AddingMissed(_, _) => c' == if pc.StoreDeadline? then Free else c
      case Setting(_, _) => c' == if pc.StoreDeadline? then Free else c
      case _ => c' == c
  }

  ghost predicate CallerStep(ttl: int, s: State, s': State, t: int) {
    && t in s.callers && t in s'.callers && s'.callers == s.callers[t := s'.callers[t]]
    && t in s.cells.threads && t in s'.cells.threads
    && (|| (s.cells.threads[t].Idle? && M.Pause(s.cells, s'.cells) && Statement(s, s', s.callers[t], s'.callers[t]))
        || (&& M.ThreadStep(s.cells, s'.cells, t) && s'.table == s.table
            && CacheStep(ttl, s.cells.threads[t], s'.cells.threads[t], s.callers[t], s'.callers[t])))
  }

  ghost predicate StepAt(ttl: int, b: seq<State>, i: nat)
    requires i + 1 < |b|
  {
    Next(ttl, b[i], b[i + 1])
  }

  ghost predicate Behaviour(ttl: int, b: seq<State>) {
    && b != [] && Init(b[0])
    && forall i: nat :: i + 1 < |b| ==> StepAt(ttl, b, i)
  }

  ghost predicate Next(ttl: int, s: State, s': State) {
    exists t :: CallerStep(ttl, s, s', t)
  }

  ghost function CellsOf(b: seq<State>): seq<Cells> {
    seq(|b|, i requires 0 <= i < |b| => b[i].cells)
  }

  lemma CellsBehave(ttl: int, b: seq<State>)
    requires Behaviour(ttl, b)
    ensures M.Behaviour(CellsOf(b))
  {
    var m := CellsOf(b);
    forall i: nat | i + 1 < |m| ensures M.StepAt(m, i) {
      assert StepAt(ttl, b, i);
      var s, s' := b[i], b[i + 1];
      var t :| CallerStep(ttl, s, s', t);
      assert m[i] == s.cells && m[i + 1] == s'.cells;
      assert M.Pause(m[i], m[i + 1]) || M.ThreadStep(m[i], m[i + 1], t);
    }
  }

  /******* Every copy was the row once *******/

  // The copy is filed under its own key, and was the row for its hash after that step.
  ghost predicate WasRow(b: seq<State>, i: nat, key: string, x: Copy)
    requires i < |b|
  {
    && key == CacheKey(x.row.hash) && x.seen.step < i && b[x.seen.step].cells.now == x.seen.time
    && x.row.hash in b[x.seen.step + 1].table && b[x.seen.step + 1].table[x.row.hash] == x.row
  }

  ghost predicate ThreadOk(ttl: int, b: seq<State>, i: nat, pc: M.PC<string, Copy>)
    requires i < |b|
  {
    match pc
    case StoreValue(k, v, l) => l == ttl && WasRow(b, i, k, v)
    case StoreClock(k, v, l, _) => l == ttl
    case StoreDeadline(k, d) => d.ttl == ttl
    case LoadClock(k, d) => d.ttl == ttl
    case LoadValue(k, d, _) => d.ttl == ttl
    case Hit(k, d, _, got) => d.ttl == ttl && WasRow(b, i, k, got.v)
    case _ => true
  }

  ghost predicate Loads(pc: M.PC<string, Copy>, key: string) {
    match pc
    case LoadDeadline(k) => k == key
    case LoadClock(k, _) => k == key
    case LoadValue(k, _, _) => k == key
    case LoadDropValue(k) => k == key
    case LoadDropDeadline(k) => k == key
    case Hit(k, _, _, _) => k == key
    case Missed(k) => k == key
    case _ => false
  }

  predicate Stores(pc: M.PC<string, Copy>) {
    pc.StoreValue? || pc.StoreClock? || pc.StoreDeadline?
  }

  ghost predicate CallerOk(b: seq<State>, i: nat, c: Caller, pc: M.PC<string, Copy>)
    requires i < |b|
  {
    match c
    case Getting(h) => Loads(pc, CacheKey(h))
    case Adding(h, x) => WasRow(b, i, CacheKey(h), x) && (pc.Idle? || Loads(pc, CacheKey(h)))
    case AddingMissed(h, x) => WasRow(b, i, CacheKey(h), x) && (pc.Idle? || Stores(pc))
    case Setting(h, x) => WasRow(b, i, CacheKey(h), x) && (pc.Idle? || Stores(pc))
    case _ => true
  }

  // A Set, or a SetNX after its own load missed.
  predicate StoresUnder(c: Caller, key: string) {
    (c.Setting? || c.AddingMissed?) && key == CacheKey(c.h)
  }

  // Each Store of the map is inside such a call, with that call's copy.
  ghost predicate StoreOwned(c: Caller, pc: M.PC<string, Copy>) {
    match pc
    case StoreValue(k, v, _) => StoresUnder(c, k) && c.copy == v
    case StoreClock(k, v, _, _) => StoresUnder(c, k) && c.copy == v
    case StoreDeadline(k, _) => StoresUnder(c, k)
    case _ => true
  }

  ghost predicate CellsOk(ttl: int, b: seq<State>, i: nat)
    requires i < |b|
  {
    && (forall k :: k in b[i].cells.data ==> WasRow(b, i, k, b[i].cells.data[k].v))
    && (forall k :: k in b[i].cells.exp ==> b[i].cells.exp[k].ttl == ttl)
  }

  ghost predicate Inv(ttl: int, b: seq<State>, i: nat)
    requires i < |b|
  {
    && CellsOk(ttl, b, i) && TableOk(b[i].table)
    && b[i].callers.Keys == b[i].cells.threads.Keys
    && (forall t :: t in b[i].callers ==>
          ThreadOk(ttl, b, i, b[i].cells.threads[t]) && CallerOk(b, i, b[i].callers[t], b[i].cells.threads[t]))
  }

  lemma StaysOk(ttl: int, b: seq<State>, i: nat, c: Caller, pc: M.PC<string, Copy>)
    requires i + 1 < |b|
    ensures ThreadOk(ttl, b, i, pc) ==> ThreadOk(ttl, b, i + 1, pc)
    ensures CallerOk(b, i, c, pc) ==> CallerOk(b, i + 1, c, pc)
  {
  }

  lemma StepKeepsCells(ttl: int, b: seq<State>, i: nat, t: int)
    requires i + 1 < |b| && CellsOk(ttl, b, i) && M.ThreadStep(b[i].cells, b[i + 1].cells, t)
    requires ThreadOk(ttl, b, i, b[i].cells.threads[t])
    ensures CellsOk(ttl, b, i + 1)
  {
    var m, m' := b[i].cells, b[i + 1].cells;
    var pc := m.threads[t];
    M.ActsOnMaps(m, m', pc, m'.threads[t]);
    forall k | k in m'.data ensures WasRow(b, i + 1, k, m'.data[k].v) {
      assert WasRow(b, i, k, m'.data[k].v);
    }
    forall k | k in m'.exp ensures m'.exp[k].ttl == ttl {
      assert (k in m.exp && m'.exp[k] == m.exp[k]) || m'.exp[k] == pc.d;
    }
  }

  lemma StepKeepsOthers(ttl: int, b: seq<State>, i: nat, t: int, u: int)
    requires i + 1 < |b| && Inv(ttl, b, i) && CallerStep(ttl, b[i], b[i + 1], t)
    requires u in b[i + 1].callers && u != t
    ensures ThreadOk(ttl, b, i + 1, b[i + 1].cells.threads[u])
    ensures CallerOk(b, i + 1, b[i + 1].callers[u], b[i + 1].cells.threads[u])
  {
    assert b[i + 1].callers[u] == b[i].callers[u] && b[i + 1].cells.threads[u] == b[i].cells.threads[u];
    StaysOk(ttl, b, i, b[i].callers[u], b[i].cells.threads[u]);
  }

  lemma StepKeepsTable(ttl: int, s: State, s': State, t: int)
    requires CallerStep(ttl, s, s', t) && TableOk(s.table)
    ensures TableOk(s'.table)
  {
  }

  lemma StepKeepsInv(ttl: int, b: seq<State>, i: nat, t: int)
    requires i + 1 < |b| && Inv(ttl, b, i) && CallerStep(ttl, b[i], b[i + 1], t) && b[i].cells.step == i
    ensures Inv(ttl, b, i + 1)
  {
    var s, s' := b[i], b[i + 1];
    if M.ThreadStep(s.cells, s'.cells, t) {
      StepKeepsCells(ttl, b, i, t);
      if CacheStep(ttl, s.cells.threads[t], s'.cells.threads[t], s.callers[t], s'.callers[t]) {
        StepKeepsThread(ttl, b, i, s.cells.threads[t], s'.cells.threads[t], s.callers[t], s'.callers[t]);
      }
    } else {
      assert s'.cells.data == s.cells.data && s'.cells.exp == s.cells.exp;
    }
    StepKeepsTable(ttl, s, s', t);
    StepKeepsCaller(ttl, b, i, t);
    forall u | u in s'.callers
      ensures ThreadOk(ttl, b, i + 1, s'.cells.threads[u]) && CallerOk(b, i + 1, s'.callers[u], s'.cells.threads[u])
    {
      if u != t {
        StepKeepsOthers(ttl, b, i, t, u);
      }
    }
  }

  // A thread gets its values from the map, from its caller, or from where it was before.
  lemma StepKeepsThread(ttl: int, b: seq<State>, i: nat, pc: M.PC<string, Copy>, pc': M.PC<string, Copy>,
                        c: Caller, c': Caller)
    requires i + 1 < |b| && CellsOk(ttl, b, i) && ThreadOk(ttl, b, i, pc) && CallerOk(b, i, c, pc)
    requires M.Acts(b[i].cells, b[i + 1].cells, pc, pc') && CacheStep(ttl, pc, pc', c, c')
    ensures ThreadOk(ttl, b, i + 1, pc')
  {
    match pc'
    case StoreValue(k, v, l) => assert pc.Idle? && WasRow(b, i, k, v);
    case StoreClock(k, v, l, _) => assert pc.StoreValue?;
    case StoreDeadline(k, d) => assert pc.StoreClock?;
    case LoadClock(k, d) => assert pc.LoadDeadline?;
    case LoadValue(k, d, _) => assert pc.LoadClock?;
    case Hit(k, d, _, got) => assert pc.LoadValue? && WasRow(b, i, k, got.v);
    case _ =>
  }

  lemma StepKeepsCaller(ttl: int, b: seq<State>, i: nat, t: int)
    requires i + 1 < |b| && Inv(ttl, b, i) && CallerStep(ttl, b[i], b[i + 1], t) && b[i].cells.step == i
    ensures CallerOk(b, i + 1, b[i + 1].callers[t], b[i + 1].cells.threads[t])
  {
    var s, s' := b[i], b[i + 1];
    var pc, c := s.cells.threads[t], s.callers[t];
    assert CallerOk(b, i, c, pc);
    StaysOk(ttl, b, i, c, pc);
  }

  lemma StepIsIndex(ttl: int, b: seq<State>, i: nat)
    requires Behaviour(ttl, b) && i < |b|
    ensures b[i].cells.step == i
  {
    CellsBehave(ttl, b);
    M.BehaviourInv(CellsOf(b), i);
    assert CellsOf(b)[i] == b[i].cells;
  }

  lemma {:induction false} BehaviourInv(ttl: int, b: seq<State>, i: nat)
    requires Behaviour(ttl, b) && i < |b|
    ensures Inv(ttl, b, i)
  {
    if i > 0 {
      BehaviourInv(ttl, b, i - 1);
      StepIsIndex(ttl, b, i - 1);
      var s, s' := b[i - 1], b[i];
      assert StepAt(ttl, b, i - 1);
      var t :| CallerStep(ttl, s, s', t);
      StepKeepsInv(ttl, b, i - 1, t);
    }
  }

  lemma {:induction false} StoresAreOwned(ttl: int, b: seq<State>, i: nat, t: int)
    requires Behaviour(ttl, b) && i < |b| && t in b[i].callers
    ensures t in b[i].cells.threads && StoreOwned(b[i].callers[t], b[i].cells.threads[t])
  {
    BehaviourInv(ttl, b, i);
    if i > 0 {
      assert StepAt(ttl, b, i - 1);
      BehaviourInv(ttl, b, i - 1);
      var u :| CallerStep(ttl, b[i - 1], b[i], u);
      assert b[i].callers.Keys == b[i - 1].callers.Keys;
      StoresAreOwned(ttl, b, i - 1, t);
      if u == t && M.ThreadStep(b[i - 1].cells, b[i].cells, t) {
        OwnerKeepsStore(ttl, b[i - 1], b[i], t);
      }
    }
  }

  lemma OwnerKeepsStore(ttl: int, s: State, s': State, t: int)
    requires CallerStep(ttl, s, s', t) && M.ThreadStep(s.cells, s'.cells, t)
    requires StoreOwned(s.callers[t], s.cells.threads[t])
    ensures StoreOwned(s'.callers[t], s'.cells.threads[t])
  {
  }

  /******* The call that a copy is in *******/

  predicate Holds(c: Caller, x: Copy) {
    (c.Adding? || c.AddingMissed? || c.Setting?) && c.copy == x
  }

  // The statement that read or wrote the row was thread t's own.
  ghost predicate TookCopy(b: seq<State>, t: int, x: Copy) {
    var m := x.seen.step;
    && m + 1 < |b| && t in b[m].callers && t in b[m + 1].callers && x.seen.time == b[m].cells.now
    && Statement(b[m], b[m + 1], b[m].callers[t], b[m + 1].callers[t]) && Holds(b[m + 1].callers[t], x)
  }

  // One call of thread t: it took the copy at its statement on the table, and still holds it at step i.
  ghost predicate InFlight(b: seq<State>, i: nat, t: int, x: Copy)
    requires i < |b|
  {
    && x.seen.step < i && TookCopy(b, t, x)
    && forall j :: x.seen.step < j <= i ==> t in b[j].callers && Holds(b[j].callers[t], x)
  }

  lemma {:induction false} CopyInFlight(ttl: int, b: seq<State>, i: nat, t: int, x: Copy)
    requires Behaviour(ttl, b) && i < |b| && t in b[i].callers && Holds(b[i].callers[t], x)
    ensures InFlight(b, i, t, x)
  {
    if i > 0 {
      assert StepAt(ttl, b, i - 1);
      StepIsIndex(ttl, b, i - 1);
      BehaviourInv(ttl, b, i - 1);
      var u :| CallerStep(ttl, b[i - 1], b[i], u);
      if Holds(b[i - 1].callers[t], x) {
        CopyInFlight(ttl, b, i - 1, t, x);
      } else {
        assert x.seen.step == i - 1 && TookCopy(b, t, x);
      }
    }
  }

  // Each Store of the map is part of a call that took its copy from the table, or wrote it there.
  lemma StoreInFlight(ttl: int, b: seq<State>, i: nat, t: int)
    requires Behaviour(ttl, b) && i < |b| && t in b[i].cells.threads
    requires Stores(b[i].cells.threads[t])
    ensures t in b[i].callers && StoresUnder(b[i].callers[t], b[i].cells.threads[t].k)
    ensures InFlight(b, i, t, b[i].callers[t].copy)
    ensures b[i].cells.threads[t].StoreValue? ==> b[i].callers[t].copy == b[i].cells.threads[t].v
  {
    assert t in b[i].callers by {
      BehaviourInv(ttl, b, i);
    }
    StoresAreOwned(ttl, b, i, t);
    CopyInFlight(ttl, b, i, t, b[i].callers[t].copy);
  }

  // What a Get returns from the cache was the row for its hash, and how old it is.  The map holds it
  // since step w, when the writer, in the call whose statement on the table was step m, wrote it;
  // the deadline that passed the check is the dater's, who in one call wrote its own value at step a
  // and read the clock at step c.  So the row was current no earlier than the check minus the ttl,
  // minus the time from a to c, and minus the time from m to w.
  lemma HitWasRow(ttl: int, b: seq<State>, i: nat, t: int) returns (writer: int, dater: int, c: nat)
    requires Behaviour(ttl, b) && i < |b|
    requires t in b[i].callers && b[i].callers[t].Getting?
    requires t in b[i].cells.threads && b[i].cells.threads[t].Hit?
    ensures var h := b[i].callers[t].h;
            var pc: M.PC<string, Copy> := b[i].cells.threads[t];
            var key, d, check, got := pc.k, pc.d, pc.check, pc.got;
            var a, w, m := d.dataWrite.step, got.at.step, got.v.seen.step;
            && key == CacheKey(h)
            && M.DatedBy(CellsOf(b), i, dater, c, key, d)
            && dater in b[c].callers && StoresUnder(b[c].callers[dater], key)
            && InFlight(b, c, dater, b[c].callers[dater].copy)
            && M.WrittenBy(CellsOf(b), i, writer, key, got) && InFlight(b, w, writer, got.v)
            && a <= w
            && got.v.row.hash == h && h in b[m + 1].table && b[m + 1].table[h] == got.v.row
            && check - b[m].cells.now <= ttl + (b[c].cells.now - b[a].cells.now) + (b[w].cells.now - b[m].cells.now)
  {
    BehaviourInv(ttl, b, i);
    CellsBehave(ttl, b);
    var pc := b[i].cells.threads[t];
    assert CellsOf(b)[i].threads[t] == pc;
    writer, dater, c := M.LoadedValueIsFresh(CellsOf(b), i, t);
    assert ThreadOk(ttl, b, i, pc) && CallerOk(b, i, b[i].callers[t], pc);
    CacheKeyInjective(b[i].callers[t].h, pc.got.v.row.hash);
    StoreInFlight(ttl, b, c, dater);
    StoreInFlight(ttl, b, pc.got.at.step, writer);
  }

  // No call takes longer than this from its statement on the table to its write of the value, nor
  // from that write to its reading of the clock.
  ghost predicate Prompt(b: seq<State>, most: int) {
    && (forall i, t, x :: 0 <= i < |b| && InFlight(b, i, t, x) && AboutToWrite(b[i], t) ==>
          b[i].cells.now - x.seen.time <= most)
    && (forall i, t :: 0 <= i < |b| && AboutToDate(b[i], t) ==> b[i].cells.now - b[i].cells.threads[t].wrote.time <= most)
  }

  ghost predicate AboutToWrite(s: State, t: int) {
    t in s.cells.threads && s.cells.threads[t].StoreValue?
  }

  ghost predicate AboutToDate(s: State, t: int) {
    t in s.cells.threads && s.cells.threads[t].StoreClock?
  }

  // If no call is slow, a hit is the row that the table had no longer ago than the ttl and twice that time.
  lemma HitIsRecent(ttl: int, b: seq<State>, i: nat, t: int, most: int) returns (m: nat)
    requires Behaviour(ttl, b) && i < |b| && Prompt(b, most)
    requires t in b[i].callers && b[i].callers[t].Getting?
    requires t in b[i].cells.threads && b[i].cells.threads[t].Hit?
    ensures m < i && b[i].cells.threads[t].check - b[m].cells.now <= ttl + 2 * most
    ensures var h := b[i].callers[t].h;
            h in b[m + 1].table && b[m + 1].table[h] == b[i].cells.threads[t].got.v.row
  {
    var writer, dater, c := HitWasRow(ttl, b, i, t);
    var pc := b[i].cells.threads[t];
    m := pc.got.v.seen.step;
    var a, w := pc.d.dataWrite.step, pc.got.at.step;
    var cells := CellsOf(b);
    assert cells[a] == b[a].cells && cells[c] == b[c].cells && cells[w] == b[w].cells;
    assert AboutToDate(b[c], dater) && AboutToWrite(b[w], writer);
  }

  /******* Who renews a deadline *******/

  // After step m and before step i, the key had no value, or no deadline, or one that passed.
  ghost predicate NotLive(b: seq<State>, m: nat, j: nat, k: nat, i: nat, key: string)
    requires i < |b|
  {
    && m < j <= k < i
    && (key !in b[j].cells.exp || key !in b[k].cells.data || b[j].cells.exp[key].at < b[k].cells.now)
  }

  ghost predicate WasNotLive(b: seq<State>, m: nat, i: nat, key: string)
    requires i < |b|
  {
    exists j, k :: NotLive(b, m, j, k, i, key)
  }

  // What the load inside a SetNX has seen so far.
  ghost predicate LoadSaw(b: seq<State>, m: nat, i: nat, key: string, pc: M.PC<string, Copy>)
    requires i < |b|
  {
    match pc
    case LoadClock(_, d) => exists j :: m < j < i && key in b[j].cells.exp && b[j].cells.exp[key] == d
    case LoadDropValue(_) => WasNotLive(b, m, i, key)
    case LoadDropDeadline(_) => WasNotLive(b, m, i, key)
    case Missed(_) => WasNotLive(b, m, i, key)
    case _ => true
  }

  lemma LoadSawStays(b: seq<State>, m: nat, i: nat, key: string, pc: M.PC<string, Copy>)
    requires i + 1 < |b| && LoadSaw(b, m, i, key, pc)
    ensures LoadSaw(b, m, i + 1, key, pc)
  {
    if WasNotLive(b, m, i, key) {
      var j, k :| NotLive(b, m, j, k, i, key);
      assert NotLive(b, m, j, k, i + 1, key);
    }
  }

  lemma LoadStep(b: seq<State>, m: nat, i: nat, t: int, key: string)
    requires m < i && i + 1 < |b| && M.ThreadStep(b[i].cells, b[i + 1].cells, t)
    requires Loads(b[i].cells.threads[t], key) && LoadSaw(b, m, i, key, b[i].cells.threads[t])
    ensures LoadSaw(b, m, i + 1, key, b[i + 1].cells.threads[t])
  {
    var pc, pc' := b[i].cells.threads[t], b[i + 1].cells.threads[t];
    LoadSawStays(b, m, i, key, pc);
    match pc
    case LoadDeadline(k) =>
      assert pc'.Missed? ==> NotLive(b, m, i, i, i + 1, key);
    case LoadClock(k, d) =>
      var j :| m < j < i && key in b[j].cells.exp && b[j].cells.exp[key] == d;
      assert pc'.LoadDropValue? ==> NotLive(b, m, j, i, i + 1, key);
    case LoadValue(k, d, check) =>
      assert pc'.Missed? ==> NotLive(b, m, i, i, i + 1, key);
    case _ =>
  }

  lemma SetNXStep(ttl: int, b: seq<State>, i: nat, u: int, t: int)
    requires i + 1 < |b| && CallerStep(ttl, b[i], b[i + 1], u) && t in b[i].callers && t in b[i].cells.threads
    requires b[i].callers[t].Adding? && b[i + 1].callers[t] == b[i].callers[t] && b[i].callers[t].copy.seen.step < i
    requires CallerOk(b, i, b[i].callers[t], b[i].cells.threads[t])
    requires LoadSaw(b, b[i].callers[t].copy.seen.step, i, CacheKey(b[i].callers[t].h), b[i].cells.threads[t])
    ensures t in b[i + 1].cells.threads
    ensures LoadSaw(b, b[i].callers[t].copy.seen.step, i + 1, CacheKey(b[i].callers[t].h), b[i + 1].cells.threads[t])
  {
    var m, key := b[i].callers[t].copy.seen.step, CacheKey(b[i].callers[t].h);
    if u == t && !b[i].cells.threads[t].Idle? {
      LoadStep(b, m, i, t, key);
    } else {
      LoadSawStays(b, m, i, key, b[i].cells.threads[t]);
    }
  }

  lemma {:induction false} SetNXSaw(ttl: int, b: seq<State>, i: nat, t: int)
    requires Behaviour(ttl, b) && i < |b| && t in b[i].callers && b[i].callers[t].Adding?
    ensures t in b[i].cells.threads
    ensures LoadSaw(b, b[i].callers[t].copy.seen.step, i, CacheKey(b[i].callers[t].h), b[i].cells.threads[t])
  {
    BehaviourInv(ttl, b, i);
    if i > 0 {
      var c, m, key := b[i].callers[t], b[i].callers[t].copy.seen.step, CacheKey(b[i].callers[t].h);
      assert StepAt(ttl, b, i - 1);
      BehaviourInv(ttl, b, i - 1);
      var u :| CallerStep(ttl, b[i - 1], b[i], u);
      if b[i - 1].callers[t] == c {
        SetNXSaw(ttl, b, i - 1, t);
        CopyInFlight(ttl, b, i - 1, t, c.copy);
        SetNXStep(ttl, b, i - 1, u, t);
      }
    }
  }

  // At step j the SetNX of thread t got its answer: its own load missed.
  ghost predicate LoadMissed(b: seq<State>, j: nat, t: int, h: Hash, x: Copy)
    requires j < |b|
  {
    && t in b[j].callers && t in b[j].cells.threads
    && b[j].callers[t] == Adding(h, x) && b[j].cells.threads[t] == M.Missed(CacheKey(h))
    && WasNotLive(b, x.seen.step, j, CacheKey(h))
  }

  lemma {:induction false} SetNXMissed(ttl: int, b: seq<State>, i: nat, t: int) returns (j: nat)
    requires Behaviour(ttl, b) && i < |b| && t in b[i].callers && b[i].callers[t].AddingMissed?
    ensures b[i].callers[t].copy.seen.step < j < i && LoadMissed(b, j, t, b[i].callers[t].h, b[i].callers[t].copy)
  {
    if i > 0 {
      assert StepAt(ttl, b, i - 1);
      BehaviourInv(ttl, b, i - 1);
      var u :| CallerStep(ttl, b[i - 1], b[i], u);
      if b[i - 1].callers[t] == b[i].callers[t] {
        j := SetNXMissed(ttl, b, i - 1, t);
      } else {
        j := i - 1;
        CopyInFlight(ttl, b, j, t, b[i].callers[t].copy);
        SetNXSaw(ttl, b, j, t);
      }
    }
  }

  // A step gives a key a new deadline only at the end of a Store.
  lemma OnlyStoresDate(ttl: int, s: State, s': State, t: int, key: string)
    requires CallerStep(ttl, s, s', t) && key in s'.cells.exp
    requires key in s.cells.exp ==> s'.cells.exp[key] != s.cells.exp[key]
    ensures s.cells.threads[t].StoreDeadline? && s.cells.threads[t].k == key
  {
    if M.ThreadStep(s.cells, s'.cells, t) {
      M.ActsOnMaps(s.cells, s'.cells, s.cells.threads[t], s'.cells.threads[t]);
    }
  }

  // That Store belongs to a Set, or to a SetNX that found no live entry under the key in its own load:
  // no hit prolongs an entry, and no SetNX a live one.
  lemma OnlySetsAndMissesDate(ttl: int, b: seq<State>, i: nat, t: int, key: string) returns (j: nat)
    requires Behaviour(ttl, b) && i + 1 < |b| && CallerStep(ttl, b[i], b[i + 1], t)
    requires key in b[i + 1].cells.exp
    requires key in b[i].cells.exp ==> b[i + 1].cells.exp[key] != b[i].cells.exp[key]
    ensures StoresUnder(b[i].callers[t], key) && InFlight(b, i, t, b[i].callers[t].copy)
    ensures b[i].callers[t].AddingMissed? ==>
              && b[i].callers[t].copy.seen.step < j < i
              && LoadMissed(b, j, t, b[i].callers[t].h, b[i].callers[t].copy)
  {
    OnlyStoresDate(ttl, b[i], b[i + 1], t, key);
    StoreInFlight(ttl, b, i, t);
    j := 0;
    if b[i].callers[t].AddingMissed? {
      j := SetNXMissed(ttl, b, i, t);
    }
  }

  lemma HitEndsTheCall(ttl: int, s: State, s': State, t: int)
    requires CallerStep(ttl, s, s', t) && s.cells.threads[t].Hit?
    requires s.callers[t].Getting? || s.callers[t].Adding?
    ensures s'.callers[t] == Free && s'.cells.threads[t].Idle?
    ensures s'.cells.data == s.cells.data && s'.cells.exp == s.cells.exp && s'.table == s.table
  {
  }
}
