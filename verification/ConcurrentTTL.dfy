/** The map with expiry under any number of threads: it has no common lock, so each call on one of
    its two inner maps, and each reading of the clock, is a step of its own. */
module ConcurrentTTL {

  // When a step was taken: its index in the behaviour, and the time.
  datatype Stamp = Stamp(step: nat, time: int)

  // A value with the step that wrote it.
  datatype Written<V> = Written(v: V, at: Stamp)

  // A deadline with the Store that wrote it: its own write of the value, and its reading of the clock.
  datatype Deadline = Deadline(at: int, ttl: int, dataWrite: Stamp, clockRead: int)

  // Where a thread is inside a call.
  datatype PC<K, V> =
    | Idle
    | StoreValue(k: K, v: V, ttl: int)
    | StoreClock(k: K, v: V, ttl: int, wrote: Stamp)
    | StoreDeadline(k: K, d: Deadline)
    | LoadDeadline(k: K)
    | LoadClock(k: K, d: Deadline)
    | LoadValue(k: K, d: Deadline, check: int)
    | LoadDropValue(k: K)
    | LoadDropDeadline(k: K)
    | Hit(k: K, d: Deadline, check: int, got: Written<V>)
    | Missed(k: K)
    | DeleteValue(k: K)
    | DeleteDeadline(k: K)
    | SweepNext(tick: int)
    | SweepValue(tick: int, k: K, deadline: int)
    | SweepDeadline(tick: int, k: K)
    | ClearValues
    | ClearDeadlines

  datatype State<K, V> = State(data: map<K, Written<V>>, exp: map<K, Deadline>, threads: map<int, PC<K, V>>,
                               step: nat, now: int)

  ghost predicate Init<K, V>(s: State<K, V>) {
    && s.data == map[] && s.exp == map[] && s.step == 0
    && (forall t :: t in s.threads ==> s.threads[t] == Idle)
  }

  ghost predicate Unchanged<K, V>(s: State<K, V>, s': State<K, V>) {
    s'.data == s.data && s'.exp == s.exp
  }

  // One step of the thread at pc.
  ghost predicate Acts<K, V>(s: State<K, V>, s': State<K, V>, pc: PC<K, V>, pc': PC<K, V>) {
    match pc
    case Idle =>
      && Unchanged(s, s')
      && (pc'.StoreValue? || pc'.LoadDeadline? || pc'.DeleteValue? || pc' == SweepNext(s.now) || pc' == ClearValues)
    case StoreValue(k, v, ttl) =>
      var at := Stamp(s.step, s.now);
      s'.data == s.data[k := Written(v, at)] && s'.exp == s.exp && pc' == StoreClock(k, v, ttl, at)
    case StoreClock(k, v, ttl, wrote) =>
      Unchanged(s, s') && pc' == StoreDeadline(k, Deadline(s.now + ttl, ttl, wrote, s.now))
    case StoreDeadline(k, d) =>
      s'.data == s.data && s'.exp == s.exp[k := d] && pc' == Idle
    case LoadDeadline(k) =>
      Unchanged(s, s') && pc' == if k in s.exp then LoadClock(k, s.exp[k]) else Missed(k)
    case LoadClock(k, d) =>
      Unchanged(s, s') && pc' == if s.now > d.at then LoadDropValue(k) else LoadValue(k, d, s.now)
    case LoadValue(k, d, check) =>
      Unchanged(s, s') && pc' == if k in s.data then Hit(k, d, check, s.data[k]) else Missed(k)
    case LoadDropValue(k) =>
      s'.data == s.data - {k} && s'.exp == s.exp && pc' == LoadDropDeadline(k)
    case LoadDropDeadline(k) =>
      s'.data == s.data && s'.exp == s.exp - {k} && pc' == Missed(k)
    case Hit(_, _, _, _) => Unchanged(s, s') && pc' == Idle
    case Missed(_) => Unchanged(s, s') && pc' == Idle
    case DeleteValue(k) =>
      s'.data == s.data - {k} && s'.exp == s.exp && pc' == DeleteDeadline(k)
    case DeleteDeadline(k) =>
      s'.data == s.data && s'.exp == s.exp - {k} && pc' == Idle
    case SweepNext(tick) =>
      && Unchanged(s, s')
      && (pc' == Idle || (pc'.SweepValue? && pc'.k in s.exp && pc' == SweepValue(tick, pc'.k, s.exp[pc'.k].at)))
    case SweepValue(tick, k, deadline) =>
      if tick > deadline then s'.data == s.data - {k} && s'.exp == s.exp && pc' == SweepDeadline(tick, k)
      else Unchanged(s, s') && pc' == SweepNext(tick)
    case SweepDeadline(tick, k) =>
      s'.data == s.data && s'.exp == s.exp - {k} && pc' == SweepNext(tick)
    case ClearValues =>
      || (pc' == ClearValues && s'.exp == s.exp && exists k :: k in s.data && s'.data == s.data - {k})
      || (pc' == ClearDeadlines && Unchanged(s, s'))
    case ClearDeadlines =>
      || (pc' == ClearDeadlines && s'.data == s.data && exists k :: k in s.exp && s'.exp == s.exp - {k})
      || (pc' == Idle && Unchanged(s, s'))
  }

  // Time passes between steps, never backwards.
  ghost predicate Ticks<K, V>(s: State<K, V>, s': State<K, V>) {
    s'.step == s.step + 1 && s.now <= s'.now
  }

  ghost predicate ThreadStep<K, V>(s: State<K, V>, s': State<K, V>, t: int) {
    && Ticks(s, s') && t in s.threads && t in s'.threads
    && s'.threads == s.threads[t := s'.threads[t]]
    && Acts(s, s', s.threads[t], s'.threads[t])
  }

  ghost predicate Pause<K, V>(s: State<K, V>, s': State<K, V>) {
    Ticks(s, s') && Unchanged(s, s') && s'.threads == s.threads
  }

  ghost predicate Next<K, V>(s: State<K, V>, s': State<K, V>) {
    Pause(s, s') || exists t :: ThreadStep(s, s', t)
  }

  ghost predicate StepAt<K, V>(b: seq<State<K, V>>, i: nat)
    requires i + 1 < |b|
  {
    Next(b[i], b[i + 1])
  }

  ghost predicate Behaviour<K, V>(b: seq<State<K, V>>) {
    b != [] && Init(b[0]) && forall i: nat :: i + 1 < |b| ==> StepAt(b, i)
  }

  /******* Order of writes *******/

  ghost predicate NotAfter(a: Stamp, b: Stamp) {
    a.step <= b.step && a.time <= b.time
  }

  ghost predicate Past<K, V>(s: State<K, V>, a: Stamp) {
    a.step < s.step && a.time <= s.now
  }

  // Whatever value the map has for k was written no earlier than a.
  ghost predicate ValueSince<K, V>(s: State<K, V>, k: K, a: Stamp) {
    k in s.data ==> NotAfter(a, s.data[k].at)
  }

  ghost predicate DeadlineOk<K, V>(s: State<K, V>, k: K, d: Deadline) {
    && d.at == d.clockRead + d.ttl && d.dataWrite.time <= d.clockRead
    && Past(s, d.dataWrite) && ValueSince(s, k, d.dataWrite)
  }

  ghost predicate ThreadOk<K, V>(s: State<K, V>, pc: PC<K, V>) {
    match pc
    case StoreClock(k, _, _, wrote) => Past(s, wrote) && ValueSince(s, k, wrote)
    case StoreDeadline(k, d) => DeadlineOk(s, k, d)
    case LoadClock(k, d) => DeadlineOk(s, k, d)
    case LoadValue(k, d, check) => DeadlineOk(s, k, d) && check <= d.at
    case Hit(k, d, check, got) => Fresh(d, check, got.at)
    case _ => true
  }

  // The value was written no earlier than the deadline's own Store wrote its value, so its age at
  // the check is at most the ttl and the time that Store took to date it.
  ghost predicate Fresh(d: Deadline, check: int, wrote: Stamp) {
    && NotAfter(d.dataWrite, wrote)
    && check - wrote.time <= d.ttl + (d.clockRead - d.dataWrite.time)
  }

  ghost predicate Inv<K, V>(s: State<K, V>) {
    && (forall k :: k in s.data ==> Past(s, s.data[k].at))
    && (forall k :: k in s.exp ==> DeadlineOk(s, k, s.exp[k]))
    && (forall t :: t in s.threads ==> ThreadOk(s, s.threads[t]))
  }

  // What was ordered stays ordered: values are only replaced by newer ones, or dropped.
  ghost predicate Newer<K, V>(s: State<K, V>, s': State<K, V>) {
    forall k | k in s'.data ::
      && Past(s', s'.data[k].at)
      && ((k in s.data && s'.data[k] == s.data[k]) || s'.data[k].at == Stamp(s.step, s.now))
  }

  lemma DeadlineStaysOk<K, V>(s: State<K, V>, s': State<K, V>, k: K, d: Deadline)
    requires Ticks(s, s') && Newer(s, s') && DeadlineOk(s, k, d)
    ensures DeadlineOk(s', k, d)
  {
  }

  lemma ThreadStaysOk<K, V>(s: State<K, V>, s': State<K, V>, pc: PC<K, V>)
    requires Ticks(s, s') && Newer(s, s') && ThreadOk(s, pc)
    ensures ThreadOk(s', pc)
  {
    if pc.StoreDeadline? || pc.LoadClock? || pc.LoadValue? {
      DeadlineStaysOk(s, s', pc.k, pc.d);
    }
  }

  lemma ActorStaysOk<K, V>(s: State<K, V>, s': State<K, V>, pc: PC<K, V>, pc': PC<K, V>)
    requires Inv(s) && ThreadOk(s, pc) && Ticks(s, s') && Acts(s, s', pc, pc')
    ensures Newer(s, s') && ThreadOk(s', pc')
    ensures forall k :: k in s'.exp ==> DeadlineOk(s', k, s'.exp[k])
  {
    assert Newer(s, s');
    forall k | k in s'.exp ensures DeadlineOk(s', k, s'.exp[k]) {
      if k in s.exp && s'.exp[k] == s.exp[k] {
        DeadlineStaysOk(s, s', k, s.exp[k]);
      } else {
        DeadlineStaysOk(s, s', k, pc.d);
      }
    }
  }

  lemma StepKeepsInv<K, V>(s: State<K, V>, s': State<K, V>)
    requires Inv(s) && Next(s, s')
    ensures Inv(s')
  {
    if t :| ThreadStep(s, s', t) {
      ActorStaysOk(s, s', s.threads[t], s'.threads[t]);
      forall u | u in s'.threads ensures ThreadOk(s', s'.threads[u]) {
        if u != t {
          ThreadStaysOk(s, s', s.threads[u]);
        }
      }
    } else {
      forall k | k in s'.exp ensures DeadlineOk(s', k, s'.exp[k]) {
        DeadlineStaysOk(s, s', k, s.exp[k]);
      }
      forall u | u in s'.threads ensures ThreadOk(s', s'.threads[u]) {
        ThreadStaysOk(s, s', s.threads[u]);
      }
    }
  }

  lemma {:induction false} BehaviourInv<K, V>(b: seq<State<K, V>>, i: nat)
    requires Behaviour(b) && i < |b|
    ensures Inv(b[i]) && b[i].step == i
  {
    if i > 0 {
      BehaviourInv(b, i - 1);
      assert StepAt(b, i - 1);
      StepKeepsInv(b[i - 1], b[i]);
    }
  }

  /******* What the stamps mean in the behaviour *******/

  // Thread t is about to write its value for k.
  ghost predicate Writing<K, V>(s: State<K, V>, t: int, k: K, at: Stamp) {
    t in s.threads && s.threads[t].StoreValue? && s.threads[t].k == k && s.now == at.time
  }

  // The value was written by a Store, at that step, before step i.
  ghost predicate WrittenBy<K, V>(b: seq<State<K, V>>, i: nat, t: int, k: K, w: Written<V>)
    requires i < |b|
  {
    w.at.step < i && Writing(b[w.at.step], t, k, w.at) && b[w.at.step].threads[t].v == w.v
  }

  // The same thread wrote its value, and then read the clock at step c to date it.
  ghost predicate DatedBy<K, V>(b: seq<State<K, V>>, i: nat, t: int, c: nat, k: K, d: Deadline)
    requires i < |b|
  {
    && d.dataWrite.step < c < i
    && Writing(b[d.dataWrite.step], t, k, d.dataWrite) && b[d.dataWrite.step].threads[t].ttl == d.ttl
    && t in b[c].threads && b[c].threads[t].StoreClock? && b[c].threads[t].k == k && b[c].threads[t].wrote == d.dataWrite
    && b[c].now == d.clockRead
  }

  ghost predicate WasWritten<K, V>(b: seq<State<K, V>>, i: nat, k: K, w: Written<V>)
    requires i < |b|
  {
    exists t :: WrittenBy(b, i, t, k, w)
  }

  ghost predicate WasDated<K, V>(b: seq<State<K, V>>, i: nat, k: K, d: Deadline)
    requires i < |b|
  {
    exists t, c :: DatedBy(b, i, t, c, k, d)
  }

  ghost predicate ThreadHistory<K, V>(b: seq<State<K, V>>, i: nat, t: int, pc: PC<K, V>)
    requires i < |b|
  {
    match pc
    case StoreClock(k, v, ttl, wrote) =>
      WrittenBy(b, i, t, k, Written(v, wrote)) && b[wrote.step].threads[t].ttl == ttl
    case StoreDeadline(k, d) => WasDated(b, i, k, d)
    case LoadClock(k, d) => WasDated(b, i, k, d)
    case LoadValue(k, d, check) => WasDated(b, i, k, d)
    case Hit(k, d, check, got) => WasDated(b, i, k, d) && WasWritten(b, i, k, got)
    case _ => true
  }

  ghost predicate MapHistory<K, V>(b: seq<State<K, V>>, i: nat)
    requires i < |b|
  {
    && (forall k :: k in b[i].data ==> WasWritten(b, i, k, b[i].data[k]))
    && (forall k :: k in b[i].exp ==> WasDated(b, i, k, b[i].exp[k]))
  }

  ghost predicate History<K, V>(b: seq<State<K, V>>, i: nat)
    requires i < |b|
  {
    && MapHistory(b, i)
    && (forall t :: t in b[i].threads ==> ThreadHistory(b, i, t, b[i].threads[t]))
  }

  lemma WrittenStays<K, V>(b: seq<State<K, V>>, i: nat, k: K, w: Written<V>)
    requires i + 1 < |b| && WasWritten(b, i, k, w)
    ensures WasWritten(b, i + 1, k, w)
  {
    var t :| WrittenBy(b, i, t, k, w);
    assert WrittenBy(b, i + 1, t, k, w);
  }

  lemma DatedStays<K, V>(b: seq<State<K, V>>, i: nat, k: K, d: Deadline)
    requires i + 1 < |b| && WasDated(b, i, k, d)
    ensures WasDated(b, i + 1, k, d)
  {
    var t, c :| DatedBy(b, i, t, c, k, d);
    assert DatedBy(b, i + 1, t, c, k, d);
  }

  lemma ThreadHistoryStays<K, V>(b: seq<State<K, V>>, i: nat, t: int, pc: PC<K, V>)
    requires i + 1 < |b| && ThreadHistory(b, i, t, pc)
    ensures ThreadHistory(b, i + 1, t, pc)
  {
    match pc
    case StoreDeadline(k, d) => DatedStays(b, i, k, d);
    case LoadClock(k, d) => DatedStays(b, i, k, d);
    case LoadValue(k, d, check) => DatedStays(b, i, k, d);
    case Hit(k, d, check, got) => DatedStays(b, i, k, d); WrittenStays(b, i, k, got);
    case _ =>
  }

  // How a step may change the two maps.
  lemma ActsOnMaps<K, V>(s: State<K, V>, s': State<K, V>, pc: PC<K, V>, pc': PC<K, V>)
    requires Acts(s, s', pc, pc')
    ensures forall k :: k in s'.data ==>
              || (k in s.data && s'.data[k] == s.data[k])
              || (pc.StoreValue? && k == pc.k && s'.data[k] == Written(pc.v, Stamp(s.step, s.now)))
    ensures forall k :: k in s'.exp ==>
              || (k in s.exp && s'.exp[k] == s.exp[k])
              || (pc.StoreDeadline? && k == pc.k && s'.exp[k] == pc.d)
  {
  }

  lemma ActorMaps<K, V>(b: seq<State<K, V>>, i: nat, t: int)
    requires i + 1 < |b| && b[i].step == i && History(b, i) && ThreadStep(b[i], b[i + 1], t)
    ensures MapHistory(b, i + 1)
  {
    var s, s' := b[i], b[i + 1];
    var pc := s.threads[t];
    assert ThreadHistory(b, i, t, pc);
    ActsOnMaps(s, s', pc, s'.threads[t]);
    forall k | k in s'.data ensures WasWritten(b, i + 1, k, s'.data[k]) {
      if k in s.data && s'.data[k] == s.data[k] {
        WrittenStays(b, i, k, s.data[k]);
      } else {
        assert WrittenBy(b, i + 1, t, k, s'.data[k]);
      }
    }
    forall k | k in s'.exp ensures WasDated(b, i + 1, k, s'.exp[k]) {
      if k in s.exp && s'.exp[k] == s.exp[k] {
        DatedStays(b, i, k, s.exp[k]);
      } else {
        DatedStays(b, i, k, pc.d);
      }
    }
  }

  lemma ActorHistory<K, V>(b: seq<State<K, V>>, i: nat, t: int)
    requires i + 1 < |b| && b[i].step == i && History(b, i) && ThreadStep(b[i], b[i + 1], t)
    ensures ThreadHistory(b, i + 1, t, b[i + 1].threads[t])
  {
    var s, s' := b[i], b[i + 1];
    var pc, pc' := s.threads[t], s'.threads[t];
    assert ThreadHistory(b, i, t, pc);
    match pc'
    case StoreClock(k, v, ttl, wrote) =>
      assert WrittenBy(b, i + 1, t, k, Written(v, wrote));
    case StoreDeadline(k, d) =>
      assert DatedBy(b, i + 1, t, i, k, d);
    case LoadClock(k, d) => DatedStays(b, i, k, s.exp[k]);
    case LoadValue(k, d, check) => DatedStays(b, i, k, d);
    case Hit(k, d, check, got) => DatedStays(b, i, k, d); WrittenStays(b, i, k, s.data[k]);
    case _ =>
  }

  lemma StepKeepsHistory<K, V>(b: seq<State<K, V>>, i: nat)
    requires i + 1 < |b| && b[i].step == i && History(b, i) && Next(b[i], b[i + 1])
    ensures History(b, i + 1)
  {
    var s, s' := b[i], b[i + 1];
    if t :| ThreadStep(s, s', t) {
      ActorHistory(b, i, t);
      ActorMaps(b, i, t);
      forall u | u in s'.threads && u != t ensures ThreadHistory(b, i + 1, u, s'.threads[u]) {
        ThreadHistoryStays(b, i, u, s.threads[u]);
      }
    } else {
      forall k | k in s'.data ensures WasWritten(b, i + 1, k, s'.data[k]) {
        WrittenStays(b, i, k, s.data[k]);
      }
      forall k | k in s'.exp ensures WasDated(b, i + 1, k, s'.exp[k]) {
        DatedStays(b, i, k, s.exp[k]);
      }
      forall u | u in s'.threads ensures ThreadHistory(b, i + 1, u, s'.threads[u]) {
        ThreadHistoryStays(b, i, u, s.threads[u]);
      }
    }
  }

  lemma {:induction false} BehaviourHistory<K, V>(b: seq<State<K, V>>, i: nat)
    requires Behaviour(b) && i < |b|
    ensures History(b, i)
  {
    if i > 0 {
      BehaviourHistory(b, i - 1);
      BehaviourInv(b, i - 1);
      assert StepAt(b, i - 1);
      StepKeepsHistory(b, i - 1);
    }
  }

  // A value that a Load returns was written, by some Store at step w, no earlier than the Store whose
  // deadline passed the check wrote its own value at step a.  Its age at the check is at most the
  // ttl and the time from that Store's write to its reading of the clock at step c.
  lemma LoadedValueIsFresh<K, V>(b: seq<State<K, V>>, i: nat, t: int) returns (writer: int, dater: int, c: nat)
    requires Behaviour(b) && i < |b| && t in b[i].threads && b[i].threads[t].Hit?
    ensures var Hit(k, d, check, got) := b[i].threads[t];
            var a, w := d.dataWrite.step, got.at.step;
            && DatedBy(b, i, dater, c, k, d) && WrittenBy(b, i, writer, k, got)
            && a <= w
            && check - b[w].now <= d.ttl + (b[c].now - b[a].now)
  {
    BehaviourInv(b, i);
    BehaviourHistory(b, i);
    var Hit(k, d, check, got) := b[i].threads[t];
    assert ThreadOk(b[i], b[i].threads[t]) && ThreadHistory(b, i, t, b[i].threads[t]);
    dater, c :| DatedBy(b, i, dater, c, k, d);
    writer :| WrittenBy(b, i, writer, k, got);
  }

  /******* What is removed *******/

  // The key had a deadline that has passed by now.
  ghost predicate HadExpired<K, V>(b: seq<State<K, V>>, i: nat, k: K)
    requires i < |b|
  {
    exists j :: 0 <= j <= i && k in b[j].exp && b[j].exp[k].at < b[i].now
  }

  ghost predicate HadDeadline<K, V>(b: seq<State<K, V>>, i: nat, k: K, at: int)
    requires i < |b|
  {
    exists j :: 0 <= j <= i && k in b[j].exp && b[j].exp[k].at == at
  }

  ghost predicate DropHistory<K, V>(b: seq<State<K, V>>, i: nat, pc: PC<K, V>)
    requires i < |b|
  {
    match pc
    case LoadClock(k, d) => HadDeadline(b, i, k, d.at)
    case LoadDropValue(k) => HadExpired(b, i, k)
    case LoadDropDeadline(k) => HadExpired(b, i, k)
    case SweepNext(tick) => tick <= b[i].now
    case SweepValue(tick, k, deadline) => tick <= b[i].now && HadDeadline(b, i, k, deadline)
    case SweepDeadline(tick, k) => tick <= b[i].now && HadExpired(b, i, k)
    case _ => true
  }

  lemma DropHistoryStays<K, V>(b: seq<State<K, V>>, i: nat, pc: PC<K, V>)
    requires i + 1 < |b| && b[i].now <= b[i + 1].now && DropHistory(b, i, pc)
    ensures DropHistory(b, i + 1, pc)
  {
    if (pc.LoadDropValue? || pc.LoadDropDeadline? || pc.SweepDeadline?) {
      var j :| 0 <= j <= i && pc.k in b[j].exp && b[j].exp[pc.k].at < b[i].now;
    }
  }

  lemma ActorDropHistory<K, V>(b: seq<State<K, V>>, i: nat, t: int)
    requires i + 1 < |b| && ThreadStep(b[i], b[i + 1], t) && DropHistory(b, i, b[i].threads[t])
    ensures DropHistory(b, i + 1, b[i + 1].threads[t])
  {
    var pc, pc' := b[i].threads[t], b[i + 1].threads[t];
    DropHistoryStays(b, i, pc);
    match pc'
    case LoadClock(k, d) => assert k in b[i].exp && b[i].exp[k].at == d.at;
    case SweepValue(tick, k, deadline) => assert k in b[i].exp && b[i].exp[k].at == deadline;
    case LoadDropValue(k) =>
      var j :| 0 <= j <= i && k in b[j].exp && b[j].exp[k].at == pc.d.at;
      assert b[j].exp[k].at < b[i + 1].now;
    case SweepDeadline(tick, k) =>
      var j :| 0 <= j <= i && k in b[j].exp && b[j].exp[k].at == pc.deadline;
      assert b[j].exp[k].at < b[i + 1].now;
    case _ =>
  }

  lemma {:induction false} BehaviourDropHistory<K, V>(b: seq<State<K, V>>, i: nat, t: int)
    requires Behaviour(b) && i < |b| && t in b[i].threads
    ensures DropHistory(b, i, b[i].threads[t])
  {
    if i > 0 {
      assert StepAt(b, i - 1);
      var s, s' := b[i - 1], b[i];
      if u :| ThreadStep(s, s', u) {
        BehaviourDropHistory(b, i - 1, t);
        if u == t {
          ActorDropHistory(b, i - 1, t);
        } else {
          DropHistoryStays(b, i - 1, b[i].threads[t]);
        }
      } else {
        BehaviourDropHistory(b, i - 1, t);
        DropHistoryStays(b, i - 1, b[i].threads[t]);
      }
    }
  }

  // A value or a deadline leaves the map only by a Delete or a Clear, or when a deadline of its key has
  // passed.
  lemma OnlyExpiredDropped<K, V>(b: seq<State<K, V>>, i: nat, k: K) returns (t: int)
    requires Behaviour(b) && i + 1 < |b|
    requires (k in b[i].data && k !in b[i + 1].data) || (k in b[i].exp && k !in b[i + 1].exp)
    ensures t in b[i].threads
    ensures || b[i].threads[t] == DeleteValue(k) || b[i].threads[t] == DeleteDeadline(k)
            || b[i].threads[t].ClearValues? || b[i].threads[t].ClearDeadlines?
            || HadExpired(b, i, k)
  {
    assert StepAt(b, i);
    t :| ThreadStep(b[i], b[i + 1], t);
    BehaviourDropHistory(b, i, t);
    if b[i].threads[t].SweepValue? {
      var j :| 0 <= j <= i && k in b[j].exp && b[j].exp[k].at == b[i].threads[t].deadline;
    }
  }

  /******* A removal that is done *******/

  ghost predicate NobodyStores<K, V>(s: State<K, V>, k: K) {
    forall t :: t in s.threads ==>
      !(s.threads[t].StoreValue? && s.threads[t].k == k) && !(s.threads[t].StoreDeadline? && s.threads[t].k == k)
  }

  // The thread is inside one call that removes the key: a Delete, or the part of a sweep or of a load
  // that found it expired.
  ghost predicate RemovesValue<K, V>(pc: PC<K, V>, k: K) {
    pc == DeleteValue(k) || pc == LoadDropValue(k) || (pc.SweepValue? && pc.k == k && pc.tick > pc.deadline)
  }

  ghost predicate RemovesDeadline<K, V>(pc: PC<K, V>, k: K) {
    pc == DeleteDeadline(k) || pc == LoadDropDeadline(k) || (pc.SweepDeadline? && pc.k == k)
  }

  lemma {:induction false} StaysOut<K, V>(b: seq<State<K, V>>, i: nat, j: nat, k: K)
    requires Behaviour(b) && i <= j < |b| && forall m :: i <= m < j ==> NobodyStores(b[m], k)
    ensures k !in b[i].data ==> k !in b[j].data
    ensures k !in b[i].exp ==> k !in b[j].exp
    decreases j
  {
    if i < j {
      StaysOut(b, i, j - 1, k);
      assert StepAt(b, j - 1) && NobodyStores(b[j - 1], k);
      var s, s' := b[j - 1], b[j];
      if t :| ThreadStep(s, s', t) {
        ActsOnMaps(s, s', s.threads[t], s'.threads[t]);
      }
    }
  }

  // The step that takes the thread out of the place where it is.
  ghost predicate Leaves<K, V>(b: seq<State<K, V>>, i: nat, t: int)
    requires i + 1 < |b|
  {
    t in b[i].threads && t in b[i + 1].threads && b[i + 1].threads[t] != b[i].threads[t]
  }

  // After its two steps the key is out of both maps, if nobody stores it in the meantime.
  lemma RemovalIsDone<K, V>(b: seq<State<K, V>>, i: nat, j: nat, t: int, k: K)
    requires Behaviour(b) && i < j && j + 1 < |b| && forall m :: i <= m <= j ==> NobodyStores(b[m], k)
    requires Leaves(b, i, t) && RemovesValue(b[i].threads[t], k)
    requires Leaves(b, j, t) && RemovesDeadline(b[j].threads[t], k)
    ensures k !in b[j + 1].data && k !in b[j + 1].exp
  {
    assert StepAt(b, i) && StepAt(b, j);
    assert k !in b[i + 1].data;
    StaysOut(b, i + 1, j + 1, k);
  }
}
