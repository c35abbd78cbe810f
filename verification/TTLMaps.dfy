/** A map with expiry, used by one caller at a time: it keeps values and deadlines in two maps. */
module TTLMaps {
  import opened Options

  datatype State<K, V> = State(data: map<K, V>, exp: map<K, int>)

  /******* What each operation does, as a function of the two maps and the clock *******/

  predicate Live<K, V>(s: State<K, V>, k: K, now: int) {
    k in s.exp && now <= s.exp[k]
  }

  function Remove<K, V>(s: State<K, V>, k: K): State<K, V> {
    State(s.data - {k}, s.exp - {k})
  }

  function StoreIn<K, V>(s: State<K, V>, k: K, v: V, ttl: int, now: int): State<K, V> {
    State(s.data[k := v], s.exp[k := now + ttl])
  }

  // An expired key is removed by the load that finds it.
  function AfterLoad<K, V>(s: State<K, V>, k: K, now: int): State<K, V> {
    if k in s.exp && now > s.exp[k] then Remove(s, k) else s
  }

  function Found<K, V>(s: State<K, V>, k: K, now: int): Option<V> {
    if Live(s, k, now) && k in s.data then Some(s.data[k]) else None
  }

  // The deadline is renewed before the value is looked at, whatever the old deadline was.
  function AfterLoadOrStore<K, V>(s: State<K, V>, k: K, v: V, ttl: int, now: int): State<K, V> {
    State(if k in s.data then s.data else s.data[k := v], s.exp[k := now + ttl])
  }

  function Expired<K, V>(s: State<K, V>, now: int): set<K> {
    set k | k in s.exp && now > s.exp[k]
  }

  function Swept<K, V>(s: State<K, V>, now: int): State<K, V> {
    State(s.data - Expired(s, now), s.exp - Expired(s, now))
  }

  class TTLMap<K(==), V> {
    var data: map<K, V>
    var exp: map<K, int>

    constructor ()
      ensures Contents() == State(map[], map[])
    {
      data, exp := map[], map[];
    }

    function Contents(): State<K, V>
      reads this
    {
      State(data, exp)
    }

    method Store(k: K, v: V, ttl: int, now: int)
      modifies this
      ensures Contents() == StoreIn(old(Contents()), k, v, ttl, now)
    {
      data := data[k := v];
      exp := exp[k := now + ttl];
    }

    method Load(k: K, now: int) returns (r: Option<V>)
      modifies this
      ensures Contents() == AfterLoad(old(Contents()), k, now)
      ensures r == Found(old(Contents()), k, now)
    {
      if k !in exp {
        return None;
      }
      if now > exp[k] {
        data := data - {k};
        exp := exp - {k};
        return None;
      }
      return if k in data then Some(data[k]) else None;
    }

    method LoadOrStore(k: K, v: V, ttl: int, now: int) returns (actual: V, loaded: bool)
      modifies this
      ensures Contents() == AfterLoadOrStore(old(Contents()), k, v, ttl, now)
      ensures loaded <==> k in old(data)
      ensures actual == if k in old(data) then old(data)[k] else v
    {
      exp := exp[k := now + ttl];
      if k in data {
        return data[k], true;
      }
      data := data[k := v];
      return v, false;
    }

    method Delete(k: K)
      modifies this
      ensures Contents() == Remove(old(Contents()), k)
    {
      data := data - {k};
      exp := exp - {k};
    }

    method Clear()
      modifies this
      ensures Contents() == State(map[], map[])
    {
      while data.Keys != {}
        invariant exp == old(exp)
        decreases data.Keys
      {
        var k :| k in data.Keys;
        data := data - {k};
      }
      while exp.Keys != {}
        invariant data == map[]
        decreases exp.Keys
      {
        var k :| k in exp.Keys;
        exp := exp - {k};
      }
    }

    // One tick of the cleanup: visits the deadlines in any order.
    method Sweep(now: int)
      modifies this
      ensures Contents() == Swept(old(Contents()), now)
    {
      var pending := exp.Keys;
      while pending != {}
        invariant pending <= exp.Keys
        invariant forall k :: k in old(exp) && k !in pending && now > old(exp)[k] ==> k !in exp
        invariant exp == old(exp) - (Expired(old(Contents()), now) - pending)
        invariant data == old(data) - (Expired(old(Contents()), now) - pending)
        decreases pending
      {
        var k :| k in pending;
        pending := pending - {k};
        if now > exp[k] {
          data := data - {k};
          exp := exp - {k};
        }
      }
    }
  }

  /******* Runs *******/

  datatype Op<K, V> =
    | Store(k: K, v: V, ttl: int)
    | Load(k: K)
    | LoadOrStore(k: K, v: V, ttl: int)
    | Delete(k: K)
    | Clear
    | Sweep

  datatype Event<K, V> = At(now: int, op: Op<K, V>)

  datatype Result<V> = Nothing | Loaded(found: Option<V>) | Actual(v: V, loaded: bool)

  function Step<K, V>(s: State<K, V>, e: Event<K, V>): State<K, V> {
    match e.op
    case Store(k, v, ttl) => StoreIn(s, k, v, ttl, e.now)
    case Load(k) => AfterLoad(s, k, e.now)
    case LoadOrStore(k, v, ttl) => AfterLoadOrStore(s, k, v, ttl, e.now)
    case Delete(k) => Remove(s, k)
    case Clear => State(map[], map[])
    case Sweep => Swept(s, e.now)
  }

  function Answer<K, V>(s: State<K, V>, e: Event<K, V>): Result<V> {
    match e.op
    case Load(k) => Loaded(Found(s, k, e.now))
    case LoadOrStore(k, v, _) => if k in s.data then Actual(s.data[k], true) else Actual(v, false)
    case _ => Nothing
  }

  // The answers of a run; the cleanup is nobody's call and gives none.
  function Answers<K, V>(s: State<K, V>, run: seq<Event<K, V>>): seq<Result<V>>
    decreases |run|
  {
    if run == [] then []
    else (if run[0].op.Sweep? then [] else [Answer(s, run[0])]) + Answers(Step(s, run[0]), run[1..])
  }

  ghost predicate ClockRuns<K, V>(t: int, run: seq<Event<K, V>>)
    decreases |run|
  {
    run == [] || (t <= run[0].now && ClockRuns(run[0].now, run[1..]))
  }

  predicate KeysAgree<K, V>(s: State<K, V>) {
    s.data.Keys == s.exp.Keys
  }

  /******* The ideal map: each key has a value and a deadline, and nothing is swept *******/

  datatype Slot<V> = Slot(value: V, deadline: int)

  type Ideal<K, V> = map<K, Slot<V>>

  function IdealStep<K, V>(m: Ideal<K, V>, e: Event<K, V>): Ideal<K, V> {
    match e.op
    case Store(k, v, ttl) => m[k := Slot(v, e.now + ttl)]
    case LoadOrStore(k, v, ttl) =>
      m[k := Slot(if k in m && e.now <= m[k].deadline then m[k].value else v, e.now + ttl)]
    case Delete(k) => m - {k}
    case Clear => map[]
    case _ => m
  }

  function IdealAnswer<K, V>(m: Ideal<K, V>, e: Event<K, V>): Result<V> {
    match e.op
    case Load(k) => Loaded(if k in m && e.now <= m[k].deadline then Some(m[k].value) else None)
    case LoadOrStore(k, v, _) =>
      if k in m && e.now <= m[k].deadline then Actual(m[k].value, true) else Actual(v, false)
    case _ => Nothing
  }

  function IdealAnswers<K, V>(m: Ideal<K, V>, run: seq<Event<K, V>>): seq<Result<V>>
    decreases |run|
  {
    if run == [] then []
    else (if run[0].op.Sweep? then [] else [IdealAnswer(m, run[0])]) + IdealAnswers(IdealStep(m, run[0]), run[1..])
  }

  // What is missing from the two maps is past its deadline in the ideal one.
  ghost predicate Refines<K(!new), V>(s: State<K, V>, m: Ideal<K, V>, now: int) {
    && KeysAgree(s)
    && (forall k :: k in s.data ==> k in m && m[k] == Slot(s.data[k], s.exp[k]))
    && (forall k :: k in m && k !in s.data ==> m[k].deadline < now)
  }

  // A LoadOrStore that finds a value whose deadline has passed and that no sweep or load removed.
  predicate Revives<K, V>(s: State<K, V>, e: Event<K, V>) {
    e.op.LoadOrStore? && e.op.k in s.data && !Live(s, e.op.k, e.now)
  }

  predicate RunRevives<K, V>(s: State<K, V>, run: seq<Event<K, V>>)
    decreases |run|
  {
    run != [] && (Revives(s, run[0]) || RunRevives(Step(s, run[0]), run[1..]))
  }

  lemma StepRefines<K(!new), V>(s: State<K, V>, m: Ideal<K, V>, t: int, e: Event<K, V>)
    requires Refines(s, m, t) && t <= e.now && !Revives(s, e)
    ensures Refines(Step(s, e), IdealStep(m, e), e.now)
    ensures Answer(s, e) == IdealAnswer(m, e)
  {
  }

  lemma SamePrefix<X>(p: seq<X>, a: seq<X>, b: seq<X>)
    ensures p + a == p + b <==> a == b
  {
    assert a == (p + a)[|p|..] && b == (p + b)[|p|..];
  }

  // The answers are those of the ideal map exactly when no expired value is revived.
  lemma {:induction false} AnswersIdealIffNothingRevived<K(!new), V>(s: State<K, V>, m: Ideal<K, V>, t: int,
                                                                      run: seq<Event<K, V>>)
    requires Refines(s, m, t) && ClockRuns(t, run)
    ensures Answers(s, run) == IdealAnswers(m, run) <==> !RunRevives(s, run)
    decreases |run|
  {
    if run != [] {
      var e := run[0];
      var a, b := Answers(s, run), IdealAnswers(m, run);
      if Revives(s, e) {
        assert a[0] == Answer(s, e) && b[0] == IdealAnswer(m, e);
      } else {
        StepRefines(s, m, t, e);
        AnswersIdealIffNothingRevived(Step(s, e), IdealStep(m, e), e.now, run[1..]);
        var prefix := if e.op.Sweep? then [] else [Answer(s, e)];
        assert a == prefix + Answers(Step(s, e), run[1..]);
        assert b == prefix + IdealAnswers(IdealStep(m, e), run[1..]);
        SamePrefix(prefix, Answers(Step(s, e), run[1..]), IdealAnswers(IdealStep(m, e), run[1..]));
      }
    }
  }

  function NoSweeps<K, V>(run: seq<Event<K, V>>): seq<Event<K, V>> {
    if run == [] then []
    else (if run[0].op.Sweep? then [] else [run[0]]) + NoSweeps(run[1..])
  }

  lemma {:induction false} IdealIgnoresSweeps<K, V>(m: Ideal<K, V>, run: seq<Event<K, V>>)
    ensures IdealAnswers(m, run) == IdealAnswers(m, NoSweeps(run))
    decreases |run|
  {
    if run != [] {
      IdealIgnoresSweeps(IdealStep(m, run[0]), run[1..]);
      if run[0].op.Sweep? {
        assert NoSweeps(run) == NoSweeps(run[1..]);
        assert IdealAnswers(m, run) == IdealAnswers(m, run[1..]);
      } else {
        assert NoSweeps(run)[1..] == NoSweeps(run[1..]);
      }
    }
  }

  // Runs that differ only in their sweeps give the same answers, if neither revives a value; a run
  // without LoadOrStore cannot.
  lemma SweepsUnobservable<K(!new), V>(t: int, run: seq<Event<K, V>>, run': seq<Event<K, V>>)
    requires ClockRuns(t, run) && ClockRuns(t, run') && NoSweeps(run) == NoSweeps(run')
    requires !RunRevives(State(map[], map[]), run) && !RunRevives(State(map[], map[]), run')
    ensures Answers(State(map[], map[]), run) == Answers(State(map[], map[]), run')
  {
    var s: State<K, V> := State(map[], map[]);
    AnswersIdealIffNothingRevived(s, map[], t, run);
    AnswersIdealIffNothingRevived(s, map[], t, run');
    IdealIgnoresSweeps(map[], run);
    IdealIgnoresSweeps(map[], run');
  }

  lemma {:induction false} NoLoadOrStoreNothingRevived<K, V>(s: State<K, V>, run: seq<Event<K, V>>)
    requires forall i :: 0 <= i < |run| ==> !run[i].op.LoadOrStore?
    ensures !RunRevives(s, run)
    decreases |run|
  {
    if run != [] {
      NoLoadOrStoreNothingRevived(Step(s, run[0]), run[1..]);
    }
  }

  // With LoadOrStore a sweep can be seen.
  lemma SweepObservable()
    ensures var store: Event<int, int> := At(0, Store(7, 1, 1));
            var sweep: Event<int, int> := At(5, Sweep);
            var again: Event<int, int> := At(6, LoadOrStore(7, 2, 1));
            && Answers(State(map[], map[]), [store, again]) == [Nothing, Actual(1, true)]
            && Answers(State(map[], map[]), [store, sweep, again]) == [Nothing, Actual(2, false)]
  {
    var store: Event<int, int> := At(0, Store(7, 1, 1));
    var sweep: Event<int, int> := At(5, Sweep);
    var again: Event<int, int> := At(6, LoadOrStore(7, 2, 1));
    var s: State<int, int> := Step(State(map[], map[]), store);
    assert s == State(map[7 := 1], map[7 := 1]);
    assert [store, again][1..] == [again] && [store, sweep, again][1..] == [sweep, again];
    assert [sweep, again][1..] == [again] && [again][1..] == [];
    assert Step(s, sweep) == State(map[], map[]);
    assert Answers(s, [again]) == [Actual(1, true)];
    assert Answers(State(map[], map[]), [again]) == [Actual(2, false)];
    assert Answers(s, [sweep, again]) == [Actual(2, false)];
  }

  // A load removes the expired value that it finds: a later LoadOrStore cannot revive it.
  lemma ExpiredLoadRemoves()
    ensures var store: Event<int, int> := At(0, Store(7, 1, 1));
            var load: Event<int, int> := At(5, Load(7));
            var again: Event<int, int> := At(6, LoadOrStore(7, 2, 1));
            Answers(State(map[], map[]), [store, load, again]) == [Nothing, Loaded(None), Actual(2, false)]
  {
    var store: Event<int, int> := At(0, Store(7, 1, 1));
    var load: Event<int, int> := At(5, Load(7));
    var again: Event<int, int> := At(6, LoadOrStore(7, 2, 1));
    var s: State<int, int> := Step(State(map[], map[]), store);
    assert s == State(map[7 := 1], map[7 := 1]);
    assert Step(s, load) == State(map[], map[]);
    assert [store, load, again][1..] == [load, again] && [load, again][1..] == [again] && [again][1..] == [];
    assert Answers(State(map[], map[]), [again]) == [Actual(2, false)];
    assert Answers(s, [load, again]) == [Loaded(None)] + Answers(State(map[], map[]), [again]);
  }

  function After<K, V>(s: State<K, V>, run: seq<Event<K, V>>): State<K, V>
    decreases |run|
  {
    if run == [] then s else After(Step(s, run[0]), run[1..])
  }

  // Whatever is called, every value has a deadline and every deadline a value.
  lemma {:induction false} RunsKeepKeys<K, V>(s: State<K, V>, run: seq<Event<K, V>>)
    requires KeysAgree(s)
    ensures KeysAgree(After(s, run))
    decreases |run|
  {
    if run != [] {
      assert KeysAgree(Step(s, run[0]));
      RunsKeepKeys(Step(s, run[0]), run[1..]);
    }
  }
}
