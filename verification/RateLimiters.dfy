/** The per-identifier rate limiter: one token bucket for each identifier, kept in a map with
    expiry.  A hit does not renew the expiry, so a busy identifier gets a fresh bucket in the end. */
module RateLimiters {
  import opened Options
  import opened TTLMaps

  const THREE_MINUTES := 180_000_000_000

  // The standard token bucket: rate tokens for each unit of time, at most burst tokens.
  datatype Quota = Quota(rate: real, burst: nat)

  datatype Bucket = Bucket(tokens: real, last: int)

  // What flows into a bucket in a span of time; a clock that went back gives nothing.
  function Flow(q: Quota, time: int): real
    decreases time
  {
    if time <= 0 then 0.0 else q.rate + Flow(q, time - 1)
  }

  lemma {:induction false} FlowIsRate(q: Quota, time: nat)
    ensures Flow(q, time) == q.rate * time as real
  {
    if time > 0 {
      FlowIsRate(q, time - 1);
      assert q.rate * time as real == q.rate * (time - 1) as real + q.rate;
    }
  }

  // What n full buckets hold.
  function Bursts(q: Quota, n: nat): real {
    if n == 0 then 0.0 else q.burst as real + Bursts(q, n - 1)
  }

  lemma {:induction false} BurstsIsProduct(q: Quota, n: nat)
    ensures Bursts(q, n) == (q.burst * n) as real
  {
    if n > 0 {
      BurstsIsProduct(q, n - 1);
      assert q.burst * n == q.burst * (n - 1) + q.burst;
    }
  }

  function Full(q: Quota, now: int): Bucket {
    Bucket(q.burst as real, now)
  }

  function Level(q: Quota, k: Bucket, now: int): real {
    var level := k.tokens + Flow(q, now - k.last);
    if level > q.burst as real then q.burst as real else level
  }

  predicate Allowed(q: Quota, k: Bucket, now: int) {
    Level(q, k, now) >= 1.0
  }

  function Drawn(q: Quota, k: Bucket, now: int): Bucket {
    if Allowed(q, k, now) then Bucket(Level(q, k, now) - 1.0, now) else k
  }

  ghost predicate BucketOk(q: Quota, k: Bucket, now: int) {
    0.0 <= k.tokens <= q.burst as real && k.last <= now
  }

  /******* One request: a load, a load-or-store when it missed, and a draw *******/

  type Limiters = State<string, Bucket>

  // The three moments at which a request reads the clock.
  datatype Event = Request(id: string, load: int, store: int, draw: int) | Sweep(now: int)

  function Start(e: Event): int {
    if e.Request? then e.load else e.now
  }

  function End(e: Event): int {
    if e.Request? then e.draw else e.now
  }

  function Fetched(q: Quota, ttl: int, s: Limiters, id: string, load: int, store: int): Limiters {
    var s' := AfterLoad(s, id, load);
    if Found(s, id, load).Some? then s' else AfterLoadOrStore(s', id, Full(q, store), ttl, store)
  }

  function Serve(q: Quota, ttl: int, s: Limiters, e: Event): Limiters {
    match e
    case Sweep(now) => Swept(s, now)
    case Request(id, load, store, draw) =>
      var f := Fetched(q, ttl, s, id, load, store);
      if id in f.data then State(f.data[id := Drawn(q, f.data[id], draw)], f.exp) else f
  }

  predicate Passes(q: Quota, ttl: int, s: Limiters, e: Event)
    requires e.Request?
  {
    var f := Fetched(q, ttl, s, e.id, e.load, e.store);
    e.id in f.data && Allowed(q, f.data[e.id], e.draw)
  }

  class Limiter {
    const quota: Quota
    var bucket: Bucket

    constructor (q: Quota, now: int)
      ensures quota == q && bucket == Full(q, now)
    {
      quota, bucket := q, Full(q, now);
    }

    method Allow(now: int) returns (ok: bool)
      modifies this
      ensures ok <==> Allowed(quota, old(bucket), now)
      ensures bucket == Drawn(quota, old(bucket), now)
    {
      var elapsed := if now < bucket.last then 0 else now - bucket.last;
      FlowIsRate(quota, elapsed);
      assert Flow(quota, now - bucket.last) == Flow(quota, elapsed);
      var level := bucket.tokens + quota.rate * elapsed as real;
      if level > quota.burst as real {
        level := quota.burst as real;
      }
      ok := level >= 1.0;
      if ok {
        bucket := Bucket(level - 1.0, now);
      }
    }
  }

  class IDRateLimiter {
    const quota: Quota
    const ttl: int
    const cache: TTLMap<string, Limiter>

    constructor (q: Quota, ttl: int)
      ensures quota == q && this.ttl == if ttl == 0 then 3 * 60 * 1_000_000_000 else ttl
      ensures fresh(cache) && Valid() && Contents() == State(map[], map[])
    {
      quota := q;
      this.ttl := if ttl == 0 then THREE_MINUTES else ttl;
      cache := new TTLMap<string, Limiter>();
    }

    // No two identifiers share a limiter.
    ghost predicate Valid()
      reads this, cache, cache.data.Values
    {
      && KeysAgree(cache.Contents())
      && (forall id :: id in cache.data ==> cache.data[id].quota == quota)
      && (forall i, j :: i in cache.data && j in cache.data && i != j ==> cache.data[i] != cache.data[j])
    }

    ghost function Contents(): Limiters
      reads this, cache, cache.data.Values
    {
      State(map id | id in cache.data :: cache.data[id].bucket, cache.exp)
    }

    method Look(id: string, now: int) returns (v: Option<Limiter>)
      requires Valid()
      modifies cache
      ensures Valid() && cache.data.Values <= old(cache.data.Values)
      ensures Contents() == AfterLoad(old(Contents()), id, now)
      ensures v.Some? <==> Found(old(Contents()), id, now).Some?
      ensures if v.Some? then id in cache.data && cache.data[id] == v.value else id !in cache.data
    {
      v := cache.Load(id, now);
      assert cache.data == old(cache.data) || cache.data == old(cache.data) - {id};
    }

    method Add(id: string, store: int) returns (v: Limiter)
      requires Valid() && id !in cache.data
      modifies cache
      ensures Valid() && fresh(v) && cache.data.Values <= old(cache.data.Values) + {v}
      ensures cache.data == old(cache.data)[id := v]
      ensures Contents() == AfterLoadOrStore(old(Contents()), id, Full(quota, store), ttl, store)
    {
      var l := new Limiter(quota, store);
      var loaded;
      v, loaded := cache.LoadOrStore(id, l, ttl, store);
      assert cache.Contents() == AfterLoadOrStore(old(cache.Contents()), id, l, ttl, store);
      assert Contents().data == old(Contents()).data[id := Full(quota, store)];
    }

    method Fetch(id: string, load: int, store: int) returns (v: Limiter)
      requires Valid()
      modifies cache
      ensures Valid() && fresh(cache.data.Values - old(cache.data.Values))
      ensures id in cache.data && cache.data[id] == v
      ensures Contents() == Fetched(quota, ttl, old(Contents()), id, load, store)
    {
      var found := Look(id, load);
      if found.Some? {
        return found.value;
      }
      v := Add(id, store);
    }

    method Draw(id: string, v: Limiter, now: int) returns (ok: bool)
      requires Valid() && id in cache.data && cache.data[id] == v
      modifies v
      ensures Valid()
      ensures ok <==> Allowed(quota, old(v.bucket), now)
      ensures Contents() == old(State(Contents().data[id := Drawn(quota, v.bucket, now)], Contents().exp))
    {
      ok := v.Allow(now);
      assert forall i :: i in cache.data && i != id ==> cache.data[i].bucket == old(cache.data[i].bucket);
    }

    method Allow(id: string, load: int, store: int, draw: int) returns (ok: bool)
      requires Valid()
      modifies cache, cache.data.Values
      ensures Valid() && fresh(cache.data.Values - old(cache.data.Values))
      ensures Contents() == Serve(quota, ttl, old(Contents()), Request(id, load, store, draw))
      ensures ok <==> Passes(quota, ttl, old(Contents()), Request(id, load, store, draw))
    {
      var v := Fetch(id, load, store);
      ok := Draw(id, v, draw);
    }
  }

  /******* Runs *******/

  ghost predicate ClockRuns(t: int, run: seq<Event>)
    decreases |run|
  {
    run == [] || (
      && t <= Start(run[0])
      && (run[0].Request? ==> run[0].load <= run[0].store <= run[0].draw)
      && ClockRuns(End(run[0]), run[1..]))
  }

  // The requests of one identifier that pass, with a draw from lo to hi.
  function Passed(q: Quota, ttl: int, s: Limiters, run: seq<Event>, id: string, lo: int, hi: int): nat
    decreases |run|
  {
    if run == [] then 0
    else
      var e := run[0];
      var one := e.Request? && e.id == id && lo <= e.draw <= hi && Passes(q, ttl, s, e);
      (if one then 1 else 0) + Passed(q, ttl, Serve(q, ttl, s, e), run[1..], id, lo, hi)
  }

  ghost predicate Valid(q: Quota, s: Limiters, id: string, now: int) {
    && KeysAgree(s)
    && (id in s.data ==> BucketOk(q, s.data[id], now))
  }

  /******* The potential: what one identifier may still draw up to hi *******/

  // How many buckets can be created after d, more than ttl apart, up to hi.
  function Creations(ttl: int, d: int, hi: int): nat
    requires ttl > 0
  {
    if hi <= d then 0 else (hi - d - 1) / ttl + 1
  }

  function Later(a: int, b: int): int {
    if a < b then b else a
  }

  // The next bucket is created after this moment.
  function Deadline(s: Limiters, id: string, now: int): int {
    if id in s.exp then s.exp[id] else now - 1
  }

  // What a bucket can give from lo to hi.
  function Room(q: Quota, k: Bucket, lo: int, hi: int): real {
    if lo <= k.last then k.tokens + Flow(q, hi - k.last) else q.burst as real + Flow(q, hi - lo)
  }

  function Held(q: Quota, s: Limiters, id: string, now: int, lo: int, hi: int): real {
    if id in s.data then Room(q, s.data[id], lo, hi)
    else if now < lo then q.burst as real + Flow(q, hi - lo)
    else Flow(q, hi - now)
  }

  function Potential(q: Quota, ttl: int, s: Limiters, id: string, now: int, lo: int, hi: int): real
    requires ttl > 0
  {
    Held(q, s, id, now, lo, hi) +
    Bursts(q, Creations(ttl, Later(Deadline(s, id, now), lo - 1), hi))
  }

  lemma {:induction false} FlowAdds(q: Quota, a: int, b: int)
    requires 0 <= a && 0 <= b
    ensures Flow(q, a) + Flow(q, b) == Flow(q, a + b)
    decreases a
  {
    if a > 0 {
      FlowAdds(q, a - 1, b);
    }
  }

  lemma {:induction false} FlowGrows(q: Quota, a: int, b: int)
    requires q.rate > 0.0 && a <= b
    ensures 0.0 <= Flow(q, a) <= Flow(q, b)
    decreases b
  {
    if b > 0 {
      FlowGrows(q, if a < b then a else b - 1, b - 1);
      if a == b {
        FlowGrows(q, b - 1, b - 1);
      }
    }
  }

  lemma CreationsShrink(ttl: int, d: int, d': int, hi: int)
    requires ttl > 0 && d <= d'
    ensures Creations(ttl, d', hi) <= Creations(ttl, d, hi)
  {
    if d' < hi {
      DivGrows(hi - d' - 1, hi - d - 1, ttl);
    }
  }

  lemma MulGrows(a: int, b: int, n: int)
    requires n > 0 && a <= b
    ensures a * n <= b * n
  {
  }

  lemma DivGrows(a: int, b: int, n: int)
    requires n > 0 && a <= b
    ensures a / n <= b / n
  {
    if a / n > b / n {
      MulGrows(b / n + 1, a / n, n);
    }
  }

  // A creation at c uses one of those still possible.
  lemma CreationSpends(ttl: int, d: int, c: int, hi: int)
    requires ttl > 0 && d < c <= hi
    ensures Creations(ttl, c + ttl, hi) + 1 <= Creations(ttl, d, hi)
  {
    if c + ttl < hi {
      assert (hi - c - ttl - 1) / ttl == (hi - c - 1) / ttl - 1 by {
        DivShift(hi - c - 1, ttl);
      }
      DivGrows(hi - c - 1, hi - d - 1, ttl);
    } else {
      DivGrows(0, hi - d - 1, ttl);
    }
  }

  lemma DivShift(a: int, n: int)
    requires n > 0
    ensures (a - n) / n == a / n - 1
  {
    var k := a / n;
    assert a == k * n + a % n;
    assert a - n == (k - 1) * n + a % n;
    DivUnique(a - n, n, k - 1, a % n);
  }

  lemma DivUnique(a: int, n: int, k: int, m: int)
    requires n > 0 && a == k * n + m && 0 <= m < n
    ensures a / n == k
  {
    var d := a / n - k;
    assert d * n == m - a % n;
    if d >= 1 {
      MulGrows(1, d, n);
    }
    if d <= -1 {
      MulGrows(d, -1, n);
    }
  }

  /******* Every step stays within the potential *******/

  lemma DrawWithin(q: Quota, k: Bucket, now: int)
    requires BucketOk(q, k, now) && q.rate > 0.0
    ensures BucketOk(q, Drawn(q, k, now), now)
    ensures Drawn(q, k, now).tokens + (if Allowed(q, k, now) then 1.0 else 0.0)
         <= k.tokens + Flow(q, Drawn(q, k, now).last - k.last)
    ensures Drawn(q, k, now).tokens + (if Allowed(q, k, now) then 1.0 else 0.0) <= q.burst as real
  {
    FlowGrows(q, 0, now - k.last);
  }

  lemma RoomAfterDraw(q: Quota, k: Bucket, now: int, lo: int, hi: int)
    requires BucketOk(q, k, now) && q.rate > 0.0 && lo <= hi && now <= hi
    ensures Room(q, Drawn(q, k, now), lo, hi) + (if lo <= now && Allowed(q, k, now) then 1.0 else 0.0)
         <= Room(q, k, lo, hi)
  {
    DrawWithin(q, k, now);
    var k' := Drawn(q, k, now);
    FlowAdds(q, hi - now, now - k.last);
    if lo <= now {
      FlowGrows(q, hi - now, hi - lo);
    }
  }

  lemma FullRoom(q: Quota, store: int, lo: int, hi: int)
    requires q.rate > 0.0 && lo <= hi
    ensures Room(q, Full(q, store), lo, hi) == q.burst as real + Flow(q, hi - Later(store, lo))
  {
  }

  lemma {:induction false} SpendBurst(q: Quota, m: nat, n: nat)
    requires m <= n
    ensures 0.0 <= Bursts(q, m) <= Bursts(q, n)
    ensures m < n ==> q.burst as real + Bursts(q, m) <= Bursts(q, n)
    decreases n
  {
    if m < n {
      SpendBurst(q, m, n - 1);
    } else if m > 0 {
      SpendBurst(q, m - 1, n - 1);
    }
  }

  ghost predicate Window(q: Quota, ttl: int, lo: int, hi: int) {
    q.rate > 0.0 && ttl > 0 && lo <= hi
  }

  lemma RoomAtLeast(q: Quota, k: Bucket, now: int, lo: int, hi: int)
    requires q.rate > 0.0 && lo <= hi && BucketOk(q, k, now)
    ensures Flow(q, hi - Later(now, lo)) <= Room(q, k, lo, hi)
  {
    FlowGrows(q, hi - Later(now, lo), hi - Later(k.last, lo));
  }

  lemma PotentialNotNegative(q: Quota, ttl: int, s: Limiters, id: string, now: int, lo: int, hi: int)
    requires Window(q, ttl, lo, hi) && Valid(q, s, id, now) && now <= hi
    ensures 0.0 <= Potential(q, ttl, s, id, now, lo, hi)
  {
    FlowGrows(q, 0, hi - Later(now, lo));
    if id in s.data {
      RoomAtLeast(q, s.data[id], now, lo, hi);
    }
    SpendBurst(q, 0, Creations(ttl, Later(Deadline(s, id, now), lo - 1), hi));
  }

  // Time passing, a sweep, or another identifier's request gives nothing.
  lemma WaitStep(q: Quota, ttl: int, s: Limiters, s': Limiters, id: string, now: int, now': int, lo: int, hi: int)
    requires Window(q, ttl, lo, hi) && Valid(q, s, id, now) && now <= now' && KeysAgree(s')
    requires id in s'.data ==> id in s.data && s'.data[id] == s.data[id] && s'.exp[id] == s.exp[id]
    requires id in s.data && id !in s'.data ==> s.exp[id] < now'
    ensures Potential(q, ttl, s', id, now', lo, hi) <= Potential(q, ttl, s, id, now, lo, hi)
  {
    var d, d' := Later(Deadline(s, id, now), lo - 1), Later(Deadline(s', id, now'), lo - 1);
    CreationsShrink(ttl, d, d', hi);
    SpendBurst(q, Creations(ttl, d', hi), Creations(ttl, d, hi));
    if id !in s'.data {
      FlowGrows(q, hi - Later(now', lo), hi - Later(now, lo));
      if id in s.data {
        RoomAtLeast(q, s.data[id], now', lo, hi);
      }
    }
  }

  // A new bucket costs one of the creations still possible, unless it comes before the window.
  lemma NewBucket(q: Quota, ttl: int, s: Limiters, id: string, now: int, store: int, lo: int, hi: int)
    requires Window(q, ttl, lo, hi) && Valid(q, s, id, now) && now <= store <= hi
    requires Deadline(s, id, now) < store
    ensures Room(q, Full(q, store), lo, hi) + Bursts(q, Creations(ttl, Later(store + ttl, lo - 1), hi))
         <= Potential(q, ttl, s, id, now, lo, hi)
  {
    var d := Later(Deadline(s, id, now), lo - 1);
    FullRoom(q, store, lo, hi);
    if store < lo {
      CreationsShrink(ttl, d, Later(store + ttl, lo - 1), hi);
      SpendBurst(q, Creations(ttl, Later(store + ttl, lo - 1), hi), Creations(ttl, d, hi));
    } else {
      CreationSpends(ttl, d, store, hi);
      SpendBurst(q, Creations(ttl, store + ttl, hi), Creations(ttl, d, hi));
      FlowGrows(q, hi - store, hi - Later(now, lo));
      if id in s.data {
        RoomAtLeast(q, s.data[id], now, lo, hi);
      }
    }
  }

  lemma RequestStep(q: Quota, ttl: int, s: Limiters, e: Event, now: int, lo: int, hi: int)
    requires Window(q, ttl, lo, hi) && e.Request? && Valid(q, s, e.id, now)
    requires now <= e.load <= e.store <= e.draw <= hi
    ensures Valid(q, Serve(q, ttl, s, e), e.id, e.draw)
    ensures Potential(q, ttl, Serve(q, ttl, s, e), e.id, e.draw, lo, hi)
            + (if lo <= e.draw && Passes(q, ttl, s, e) then 1.0 else 0.0)
         <= Potential(q, ttl, s, e.id, now, lo, hi)
  {
    var f := Fetched(q, ttl, s, e.id, e.load, e.store);
    var k := f.data[e.id];
    RoomAfterDraw(q, k, e.draw, lo, hi);
    DrawWithin(q, k, e.draw);
    if Found(s, e.id, e.load).None? {
      assert k == Full(q, e.store) && f.exp[e.id] == e.store + ttl;
      NewBucket(q, ttl, s, e.id, now, e.store, lo, hi);
    }
  }

  lemma OtherStep(q: Quota, ttl: int, s: Limiters, e: Event, id: string, now: int, lo: int, hi: int)
    requires Window(q, ttl, lo, hi) && Valid(q, s, id, now) && now <= Start(e) <= End(e)
    requires e.Request? ==> e.id != id
    ensures Valid(q, Serve(q, ttl, s, e), id, End(e))
    ensures Potential(q, ttl, Serve(q, ttl, s, e), id, End(e), lo, hi) <= Potential(q, ttl, s, id, now, lo, hi)
  {
    WaitStep(q, ttl, s, Serve(q, ttl, s, e), id, now, End(e), lo, hi);
  }

  lemma {:induction false} NothingPassesLate(q: Quota, ttl: int, s: Limiters, run: seq<Event>, id: string, now: int,
                                             lo: int, hi: int)
    requires ClockRuns(now, run) && hi < now
    ensures Passed(q, ttl, s, run, id, lo, hi) == 0
    decreases |run|
  {
    if run != [] {
      NothingPassesLate(q, ttl, Serve(q, ttl, s, run[0]), run[1..], id, End(run[0]), lo, hi);
    }
  }

  lemma {:induction false} PassedWithin(q: Quota, ttl: int, s: Limiters, run: seq<Event>, id: string, now: int,
                                        lo: int, hi: int)
    requires Window(q, ttl, lo, hi) && Valid(q, s, id, now) && ClockRuns(now, run) && now <= hi
    ensures Passed(q, ttl, s, run, id, lo, hi) as real <= Potential(q, ttl, s, id, now, lo, hi)
    decreases |run|
  {
    PotentialNotNegative(q, ttl, s, id, now, lo, hi);
    if run != [] {
      var e := run[0];
      var s' := Serve(q, ttl, s, e);
      if hi < End(e) {
        NothingPassesLate(q, ttl, s', run[1..], id, End(e), lo, hi);
      } else {
        if e.Request? && e.id == id {
          RequestStep(q, ttl, s, e, now, lo, hi);
        } else {
          OtherStep(q, ttl, s, e, id, now, lo, hi);
        }
        PassedWithin(q, ttl, s', run[1..], id, End(e), lo, hi);
      }
    }
  }

  // In any window, an identifier passes at most the flow of the window and two bursts more than
  // the number of expiries that fit in it.
  lemma RateBound(q: Quota, ttl: int, t: int, run: seq<Event>, id: string, lo: int, width: nat)
    requires q.rate > 0.0 && ttl > 0 && ClockRuns(t, run)
    ensures Passed(q, ttl, State(map[], map[]), run, id, lo, lo + width) as real
         <= q.rate * width as real + (q.burst * (width / ttl + 2)) as real
  {
    var hi := lo + width;
    var s: Limiters := State(map[], map[]);
    var n := width / ttl;
    FlowGrows(q, 0, width);
    FlowIsRate(q, width);
    SpendBurst(q, 0, n + 2);
    BurstsIsProduct(q, n + 2);
    if t <= hi {
      PassedWithin(q, ttl, s, run, id, t, lo, hi);
      var d := Later(t - 1, lo - 1);
      CreationsShrink(ttl, lo - 1, d, hi);
      assert Creations(ttl, lo - 1, hi) == n + 1;
      FlowGrows(q, hi - Later(t, lo), width);
      SpendBurst(q, Creations(ttl, d, hi), n + 2);
    } else {
      NothingPassesLate(q, ttl, s, run, id, t, lo, hi);
    }
  }

  // A hit leaves the deadline where it was.
  lemma HitsDoNotProlong(q: Quota, ttl: int, s: Limiters, e: Event)
    requires KeysAgree(s) && e.Request? && Live(s, e.id, e.load)
    ensures Serve(q, ttl, s, e).exp == s.exp
  {
  }

  /******* What must pass *******/

  function Requests(run: seq<Event>, id: string): nat
    decreases |run|
  {
    if run == [] then 0
    else (if run[0].Request? && run[0].id == id then 1 else 0) + Requests(run[1..], id)
  }

  ghost predicate AllPass(q: Quota, ttl: int, s: Limiters, run: seq<Event>, id: string)
    decreases |run|
  {
    run == [] || (
      && (run[0].Request? && run[0].id == id ==> Passes(q, ttl, s, run[0]))
      && AllPass(q, ttl, Serve(q, ttl, s, run[0]), run[1..], id))
  }

  // A request from this moment on draws from a bucket with n tokens, or from a new one.
  ghost predicate Ready(q: Quota, s: Limiters, id: string, t: int, n: nat)
    requires KeysAgree(s)
  {
    n <= q.burst && (id in s.data ==> s.exp[id] < t || n as real <= Level(q, s.data[id], t))
  }

  lemma LevelGrows(q: Quota, k: Bucket, t: int, t': int)
    requires q.rate > 0.0 && t <= t'
    ensures Level(q, k, t) <= Level(q, k, t')
  {
    FlowGrows(q, t - k.last, t' - k.last);
  }

  lemma ServeKeepsReady(q: Quota, ttl: int, s: Limiters, e: Event, id: string, now: int, n: nat)
    requires q.rate > 0.0 && Valid(q, s, id, now) && now <= Start(e)
    requires e.Request? ==> e.load <= e.store <= e.draw
    requires Ready(q, s, id, now, n) && (e.Request? && e.id == id ==> 0 < n)
    ensures Valid(q, Serve(q, ttl, s, e), id, End(e))
    ensures e.Request? && e.id == id ==> Passes(q, ttl, s, e) && Ready(q, Serve(q, ttl, s, e), id, End(e), n - 1)
    ensures !(e.Request? && e.id == id) ==> Ready(q, Serve(q, ttl, s, e), id, End(e), n)
  {
    if e.Request? && e.id == id {
      var k := Fetched(q, ttl, s, id, e.load, e.store).data[id];
      FlowGrows(q, 0, e.draw - k.last);
      DrawWithin(q, k, e.draw);
      LevelGrows(q, k, now, e.draw);
    } else if id in s.data {
      LevelGrows(q, s.data[id], now, End(e));
    }
  }

  lemma {:induction false} ReadyPass(q: Quota, ttl: int, s: Limiters, run: seq<Event>, id: string, now: int, n: nat)
    requires q.rate > 0.0 && Valid(q, s, id, now) && ClockRuns(now, run)
    requires Ready(q, s, id, now, n) && Requests(run, id) <= n
    ensures AllPass(q, ttl, s, run, id)
    decreases |run|
  {
    if run != [] {
      var e := run[0];
      if id in s.data {
        LevelGrows(q, s.data[id], now, Start(e));
      }
      ServeKeepsReady(q, ttl, s, e, id, now, n);
      ReadyPass(q, ttl, Serve(q, ttl, s, e), run[1..], id, End(e), if e.Request? && e.id == id then n - 1 else n);
    }
  }

  // As many requests as the burst allows pass, however close together.
  lemma FirstBurstPasses(q: Quota, ttl: int, t: int, run: seq<Event>, id: string)
    requires q.rate > 0.0 && ClockRuns(t, run) && Requests(run, id) <= q.burst
    ensures AllPass(q, ttl, State(map[], map[]), run, id)
  {
    ReadyPass(q, ttl, State(map[], map[]), run, id, t, q.burst);
  }

  /******* Refilling *******/

  function ServeAll(q: Quota, ttl: int, s: Limiters, run: seq<Event>): Limiters
    decreases |run|
  {
    if run == [] then s else ServeAll(q, ttl, Serve(q, ttl, s, run[0]), run[1..])
  }

  // All of the run is over by this moment, and so are the identifier's draws by that one.
  ghost predicate OverBy(run: seq<Event>, id: string, d: int, t: int) {
    && (forall e :: e in run ==> End(e) <= t)
    && (forall e :: e in run && e.Request? && e.id == id ==> e.draw <= d)
  }

  lemma ServeKeepsValid(q: Quota, ttl: int, s: Limiters, e: Event, id: string, now: int)
    requires q.rate > 0.0 && Valid(q, s, id, now) && now <= Start(e)
    requires e.Request? ==> e.load <= e.store <= e.draw
    ensures Valid(q, Serve(q, ttl, s, e), id, End(e))
  {
    if e.Request? && e.id == id {
      DrawWithin(q, Fetched(q, ttl, s, id, e.load, e.store).data[id], e.draw);
    }
  }

  lemma {:induction false} DrewBy(q: Quota, ttl: int, s: Limiters, run: seq<Event>, id: string, now: int, d: int, t: int)
    requires q.rate > 0.0 && Valid(q, s, id, now) && ClockRuns(now, run) && now <= t && OverBy(run, id, d, t)
    requires id in s.data ==> s.data[id].last <= d
    ensures var s' := ServeAll(q, ttl, s, run); Valid(q, s', id, t) && (id in s'.data ==> s'.data[id].last <= d)
    decreases |run|
  {
    if run != [] {
      var e := run[0];
      ServeKeepsValid(q, ttl, s, e, id, now);
      DrewBy(q, ttl, Serve(q, ttl, s, e), run[1..], id, End(e), d, t);
    }
  }

  lemma Refilled(q: Quota, k: Bucket, d: int, t: int, n: nat)
    requires q.rate > 0.0 && 0.0 <= k.tokens && k.last <= d <= t
    requires n <= q.burst && n as real <= q.rate * (t - d) as real
    ensures n as real <= Level(q, k, t)
  {
    FlowGrows(q, t - d, t - k.last);
    FlowIsRate(q, t - d);
  }

  // After an idle time in which n tokens flow in, n requests pass, whatever came before.
  lemma IdleRefills(q: Quota, ttl: int, t0: int, before: seq<Event>, id: string, d: int, t: int, after: seq<Event>, n: nat)
    requires q.rate > 0.0 && ClockRuns(t0, before) && t0 <= t && OverBy(before, id, d, t) && ClockRuns(t, after)
    requires d <= t && n as real <= q.rate * (t - d) as real && n <= q.burst && Requests(after, id) <= n
    ensures AllPass(q, ttl, ServeAll(q, ttl, State(map[], map[]), before), after, id)
  {
    DrewBy(q, ttl, State(map[], map[]), before, id, t0, d, t);
    var s := ServeAll(q, ttl, State(map[], map[]), before);
    if id in s.data {
      Refilled(q, s.data[id], d, t, n);
    }
    ReadyPass(q, ttl, s, after, id, t, n);
  }

  // Each draw of the identifier comes after the one before by a time in which one token flows in.
  ghost predicate Spaced(q: Quota, run: seq<Event>, id: string, last: Option<int>)
    decreases |run|
  {
    run == [] ||
    (if run[0].Request? && run[0].id == id
     then (last.Some? ==> q.rate * (run[0].draw - last.value) as real >= 1.0) && Spaced(q, run[1..], id, Some(run[0].draw))
     else Spaced(q, run[1..], id, last))
  }

  lemma SpacedStep(q: Quota, ttl: int, s: Limiters, e: Event, now: int, last: Option<int>)
    requires q.rate > 0.0 && q.burst >= 1 && e.Request? && Valid(q, s, e.id, now)
    requires now <= e.load <= e.store <= e.draw
    requires e.id in s.data ==> last.Some? && s.data[e.id].last <= last.value
    requires last.Some? ==> last.value <= now && q.rate * (e.draw - last.value) as real >= 1.0
    ensures Passes(q, ttl, s, e)
    ensures var s' := Serve(q, ttl, s, e); e.id in s'.data && s'.data[e.id].last <= e.draw
  {
    var k := Fetched(q, ttl, s, e.id, e.load, e.store).data[e.id];
    if Found(s, e.id, e.load).Some? {
      Refilled(q, k, last.value, e.draw, 1);
    } else {
      FlowGrows(q, 0, e.draw - k.last);
    }
  }

  lemma {:induction false} SpacedFrom(q: Quota, ttl: int, s: Limiters, run: seq<Event>, id: string, now: int,
                                      last: Option<int>)
    requires q.rate > 0.0 && q.burst >= 1 && Valid(q, s, id, now) && ClockRuns(now, run) && Spaced(q, run, id, last)
    requires id in s.data ==> last.Some? && s.data[id].last <= last.value
    requires last.Some? ==> last.value <= now
    ensures AllPass(q, ttl, s, run, id)
    decreases |run|
  {
    if run != [] {
      var e := run[0];
      ServeKeepsValid(q, ttl, s, e, id, now);
      if e.Request? && e.id == id {
        SpacedStep(q, ttl, s, e, now, last);
        SpacedFrom(q, ttl, Serve(q, ttl, s, e), run[1..], id, End(e), Some(e.draw));
      } else {
        SpacedFrom(q, ttl, Serve(q, ttl, s, e), run[1..], id, End(e), last);
      }
    }
  }

  // Requests that keep to the rate all pass.
  lemma SpacedPass(q: Quota, ttl: int, t: int, run: seq<Event>, id: string)
    requires q.rate > 0.0 && q.burst >= 1 && ClockRuns(t, run) && Spaced(q, run, id, None)
    ensures AllPass(q, ttl, State(map[], map[]), run, id)
  {
    SpacedFrom(q, ttl, State(map[], map[]), run, id, t, None);
  }

  // The bucket made at the first request is dropped a ttl later, however it was used.
  lemma {:induction false} DeadlineStays(q: Quota, ttl: int, s: Limiters, run: seq<Event>, id: string, now: int, c: int,
                                         t: int)
    requires q.rate > 0.0 && Valid(q, s, id, now) && ClockRuns(now, run) && now <= t && OverBy(run, id, t, t)
    requires forall e :: e in run && e.Request? && e.id == id ==> e.load <= c
    requires if id in s.exp then s.exp[id] == c else c < now
    ensures var s' := ServeAll(q, ttl, s, run); Valid(q, s', id, t) && (id in s'.exp ==> s'.exp[id] == c)
    decreases |run|
  {
    if run != [] {
      var e := run[0];
      ServeKeepsValid(q, ttl, s, e, id, now);
      DeadlineStays(q, ttl, Serve(q, ttl, s, e), run[1..], id, End(e), c, t);
    }
  }

  lemma FreshAfterTtl(q: Quota, ttl: int, first: Event, before: seq<Event>, t: int, after: seq<Event>, id: string)
    requires q.rate > 0.0 && first.Request? && first.id == id && first.load <= first.store <= first.draw
    requires ClockRuns(first.draw, before) && first.draw <= t && OverBy(before, id, t, t) && ClockRuns(t, after)
    requires forall e :: e in before && e.Request? && e.id == id ==> e.load <= first.store + ttl
    requires first.store + ttl < t && Requests(after, id) <= q.burst
    ensures AllPass(q, ttl, ServeAll(q, ttl, Serve(q, ttl, State(map[], map[]), first), before), after, id)
  {
    var empty: Limiters := State(map[], map[]);
    ServeKeepsValid(q, ttl, empty, first, id, first.load);
    DeadlineStays(q, ttl, Serve(q, ttl, empty, first), before, id, first.draw, first.store + ttl, t);
    ReadyPass(q, ttl, ServeAll(q, ttl, Serve(q, ttl, empty, first), before), after, id, t, q.burst);
  }
}
