/** What the concurrent token cache can do, from every reached state: publish a written row, and drop an
    expired entry. */
module ConcurrentRuns {
  import opened Tokens
  import opened ConcurrentTokens
  import opened ConcurrentDeletes
  import M = ConcurrentTTL

  // A thread outside any call writes a row and publishes it; a Get returns it at any moment up to the ttl.
  lemma WrittenRowIsRead(ttl: int, b: seq<State>, t: int, row: Token, at: int) returns (b': seq<State>)
    requires Behaviour(ttl, b) && In(Last(b), t, Free, M.Idle) && Last(b).cells.now <= at <= Last(b).cells.now + ttl
    ensures Behaviour(ttl, b') && b <= b' && Last(b').table == Last(b).table[row.hash := row]
    ensures Has(Last(b'), t, row.hash, at, Copy(row, M.Stamp(|b| - 1, Last(b).cells.now)))
  {
    StepIsIndex(ttl, b, |b| - 1);
    BehaviourInv(ttl, b, |b| - 1);
    var c := Setting(row.hash, Copy(row, M.Stamp(|b| - 1, Last(b).cells.now)));
    var table := Last(b).table[row.hash := row];
    var b1 := Say(ttl, b, t, table, c);
    assert In(Last(b1), t, c, M.Idle);
    var b2 := Publishes(ttl, b1, t, c);
    b' := Reads(ttl, b2, t, row.hash, at);
    Further(ttl, b1, b2, b');
  }

  // A sweep by a thread outside any call drops an entry whose deadline has passed.
  lemma SweepDropsExpired(ttl: int, b: seq<State>, t: int, key: string) returns (b': seq<State>)
    requires Behaviour(ttl, b) && In(Last(b), t, Free, M.Idle)
    requires key in Last(b).cells.exp && Last(b).cells.exp[key].at < Last(b).cells.now
    ensures Continues(ttl, b, b')
    ensures Last(b').cells.data == Last(b).cells.data - {key} && Last(b').cells.exp == Last(b).cells.exp - {key}
  {
    var m := Last(b).cells;
    var b1 := Go(ttl, b, t, m.data, m.exp, M.SweepNext(m.now), Free, m.now);
    var b2 := Go(ttl, b1, t, m.data, m.exp, M.SweepValue(m.now, key, m.exp[key].at), Free, m.now);
    var b3 := Go(ttl, b2, t, m.data - {key}, m.exp, M.SweepDeadline(m.now, key), Free, m.now);
    b' := Go(ttl, b3, t, m.data - {key}, m.exp - {key}, M.SweepNext(m.now), Free, m.now);
    Further(ttl, b, b1, b2);
    Further(ttl, b, b2, b3);
    Further(ttl, b, b3, b');
  }
}
