/** The conflating sender: it keeps only the newest chunk and writes it at the next tick, or when an
    empty chunk ends the transfer. */
module Chunks {
  import opened Options

  // What the select yields, in order: a tick, or a chunk from the channel.
  datatype Select<T> = Tick | Received(v: T)

  // Returns what was written, and whether the transfer was ended by an empty chunk; one of the writes
  // may fail, and ends it too.
  method SendChunks<T(==)>(events: seq<Select<T>>, zero: T, writeFails: Option<nat>)
    returns (out: seq<T>, ended: bool, failed: bool)
    ensures failed <==> writeFails.Some? && writeFails.value < |Written(events, None, zero)|
    ensures failed ==> out == Written(events, None, zero)[..writeFails.value]
    ensures !failed ==> out == Written(events, None, zero) && (ended <==> Received(zero) in events)
  {
    out, ended, failed := [], false, false;
    var last: Option<T> := None;
    for i := 0 to |events|
      invariant out + Written(events[i..], last, zero) == Written(events, None, zero)
      invariant Received(zero) !in events[..i]
      invariant writeFails.Some? ==> |out| <= writeFails.value
    {
      assert events[i..][0] == events[i] && events[i..][1..] == events[i + 1..];
      match events[i] {
        case Tick =>
          if last.Some? {
            if writeFails == Some(|out|) {
              failed := true;
              return;
            }
            out := out + [last.value];
            last := None;
          }
        case Received(v) =>
          if v == zero {
            if last.Some? {
              if writeFails == Some(|out|) {
                failed := true;
                return;
              }
              out := out + [last.value];
            }
            ended := true;
            return;
          }
          last := Some(v);
      }
    }
  }

  ghost function Written<T>(events: seq<Select<T>>, last: Option<T>, zero: T): seq<T>
    decreases |events|
  {
    if events == [] then []
    else match events[0]
      case Tick => Pending(last) + Written(events[1..], None, zero)
      case Received(v) => if v == zero then Pending(last) else Written(events[1..], Some(v), zero)
  }

  function Pending<T>(last: Option<T>): seq<T> {
    if last.Some? then [last.value] else []
  }

  // The chunks that are followed at once by a tick or by the end: no newer one took their place.
  ghost function Newest<T>(events: seq<Select<T>>, zero: T): seq<T>
    decreases |events|
  {
    if |events| < 2 || events[0] == Received(zero) then []
    else
      (if events[0].Received? && (events[1].Tick? || events[1] == Received(zero)) then [events[0].v] else []) +
      Newest(events[1..], zero)
  }

  // The chunks that were received before the end, and the ticks.
  ghost function Chunks<T>(events: seq<Select<T>>, zero: T): seq<T>
    decreases |events|
  {
    if events == [] || events[0] == Received(zero) then []
    else (if events[0].Received? then [events[0].v] else []) + Chunks(events[1..], zero)
  }

  ghost function Ticks<T>(events: seq<Select<T>>, zero: T): nat
    decreases |events|
  {
    if events == [] || events[0] == Received(zero) then 0
    else (if events[0].Tick? then 1 else 0) + Ticks(events[1..], zero)
  }

  ghost predicate Subsequence<T>(a: seq<T>, b: seq<T>)
    decreases |b|
  {
    a == [] || (b != [] && ((a[0] == b[0] && Subsequence(a[1..], b[1..])) || Subsequence(a, b[1..])))
  }

  // What is written is exactly the chunks that no newer one replaced.
  lemma {:induction false} WritesTheNewest<T>(events: seq<Select<T>>, last: Option<T>, zero: T)
    requires last != Some(zero)
    ensures Written(events, last, zero) == Newest(if last.Some? then [Received(last.value)] + events else events, zero)
    decreases |events|
  {
    var all := if last.Some? then [Received(last.value)] + events else events;
    if events == [] {
    } else {
      var rest := events[1..];
      if last.Some? {
        assert all[1..] == events;
      }
      match events[0]
      case Tick =>
        WritesTheNewest(rest, None, zero);
        NewestAfterTick(events, zero);
      case Received(v) =>
        if v != zero {
          WritesTheNewest(rest, Some(v), zero);
          assert [Received(v)] + rest == events;
        }
    }
  }

  lemma NewestAfterTick<T>(events: seq<Select<T>>, zero: T)
    requires events != [] && events[0].Tick?
    ensures Newest(events, zero) == Newest(events[1..], zero)
  {
    if |events| < 2 {
      assert Newest(events[1..], zero) == [];
    }
  }

  lemma {:induction false} NewestIsSubsequence<T>(events: seq<Select<T>>, zero: T)
    ensures Subsequence(Newest(events, zero), Chunks(events, zero))
    decreases |events|
  {
    if |events| >= 2 && events[0] != Received(zero) {
      var rest := events[1..];
      NewestIsSubsequence(rest, zero);
      if events[0].Received? {
        assert Chunks(events, zero)[1..] == Chunks(rest, zero);
        if events[1].Tick? || events[1] == Received(zero) {
          assert Newest(events, zero)[1..] == Newest(rest, zero);
        } else {
          assert Newest(events, zero) == Newest(rest, zero);
        }
      } else {
        assert Newest(events, zero) == Newest(rest, zero) && Chunks(events, zero) == Chunks(rest, zero);
      }
    }
  }

  lemma {:induction false} AtMostOneEachTick<T>(events: seq<Select<T>>, zero: T)
    ensures |Newest(events, zero)| <= Ticks(events, zero) + if Received(zero) in events then 1 else 0
    decreases |events|
  {
    if |events| >= 2 && events[0] != Received(zero) {
      var rest := events[1..];
      assert Received(zero) in events <==> Received(zero) in rest;
      if events[0].Received? && rest[0].Tick? {
        NewestAfterTick(rest, zero);
        assert Received(zero) in rest <==> Received(zero) in rest[1..];
        AtMostOneEachTick(rest[1..], zero);
      } else {
        AtMostOneEachTick(rest, zero);
      }
    }
  }

  ghost function Last<T>(s: seq<T>): T
    requires s != []
  {
    s[|s| - 1]
  }

  // When the transfer has ended, the last chunk written is the last one received.
  lemma {:induction false} LastIsWritten<T>(events: seq<Select<T>>, zero: T)
    requires Received(zero) in events && Chunks(events, zero) != []
    ensures Newest(events, zero) != [] && Last(Newest(events, zero)) == Last(Chunks(events, zero))
    decreases |events|
  {
    var rest := events[1..];
    assert Received(zero) in rest && |events| >= 2;
    if Chunks(rest, zero) != [] {
      LastIsWritten(rest, zero);
      assert Last(Chunks(events, zero)) == Last(Chunks(rest, zero));
      assert Last(Newest(events, zero)) == Last(Newest(rest, zero));
    } else {
      assert Chunks(events, zero) == [events[0].v];
      NoChunksNothingNewest(rest, zero);
      assert rest[0].Tick? || rest[0] == Received(zero);
    }
  }

  lemma {:induction false} NoChunksNothingNewest<T>(events: seq<Select<T>>, zero: T)
    requires Chunks(events, zero) == []
    ensures Newest(events, zero) == []
    decreases |events|
  {
    if |events| >= 2 && events[0] != Received(zero) {
      NoChunksNothingNewest(events[1..], zero);
    }
  }

  // Without a failed write: a subsequence of the chunks received, at most one for each tick and one
  // more, and at the end the newest.
  lemma SenderConflates<T>(events: seq<Select<T>>, zero: T)
    ensures Written(events, None, zero) == Newest(events, zero)
    ensures Subsequence(Written(events, None, zero), Chunks(events, zero))
    ensures |Written(events, None, zero)| <= Ticks(events, zero) + 1
    ensures Received(zero) in events && Chunks(events, zero) != [] ==>
              && Written(events, None, zero) != []
              && Last(Written(events, None, zero)) == Last(Chunks(events, zero))
  {
    WritesTheNewest(events, None, zero);
    NewestIsSubsequence(events, zero);
    AtMostOneEachTick(events, zero);
    if Received(zero) in events && Chunks(events, zero) != [] {
      LastIsWritten(events, zero);
    }
  }
}
