/** The token table, as the map from primary key to row that the queries see. */
module TokenTable {
  import opened Options
  import opened Tokens

  type Table = map<int, Token>

  ghost predicate Proper(t: Table) {
    && (forall i :: i in t ==> t[i].id == i)
    && (forall i, j :: i in t && j in t && t[i].hash == t[j].hash ==> i == j)
  }

  // The rows that a query selects; a model with a primary key adds it as a condition.
  function Selected(t: Table, model: Token, opts: Token -> bool): set<int> {
    set i | i in t && opts(t[i]) && (model.id == 0 || model.id == i)
  }

  predicate IsLeast(s: set<int>, i: int) {
    i in s && forall j :: j in s ==> i <= j
  }

  lemma Member<T>(s: set<T>) returns (x: T)
    requires s != {}
    ensures x in s
  {
    x :| x in s;
  }

  lemma {:induction false} LeastExists(s: set<int>) returns (i: int)
    requires s != {}
    ensures IsLeast(s, i)
  {
    var x := Member(s);
    assert forall j :: j in s ==> j == x || j in s - {x};
    if s - {x} == {} {
      i := x;
    } else {
      var y := LeastExists(s - {x});
      i := if x < y then x else y;
    }
  }

  // The first row by primary key.
  ghost function First(t: Table, model: Token, opts: Token -> bool): (r: Option<Token>)
    ensures r.None? <==> Selected(t, model, opts) == {}
    ensures r.Some? ==> exists i :: i in Selected(t, model, opts) && IsLeast(Selected(t, model, opts), i) && r.value == t[i]
  {
    var s := Selected(t, model, opts);
    if s == {} then None
    else
      assert exists i :: i in s && IsLeast(s, i) by {
        var i := LeastExists(s);
      }
      var i :| i in s && IsLeast(s, i);
      Some(t[i])
  }

  function ToExpire(t: Table, scope: string, userID: string, now: int): set<int> {
    set i | i in t && t[i].scope == scope && t[i].userID == userID && t[i].expiredAt > now
  }

  function OfUser(t: Table, scope: string, userID: string): set<int> {
    set i | i in t && t[i].scope == scope && t[i].userID == userID
  }

  function ExpiredBefore(t: Table, before: int): set<int> {
    set i | i in t && t[i].expiredAt < before
  }

  // Like every update, this one stamps the rows that it changes.
  function WithReason(t: Table, s: set<int>, reason: string, stamp: int): Table {
    map i | i in t :: if i in s then t[i].(reason := reason, updatedAt := stamp) else t[i]
  }

  function HashesOf(t: Table, s: set<int>): set<string> {
    set i | i in s && i in t :: Hex(t[i].hash)
  }

  datatype Reply<T> = Done(value: T) | NotFound | Failed

  // Each call is one atomic statement.  Whether the database fails is an input, and a call that fails
  // leaves the table as it was.
  class TokenDB {
    var rows: Table

    method Get(model: Token, opts: Token -> bool, fails: bool) returns (r: Reply<Token>)
      ensures r == if fails then Failed
                   else match First(rows, model, opts) case Some(t) => Done(t) case None => NotFound
    {
      if fails {
        return Failed;
      }
      var s := Selected(rows, model, opts);
      if s == {} {
        return NotFound;
      }
      ghost var least := LeastExists(s);
      var i :| i in s && IsLeast(s, i);
      return Done(rows[i]);
    }

    // Creating a row gives it a primary key.
    method Create(model: Token, id: int, fails: bool) returns (r: Reply<Token>)
      requires id !in rows
      modifies this
      ensures r == if fails then Failed else Done(model.(id := id))
      ensures rows == if fails then old(rows) else old(rows)[id := model.(id := id)]
    {
      if fails {
        return Failed;
      }
      rows := rows[id := model.(id := id)];
      return Done(model.(id := id));
    }

    // Reads the first selected row for update, changes it and saves it under the primary key that it
    // has then: in place of the row with that key, or as a new row.
    method Update(model: Token, change: Token -> Token, opts: Token -> bool, stamp: int, newId: int, readFails: bool,
                  saveFails: bool) returns (r: Reply<Token>)
      requires newId !in rows
      modifies this
      ensures r.Failed? <==> readFails || (saveFails && First(old(rows), model, opts).Some?)
      ensures r.NotFound? <==> !readFails && First(old(rows), model, opts) == None
      ensures !r.Done? ==> rows == old(rows)
      ensures r.Done? ==> First(old(rows), model, opts).Some? &&
                          r.value == Changed(First(old(rows), model, opts).value, change, stamp, newId) &&
                          rows == old(rows)[r.value.id := r.value]
    {
      var found := Get(model, opts, readFails);
      if !found.Done? {
        return found;
      }
      if saveFails {
        return Failed;
      }
      var saved := Changed(found.value, change, stamp, newId);
      rows := rows[saved.id := saved];
      return Done(saved);
    }

    // Removes every selected row and returns one of them.
    method Delete(model: Token, opts: Token -> bool, fails: bool) returns (r: Reply<Option<Token>>)
      modifies this
      ensures if fails then r.Failed? && rows == old(rows) else r.Done?
      ensures r.Done? ==> rows == old(rows) - Selected(old(rows), model, opts)
      ensures r == Done(None) <==> !fails && Selected(old(rows), model, opts) == {}
      ensures r.Done? && r.value.Some? ==> exists i :: i in Selected(old(rows), model, opts) && r.value.value == old(rows)[i]
    {
      if fails {
        return Failed;
      }
      var s := Selected(rows, model, opts);
      if s == {} {
        return Done(None);
      }
      ghost var some := Member(s);
      var i :| i in s;
      r := Done(Some(rows[i]));
      rows := rows - s;
    }

    method Expire(scope: string, userID: string, reason: string, now: int, stamp: int, fails: bool)
      returns (r: Reply<seq<string>>)
      modifies this
      ensures if fails then r.Failed? && rows == old(rows) else r.Done?
      ensures r.Done? ==> rows == WithReason(old(rows), ToExpire(old(rows), scope, userID, now), reason, stamp) &&
                          HashesReturned(r.value, old(rows), ToExpire(old(rows), scope, userID, now))
    {
      if fails {
        return Failed;
      }
      var s := ToExpire(rows, scope, userID, now);
      var hashes := ReturnHashes(s);
      rows := WithReason(rows, s, reason, stamp);
      return Done(hashes);
    }

    method DeleteAllForUser(scope: string, userID: string, fails: bool) returns (r: Reply<seq<string>>)
      modifies this
      ensures if fails then r.Failed? && rows == old(rows) else r.Done?
      ensures r.Done? ==> rows == old(rows) - OfUser(old(rows), scope, userID) &&
                          HashesReturned(r.value, old(rows), OfUser(old(rows), scope, userID))
    {
      if fails {
        return Failed;
      }
      var s := OfUser(rows, scope, userID);
      var hashes := ReturnHashes(s);
      rows := rows - s;
      return Done(hashes);
    }

    method DeleteExpired(before: int, fails: bool) returns (r: Reply<seq<string>>)
      modifies this
      ensures if fails then r.Failed? && rows == old(rows) else r.Done?
      ensures r.Done? ==> rows == old(rows) - ExpiredBefore(old(rows), before) &&
                          HashesReturned(r.value, old(rows), ExpiredBefore(old(rows), before))
    {
      if fails {
        return Failed;
      }
      var s := ExpiredBefore(rows, before);
      var hashes := ReturnHashes(s);
      rows := rows - s;
      return Done(hashes);
    }

    // The rows a statement returns, in any order, with each hash in hexadecimal.
    method ReturnHashes(s: set<int>) returns (hashes: seq<string>)
      requires s <= rows.Keys
      ensures HashesReturned(hashes, rows, s)
    {
      hashes := [];
      var todo := s;
      while todo != {}
        invariant todo <= s
        invariant Elements(hashes) == HashesOf(rows, s - todo) && |hashes| == |s| - |todo|
        decreases todo
      {
        ghost var some := Member(todo);
        var i :| i in todo;
        assert s - (todo - {i}) == (s - todo) + {i};
        assert HashesOf(rows, (s - todo) + {i}) == HashesOf(rows, s - todo) + {Hex(rows[i].hash)};
        assert Elements(hashes + [Hex(rows[i].hash)]) == Elements(hashes) + {Hex(rows[i].hash)};
        hashes := hashes + [Hex(rows[i].hash)];
        todo := todo - {i};
      }
      assert s - todo == s;
    }
  }

  // One hash for each row.
  ghost predicate HashesReturned(hashes: seq<string>, t: Table, s: set<int>) {
    Elements(hashes) == HashesOf(t, s) && |hashes| == |s|
  }

  // A query finds the row with the lowest key among those that it selects, and the key that the model
  // holds, if any, is part of the condition.
  lemma FirstIsLowest(t: Table, model: Token, opts: Token -> bool)
    ensures First(t, model, opts) == None <==> forall i :: i in t && opts(t[i]) ==> model.id != 0 && model.id != i
    ensures First(t, model, opts).Some? ==> exists i ::
              && i in t && First(t, model, opts).value == t[i] && opts(t[i]) && (model.id == 0 || model.id == i)
              && forall j :: j in t && opts(t[j]) && (model.id == 0 || model.id == j) ==> i <= j
  {
    var s := Selected(t, model, opts);
    assert forall i :: i in s <==> i in t && opts(t[i]) && (model.id == 0 || model.id == i);
    if First(t, model, opts).Some? {
      var i :| i in s && IsLeast(s, i) && First(t, model, opts).value == t[i];
    }
  }

  function Elements(keys: seq<string>): set<string> {
    set k | k in keys
  }

  // The change of the caller and the time of the update; without a primary key, a new one.
  function Changed(r: Token, change: Token -> Token, stamp: int, newId: int): Token {
    var t := change(r).(updatedAt := stamp);
    if t.id == 0 then t.(id := newId) else t
  }
}
