/** The counting walk of the empty-directory removal: a pre-order visit of a tree whose callback
    counts, for each directory, the entries that the walk reached.

    A path is the list of its components below the top ("/" or "."), whose parent is itself. */
module DirWalk {
  type Path = seq<string>

  datatype Entry = File | Dir(mod: int)

  type Tree = map<Path, Entry>

  datatype Scan = Scan(root: Path, start: int, end: int)

  function Parent(p: Path): Path {
    if p == [] then p else p[..|p| - 1]
  }

  ghost predicate WellFormed(t: Tree) {
    && ([] in t ==> t[[]].Dir?)
    && (forall p {:trigger Parent(p)} :: p in t && p != [] ==> Parent(p) in t && t[Parent(p)].Dir?)
  }

  predicate OutOfRange(e: Entry, s: Scan) {
    e.Dir? && (e.mod < s.start || s.end < e.mod)
  }

  // The entries that the walk counts: it never descends into a directory that is out of range.
  predicate Visited(t: Tree, s: Scan, p: Path)
    decreases |p|
  {
    p in t && s.root <= p && (p == s.root || (!OutOfRange(t[p], s) && Visited(t, s, Parent(p))))
  }

  // A directory at which the walk turns back, before its parent counts it.
  predicate Skipped(t: Tree, s: Scan, p: Path) {
    p in t && s.root < p && OutOfRange(t[p], s) && Visited(t, s, Parent(p))
  }

  /******* Prefixes *******/

  lemma {:induction false} PrefixInTree(t: Tree, p: Path, q: Path)
    requires WellFormed(t) && q in t && p <= q
    ensures p in t && (p != q ==> t[p].Dir?)
    decreases |q|
  {
    if p != q {
      PrefixInTree(t, p, Parent(q));
    }
  }

  lemma {:induction false} PrefixVisited(t: Tree, s: Scan, p: Path, q: Path)
    requires Visited(t, s, q) && s.root <= p <= q
    ensures Visited(t, s, p)
    decreases |q|
  {
    if p != q {
      PrefixVisited(t, s, p, Parent(q));
    }
  }

  lemma Proper(p: Path, q: Path)
    requires p <= q && p != q
    ensures p < q
  {
    assert q == q[..|q|];
  }

  // The entry directly below d on the way to q.
  function Branch(d: Path, q: Path): Path
    requires d < q
  {
    q[..|d| + 1]
  }

  lemma BranchFacts(d: Path, q: Path)
    requires d < q
    ensures Branch(d, q) <= q && Branch(d, q) != [] && Parent(Branch(d, q)) == d && d < Branch(d, q)
  {
    assert Branch(d, q)[..|d|] == d;
  }

  /******* Counting *******/

  ghost function VisitedIn(t: Tree, t0: Tree, s: Scan): set<Path> {
    set p | p in t && Visited(t0, s, p)
  }

  ghost function Kids(v: set<Path>, d: Path): set<Path> {
    set c | c in v && c != [] && Parent(c) == d
  }

  // The key that the call adds first keeps the parent of the root from ever reaching zero.
  ghost function Tally(v: set<Path>, s: Scan, d: Path): nat {
    |Kids(v, d)| + if d == Parent(s.root) then 1 else 0
  }

  // The keys of the map: the guard, every directory visited below the root, and every parent.
  ghost predicate Tracked(t: Tree, s: Scan, v: set<Path>, d: Path) {
    || d == Parent(s.root)
    || (d in v && d in t && d != s.root && t[d].Dir?)
    || Kids(v, d) != {}
  }

  ghost predicate CountsMatch(t: Tree, s: Scan, v: set<Path>, count: map<Path, int>) {
    && (forall p :: p in v ==> p in t)
    && (forall d :: d in count <==> Tracked(t, s, v, d))
    && (forall d :: d in count ==> count[d] == Tally(v, s, d))
  }

  ghost predicate Closed(s: Scan, v: set<Path>) {
    forall c {:trigger Parent(c)} :: c in v ==> c == s.root || Parent(c) in v
  }

  function Bump(count: map<Path, int>, d: Path, delta: int): map<Path, int> {
    count[d := (if d in count then count[d] else 0) + delta]
  }

  lemma KidsAdd(v: set<Path>, p: Path, d: Path)
    requires p !in v
    ensures Kids(v + {p}, d) == if p != [] && Parent(p) == d then Kids(v, d) + {p} else Kids(v, d)
    ensures |Kids(v + {p}, d)| == |Kids(v, d)| + if p != [] && Parent(p) == d then 1 else 0
  {
    if p != [] && Parent(p) == d {
      assert Kids(v + {p}, d) == Kids(v, d) + {p};
    } else {
      assert Kids(v + {p}, d) == Kids(v, d);
    }
  }

  lemma NoKidsBefore(s: Scan, v: set<Path>, p: Path)
    requires Closed(s, v) && p !in v && s.root <= p
    ensures p != s.root ==> Kids(v, p) == {}
  {
    if p != s.root {
      forall c | c in v ensures !(c != [] && Parent(c) == p) {
        if c == s.root {
          assert |c| <= |p|;
        }
      }
    }
  }

  // What the callback does to the counts for an entry that it does not skip.
  function Counted(t: Tree, s: Scan, count: map<Path, int>, p: Path): map<Path, int>
    requires p in t
  {
    var c := if t[p].Dir? && p != s.root then count[p := 0] else count;
    if Parent(p) != p then Bump(c, Parent(p), 1) else c
  }

  lemma CountedMatches(t: Tree, s: Scan, v: set<Path>, count: map<Path, int>, p: Path)
    requires CountsMatch(t, s, v, count) && p in t && p !in v && s.root <= p && Closed(s, v)
    ensures CountsMatch(t, s, v + {p}, Counted(t, s, count, p))
  {
    var count' := Counted(t, s, count, p);
    NoKidsBefore(s, v, p);
    assert Parent(p) == p <==> p == [];
    forall d
      ensures d in count' <==> Tracked(t, s, v + {p}, d)
      ensures d in count' ==> count'[d] == Tally(v + {p}, s, d)
    {
      CountedMatchesAt(t, s, v, count, p, d);
    }
  }

  lemma CountedMatchesAt(t: Tree, s: Scan, v: set<Path>, count: map<Path, int>, p: Path, d: Path)
    requires p in t && p !in v && s.root <= p
    requires d in count <==> Tracked(t, s, v, d)
    requires d in count ==> count[d] == Tally(v, s, d)
    requires p != s.root ==> Kids(v, p) == {}
    ensures d in Counted(t, s, count, p) <==> Tracked(t, s, v + {p}, d)
    ensures d in Counted(t, s, count, p) ==> Counted(t, s, count, p)[d] == Tally(v + {p}, s, d)
  {
    KidsAdd(v, p, d);
    assert Parent(p) == p <==> p == [];
    if d == p {
      assert s.root <= d && p != s.root ==> |d| > |s.root|;
    }
  }

  // The part of the tree under p that the walk counts.
  ghost function Subtree(t: Tree, s: Scan, p: Path): set<Path> {
    set q | q in t && p <= q && Visited(t, s, q)
  }

  ghost function Size(t: Tree, p: Path): nat {
    |set q | q in t && p <= q|
  }

  lemma SizeDecreases(t: Tree, p: Path, q: Path)
    requires p in t && p < q
    ensures Size(t, q) < Size(t, p)
  {
    var a, b := set x | x in t && q <= x, set x | x in t && p <= x;
    assert a <= b;
    assert p in b && p !in a;
    assert a < b;
    SubsetSize(a, b);
  }

  lemma {:induction false} SubsetSize<X>(a: set<X>, b: set<X>)
    requires a < b
    ensures |a| < |b|
  {
    assert b == a + (b - a) && a !! (b - a);
    assert b - a != {};
  }

  // The entries at which the walk calls the callback.
  predicate Reached(t: Tree, s: Scan, p: Path) {
    p in t && s.root <= p && (p == s.root || Visited(t, s, Parent(p)))
  }

  ghost predicate Readable(t: Tree, s: Scan, unreadable: set<Path>, path: Path) {
    forall q :: q in unreadable && path <= q ==> !Reached(t, s, q)
  }

  // Only what lies below a directory out of the time range may be unreadable.
  lemma ReadableIff(t: Tree, s: Scan, unreadable: set<Path>)
    requires WellFormed(t)
    ensures Readable(t, s, unreadable, s.root) <==>
              forall q :: q in unreadable && q in t && s.root <= q ==>
                exists d :: s.root < d < q && Misdated(t, s, d)
  {
    forall q | q in t && s.root <= q
      ensures Reached(t, s, q) <==> !exists d :: s.root < d < q && Misdated(t, s, d)
    {
      ReachedIff(t, s, q);
    }
  }

  // A directory dated before the start or after the end.
  ghost predicate Misdated(t: Tree, s: Scan, d: Path) {
    d in t && t[d].Dir? && (t[d].mod < s.start || s.end < t[d].mod)
  }

  lemma {:induction false} VisitedIff(t: Tree, s: Scan, p: Path)
    requires WellFormed(t) && p in t && s.root <= p
    ensures Visited(t, s, p) <==> !exists d :: s.root < d <= p && Misdated(t, s, d)
    decreases |p|
  {
    if p != s.root {
      Proper(s.root, p);
      assert s.root <= Parent(p) && Parent(p) in t;
      VisitedIff(t, s, Parent(p));
      if Misdated(t, s, p) {
        assert s.root < p <= p;
      } else {
        forall d | Misdated(t, s, d) ensures s.root < d <= p <==> s.root < d <= Parent(p) {
          if d <= p {
            Proper(d, p);
          }
        }
      }
    }
  }

  lemma ReachedIff(t: Tree, s: Scan, p: Path)
    requires WellFormed(t) && p in t && s.root <= p
    ensures Reached(t, s, p) <==> !exists d :: s.root < d < p && Misdated(t, s, d)
  {
    if p != s.root {
      Proper(s.root, p);
      VisitedIff(t, s, Parent(p));
      forall d | Misdated(t, s, d) ensures d < p <==> d <= Parent(p) {
      }
    }
  }

  lemma UnreadableBelow(t: Tree, s: Scan, unreadable: set<Path>, p: Path, c: Path)
    requires p <= c && !Readable(t, s, unreadable, c)
    ensures !Readable(t, s, unreadable, p)
  {
    var q :| q in unreadable && c <= q && Reached(t, s, q);
    assert p <= q;
  }

  lemma ReadableAll(t: Tree, s: Scan, unreadable: set<Path>, p: Path)
    requires p !in unreadable
    requires forall q :: q in unreadable && p < q ==> !Reached(t, s, q)
    ensures Readable(t, s, unreadable, p)
  {
    forall q | q in unreadable && p <= q ensures !Reached(t, s, q) {
      Proper(p, q);
    }
  }

  // The recursive walk from path, threading the counts that the callback captures.  It fails at
  // the first entry that cannot be read.
  method Walk(t: Tree, s: Scan, unreadable: set<Path>, path: Path, count: map<Path, int>, ghost v: set<Path>)
    returns (ok: bool, count': map<Path, int>)
    requires WellFormed(t) && Reached(t, s, path)
    requires path == s.root || Parent(path) in v
    requires CountsMatch(t, s, v, count) && Closed(s, v)
    requires forall c :: c in v ==> !(path <= c)
    ensures ok ==> CountsMatch(t, s, v + Subtree(t, s, path), count')
    ensures ok <==> Readable(t, s, unreadable, path)
    decreases Size(t, path), 1
  {
    count' := count;
    if path in unreadable {
      assert path <= path;
      return false, count';
    }
    if t[path].Dir? && path != s.root {
      if t[path].mod < s.start || s.end < t[path].mod {
        SkippedSubtree(t, s, path);
        ReadableAll(t, s, unreadable, path);
        assert v + {} == v;
        return true, count';
      }
      count' := count'[path := 0];
    }
    var parentDir := Parent(path);
    if parentDir != path {
      count' := Bump(count', parentDir, 1);
    }
    CountedMatches(t, s, v, count, path);
    if t[path].File? {
      FileSubtree(t, s, path);
      ReadableAll(t, s, unreadable, path);
      return true, count';
    }
    ok, count' := WalkEntries(t, s, unreadable, path, count', v);
  }

  lemma SkippedSubtree(t: Tree, s: Scan, path: Path)
    requires path in t && OutOfRange(t[path], s) && s.root < path
    ensures Subtree(t, s, path) == {}
    ensures forall q :: path < q ==> !Reached(t, s, q)
  {
    forall q | path <= q && Visited(t, s, q) ensures false {
      PrefixVisited(t, s, path, q);
    }
  }

  lemma FileSubtree(t: Tree, s: Scan, path: Path)
    requires WellFormed(t) && path in t && t[path].File? && Visited(t, s, path)
    ensures Subtree(t, s, path) == {path}
    ensures forall q :: path < q ==> q !in t
  {
    forall q | path <= q && q in t ensures q == path {
      PrefixInTree(t, path, q);
    }
  }

  // The entries of a directory, in any order.
  method WalkEntries(t: Tree, s: Scan, unreadable: set<Path>, path: Path, count: map<Path, int>, ghost v: set<Path>)
    returns (ok: bool, count': map<Path, int>)
    requires WellFormed(t) && Visited(t, s, path) && path !in unreadable
    requires path == s.root || Parent(path) in v
    requires Closed(s, v) && (forall c :: c in v ==> !(path <= c))
    requires CountsMatch(t, s, v + {path}, count)
    ensures ok ==> CountsMatch(t, s, v + Subtree(t, s, path), count')
    ensures ok <==> Readable(t, s, unreadable, path)
    decreases Size(t, path), 0
  {
    count' := count;
    var names := set c | c in t && c != [] && Parent(c) == path;
    ghost var done := v + {path};
    FirstBranches(t, s, unreadable, path, v, names);
    while names != {}
      invariant Walking(t, s, unreadable, path, v, names, done)
      invariant CountsMatch(t, s, done, count')
      decreases names
    {
      var c :| c in names;
      NextBranch(t, s, unreadable, path, v, names, done, c);
      var more;
      more, count' := Walk(t, s, unreadable, c, count', done);
      if !more {
        UnreadableBelow(t, s, unreadable, path, c);
        return false, count';
      }
      done := done + Subtree(t, s, c);
      names := names - {c};
    }
    LastBranch(t, s, unreadable, path, v, done);
    return true, count';
  }

  // While path is walked: what has been visited, when the branches in names are still to come.
  ghost predicate DoneSoFar(t: Tree, s: Scan, path: Path, v: set<Path>, names: set<Path>, done: set<Path>) {
    forall q :: q in done <==> q in v || (q in Subtree(t, s, path) && (q == path || Branch(path, q) !in names))
  }

  ghost predicate Walking(t: Tree, s: Scan, unreadable: set<Path>, path: Path, v: set<Path>, names: set<Path>,
                          done: set<Path>)
  {
    && (forall c :: c in names ==> c in t && c != [] && Parent(c) == path)
    && DoneSoFar(t, s, path, v, names, done)
    && (forall q :: q in unreadable && path < q && Reached(t, s, q) ==> Branch(path, q) in names)
  }

  lemma FirstBranches(t: Tree, s: Scan, unreadable: set<Path>, path: Path, v: set<Path>, names: set<Path>)
    requires WellFormed(t) && Visited(t, s, path)
    requires forall c :: c in names <==> c in t && c != [] && Parent(c) == path
    ensures Walking(t, s, unreadable, path, v, names, v + {path})
  {
    forall q | q in t && path < q ensures Branch(path, q) in names {
      FirstBranch(t, path, q);
    }
    FirstDone(t, s, path, v, names);
  }

  lemma FirstBranch(t: Tree, path: Path, q: Path)
    requires WellFormed(t) && q in t && path < q
    ensures Branch(path, q) in t && Branch(path, q) != [] && Parent(Branch(path, q)) == path
  {
    BranchFacts(path, q);
    PrefixInTree(t, Branch(path, q), q);
  }

  lemma FirstDone(t: Tree, s: Scan, path: Path, v: set<Path>, names: set<Path>)
    requires Visited(t, s, path)
    requires forall q :: q in t && path < q ==> Branch(path, q) in names
    ensures DoneSoFar(t, s, path, v, names, v + {path})
  {
    forall q | q in Subtree(t, s, path) && q != path ensures path < q {
      Proper(path, q);
    }
  }

  lemma NextBranch(t: Tree, s: Scan, unreadable: set<Path>, path: Path, v: set<Path>, names: set<Path>,
                   done: set<Path>, c: Path)
    requires WellFormed(t) && Visited(t, s, path) && c in names
    requires path == s.root || Parent(path) in v
    requires Closed(s, v) && (forall q :: q in v ==> !(path <= q))
    requires Walking(t, s, unreadable, path, v, names, done)
    ensures path <= c && c != s.root && Parent(c) in done && Closed(s, done)
    ensures Reached(t, s, c) && Size(t, c) < Size(t, path)
    ensures forall q :: q in done ==> !(c <= q)
    ensures Readable(t, s, unreadable, c) ==>
              Walking(t, s, unreadable, path, v, names - {c}, done + Subtree(t, s, c))
  {
    assert path < c && Branch(path, c) == c;
    SizeDecreases(t, path, c);
    ClosedSoFar(t, s, path, v, names, done);
    forall q | c <= q ensures q !in done {
      assert path < q && Branch(path, q) == c;
    }
    WalkedBranch(t, s, path, v, names, done, c);
    if Readable(t, s, unreadable, c) {
      forall q | q in unreadable && path < q && Reached(t, s, q) ensures Branch(path, q) in names - {c} {
        BranchFacts(path, q);
      }
    }
  }

  lemma LastBranch(t: Tree, s: Scan, unreadable: set<Path>, path: Path, v: set<Path>, done: set<Path>)
    requires Visited(t, s, path) && path !in unreadable
    requires Walking(t, s, unreadable, path, v, {}, done)
    ensures done == v + Subtree(t, s, path) && Readable(t, s, unreadable, path)
  {
    ReadableAll(t, s, unreadable, path);
  }

  lemma ClosedSoFar(t: Tree, s: Scan, path: Path, v: set<Path>, names: set<Path>, done: set<Path>)
    requires path == s.root || Parent(path) in v
    requires Visited(t, s, path) && Closed(s, v) && DoneSoFar(t, s, path, v, names, done)
    ensures Closed(s, done)
  {
    forall q | q in done && q != s.root ensures Parent(q) in done {
      if q !in v && q != path {
        assert path < q;
        assert path <= Parent(q);
        assert q in Subtree(t, s, path);
        assert Visited(t, s, Parent(q));
        if Parent(q) != path {
          assert Branch(path, Parent(q)) == Branch(path, q);
        }
      }
    }
  }

  lemma WalkedBranch(t: Tree, s: Scan, path: Path, v: set<Path>, names: set<Path>, done: set<Path>, c: Path)
    requires c in names && path < c && |c| == |path| + 1
    requires DoneSoFar(t, s, path, v, names, done)
    ensures DoneSoFar(t, s, path, v, names - {c}, done + Subtree(t, s, c))
  {
    forall q
      ensures q in done + Subtree(t, s, c) <==>
              q in v || (q in Subtree(t, s, path) && (q == path || Branch(path, q) !in names - {c}))
    {
      if q in Subtree(t, s, c) {
        assert path < q && Branch(path, q) == c;
      } else if q in Subtree(t, s, path) && q != path && Branch(path, q) == c {
        assert c <= q;
      }
    }
  }
}
