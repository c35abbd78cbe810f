/** Removal of empty directories: a worklist over the counts that the walk left, held in a map
    whose iteration order is arbitrary and whose entries change while it is iterated. */
module EmptyDirs {
  import opened Options
  import opened DirWalk

  ghost predicate HasFile(t: Tree, d: Path) {
    exists f :: f in t && t[f].File? && d <= f
  }

  ghost predicate HasVisitedFile(t: Tree, s: Scan, d: Path) {
    exists f :: Visited(t, s, f) && t[f].File? && d <= f
  }

  ghost predicate HasVisitedEntry(t: Tree, s: Scan) {
    exists c :: Visited(t, s, c) && c != s.root
  }

  // The directories whose count reaches zero.
  ghost predicate Removable(t: Tree, s: Scan, d: Path) {
    && Visited(t, s, d)
    && t[d].Dir?
    && !HasVisitedFile(t, s, d)
    && (d == s.root ==> s.root != [] && HasVisitedEntry(t, s))
  }

  ghost predicate UnderRemovable(t: Tree, s: Scan, p: Path) {
    exists d :: Removable(t, s, d) && d <= p
  }

  // What an uncancelled call leaves behind.
  ghost function Swept(t: Tree, s: Scan): Tree {
    map p | p in t && !UnderRemovable(t, s, p) :: t[p]
  }

  /******* The worklist as a transition system *******/

  datatype State = State(t: Tree, count: map<Path, int>)

  ghost predicate IsPart(a: Tree, b: Tree) {
    forall p :: p in a ==> p in b && a[p] == b[p]
  }

  function Without(t: Tree, d: Path): Tree {
    map p | p in t && !(d <= p) :: t[p]
  }

  // Removing a directory, dropping its key and taking one from its parent's count.
  function RemoveDir(a: State, d: Path): State {
    var count := map k | k in a.count && k != d :: a.count[k];
    State(Without(a.t, d), if Parent(d) != d then Bump(count, Parent(d), -1) else count)
  }

  ghost predicate Step(a: State, b: State) {
    exists d :: d in a.count && a.count[d] == 0 && b == RemoveDir(a, d)
  }

  ghost predicate Initial(t0: Tree, s: Scan, a: State) {
    s.root in t0 && a.t == t0 && CountsMatch(t0, s, VisitedIn(t0, t0, s), a.count)
  }

  // What holds of every intermediate state, starting from the tree t0.
  ghost predicate Inv(t0: Tree, s: Scan, a: State) {
    && Survives(t0, a.t)
    && CountsSurvivors(t0, s, a)
    && s.root in t0
    && (forall d :: Tracked(t0, s, VisitedIn(t0, t0, s), d) && d !in a.count ==> d !in a.t)
    && (forall p :: p in t0 && p !in a.t ==> UnderRemovable(t0, s, p))
  }

  ghost predicate Survives(t0: Tree, t: Tree) {
    WellFormed(t0) && WellFormed(t) && IsPart(t, t0)
  }

  // Each count is the number of counted entries that are left, plus the guard.
  ghost predicate CountsSurvivors(t0: Tree, s: Scan, a: State) {
    var alive := VisitedIn(a.t, t0, s);
    && (forall d :: d in a.count ==> Tracked(t0, s, VisitedIn(t0, t0, s), d))
    && (forall d :: d in a.count ==> a.count[d] == Tally(alive, s, d))
    && (forall d :: d in a.count && s.root <= d ==> d in a.t)
    && (forall p :: p in alive && p != [] ==> Parent(p) in a.count)
  }

  lemma TrackedVisited(t0: Tree, s: Scan, d: Path)
    requires WellFormed(t0) && s.root in t0 && s.root <= d
    requires Tracked(t0, s, VisitedIn(t0, t0, s), d)
    ensures Visited(t0, s, d) && t0[d].Dir?
  {
    var v := VisitedIn(t0, t0, s);
    if d == Parent(s.root) {
      assert |d| >= |s.root|;
      assert d == s.root;
    } else if Kids(v, d) != {} {
      var c :| c in Kids(v, d);
      assert c != s.root;
    }
  }

  lemma InitialInv(t0: Tree, s: Scan, a: State)
    requires WellFormed(t0) && Initial(t0, s, a)
    ensures Inv(t0, s, a)
  {
    var v := VisitedIn(t0, t0, s);
    forall d | d in a.count && s.root <= d ensures d in a.t {
      TrackedVisited(t0, s, d);
    }
    forall p | p in v && p != [] ensures Parent(p) in a.count {
      assert p in Kids(v, Parent(p));
    }
  }

  lemma ZeroCountIsDir(t0: Tree, s: Scan, a: State, d: Path)
    requires Inv(t0, s, a) && d in a.count && a.count[d] == 0
    ensures d != [] && Visited(t0, s, d) && t0[d].Dir? && d in a.t && Parent(d) in a.count
    ensures d == s.root ==> HasVisitedEntry(t0, s)
    ensures Kids(VisitedIn(a.t, t0, s), d) == {}
  {
    var v := VisitedIn(t0, t0, s);
    assert d != Parent(s.root);
    if !(d in v && d != s.root && t0[d].Dir?) {
      var c :| c in Kids(v, d);
      assert c != s.root;
      assert Visited(t0, s, d);
    }
  }

  // A directory whose count is zero has no counted entry left below it.
  lemma ZeroCountIsRemovable(t0: Tree, s: Scan, a: State, d: Path)
    requires Inv(t0, s, a) && d in a.count && a.count[d] == 0
    ensures Removable(t0, s, d)
    ensures forall q :: q in a.t && d < q ==> !Visited(t0, s, q)
  {
    ZeroCountIsDir(t0, s, a, d);
    forall q | q in a.t && d < q ensures !Visited(t0, s, q) {
      if Visited(t0, s, q) {
        BranchIsKid(t0, s, a.t, d, q);
      }
    }
    forall f | Visited(t0, s, f) && t0[f].File? ensures !(d <= f) {
      FileSurvives(t0, s, a, f);
      if d <= f {
        Proper(d, f);
      }
    }
  }

  lemma BranchIsKid(t0: Tree, s: Scan, t: Tree, d: Path, q: Path)
    requires Survives(t0, t) && s.root <= d < q && q in t && Visited(t0, s, q)
    ensures Branch(d, q) in Kids(VisitedIn(t, t0, s), d)
  {
    BranchFacts(d, q);
    PrefixInTree(t, Branch(d, q), q);
    PrefixVisited(t0, s, Branch(d, q), q);
  }

  lemma FileSurvives(t0: Tree, s: Scan, a: State, f: Path)
    requires Inv(t0, s, a) && Visited(t0, s, f) && t0[f].File?
    ensures f in a.t
  {
  }

  lemma StepKeepsInv(t0: Tree, s: Scan, a: State, d: Path)
    requires Inv(t0, s, a) && d in a.count && a.count[d] == 0
    ensures Inv(t0, s, RemoveDir(a, d))
  {
    var b := RemoveDir(a, d);
    ZeroCountIsDir(t0, s, a, d);
    ZeroCountIsRemovable(t0, s, a, d);
    StepSurvives(t0, a, d);
    StepCounts(t0, s, a, d);
    forall p | p in t0 && p !in b.t ensures UnderRemovable(t0, s, p) {
      if p in a.t {
        assert d <= p;
      }
    }
  }

  lemma StepSurvives(t0: Tree, a: State, d: Path)
    requires Survives(t0, a.t) && d != []
    ensures Survives(t0, Without(a.t, d))
  {
    forall p | p in Without(a.t, d) && p != [] ensures Parent(p) in Without(a.t, d) {
      assert d <= Parent(p) ==> d <= p;
    }
  }

  lemma StepAlive(t0: Tree, s: Scan, t: Tree, d: Path)
    requires Visited(t0, s, d) && d in t
    requires forall q :: q in t && d < q ==> !Visited(t0, s, q)
    ensures d !in VisitedIn(Without(t, d), t0, s)
    ensures VisitedIn(t, t0, s) == VisitedIn(Without(t, d), t0, s) + {d}
  {
    forall q | q in t && Visited(t0, s, q) && q != d ensures !(d <= q) {
      if d <= q {
        Proper(d, q);
      }
    }
  }

  lemma StepTally(s: Scan, a: State, alive: set<Path>, alive': set<Path>, d: Path, x: Path)
    requires d != [] && d !in alive' && alive == alive' + {d}
    requires x in a.count && a.count[x] == Tally(alive, s, x)
    requires x in RemoveDir(a, d).count && Parent(d) in a.count
    ensures RemoveDir(a, d).count[x] == Tally(alive', s, x)
  {
    KidsAdd(alive', d, x);
  }

  lemma RemoveDirKeys(a: State, d: Path)
    requires d != Parent(d) && Parent(d) in a.count
    ensures RemoveDir(a, d).count.Keys == a.count.Keys - {d}
  {
  }

  lemma StepTallies(s: Scan, a: State, alive: set<Path>, alive': set<Path>, d: Path)
    requires d != [] && d !in alive' && alive == alive' + {d} && Parent(d) in a.count
    requires forall x :: x in a.count ==> a.count[x] == Tally(alive, s, x)
    ensures forall x :: x in RemoveDir(a, d).count ==> RemoveDir(a, d).count[x] == Tally(alive', s, x)
  {
    RemoveDirKeys(a, d);
    forall x | x in RemoveDir(a, d).count ensures RemoveDir(a, d).count[x] == Tally(alive', s, x) {
      StepTally(s, a, alive, alive', d, x);
    }
  }

  lemma StepParents(a: State, alive: set<Path>, alive': set<Path>, d: Path)
    requires d != [] && alive' <= alive && Parent(d) in a.count && Kids(alive, d) == {}
    requires forall p :: p in alive && p != [] ==> Parent(p) in a.count
    ensures forall p :: p in alive' && p != [] ==> Parent(p) in RemoveDir(a, d).count
  {
    RemoveDirKeys(a, d);
    forall p | p in alive' && p != [] ensures Parent(p) in RemoveDir(a, d).count {
      assert p !in Kids(alive, d);
    }
  }

  lemma StepPresent(t0: Tree, s: Scan, a: State, d: Path, x: Path)
    requires Inv(t0, s, a) && x in a.count && x != d && s.root <= x
    requires VisitedIn(a.t, t0, s) == VisitedIn(Without(a.t, d), t0, s) + {d}
    ensures x in Without(a.t, d)
  {
    TrackedVisited(t0, s, x);
    assert x in VisitedIn(a.t, t0, s);
  }

  lemma StepCounts(t0: Tree, s: Scan, a: State, d: Path)
    requires Inv(t0, s, a) && d in a.count && a.count[d] == 0
    requires d != [] && Visited(t0, s, d) && d in a.t && Parent(d) in a.count
    requires Kids(VisitedIn(a.t, t0, s), d) == {}
    requires forall q :: q in a.t && d < q ==> !Visited(t0, s, q)
    ensures CountsSurvivors(t0, s, RemoveDir(a, d))
  {
    var alive, alive' := VisitedIn(a.t, t0, s), VisitedIn(Without(a.t, d), t0, s);
    StepAlive(t0, s, a.t, d);
    StepTallies(s, a, alive, alive', d);
    StepParents(a, alive, alive', d);
    RemoveDirKeys(a, d);
    forall x | x in RemoveDir(a, d).count && s.root <= x ensures x in Without(a.t, d) {
      StepPresent(t0, s, a, d, x);
    }
  }

  /******* Where the worklist ends *******/

  // With no zero count left, every surviving directory but the guard leads down to a file.
  lemma {:induction false} SurvivorHasFile(t0: Tree, s: Scan, a: State, d: Path)
    requires Inv(t0, s, a) && (forall k :: k in a.count ==> a.count[k] != 0)
    requires d in a.count && d in a.t && Visited(t0, s, d) && d != Parent(s.root)
    ensures HasVisitedFile(t0, s, d)
    decreases Size(t0, d)
  {
    var alive := VisitedIn(a.t, t0, s);
    assert Kids(alive, d) != {};
    var c :| c in Kids(alive, d);
    assert d < c;
    if t0[c].Dir? {
      SizeDecreases(t0, d, c);
      assert c != s.root && Tracked(t0, s, VisitedIn(t0, t0, s), c);
      SurvivorHasFile(t0, s, a, c);
      var f :| Visited(t0, s, f) && t0[f].File? && c <= f;
      assert d <= f;
    }
  }

  lemma RemovableIsTracked(t0: Tree, s: Scan, d: Path)
    requires WellFormed(t0) && Removable(t0, s, d)
    ensures d != Parent(s.root) && Tracked(t0, s, VisitedIn(t0, t0, s), d)
  {
    if d == s.root {
      var c :| Visited(t0, s, c) && c != s.root;
      Proper(s.root, c);
      assert Survives(t0, t0);
      BranchIsKid(t0, s, t0, d, c);
    } else {
      assert |d| >= |s.root|;
    }
  }

  // The result does not depend on the order in which the keys were taken.
  lemma SettledIsSwept(t0: Tree, s: Scan, a: State)
    requires Inv(t0, s, a) && (forall k :: k in a.count ==> a.count[k] != 0)
    ensures a.t == Swept(t0, s)
  {
    forall p | p in a.t ensures !UnderRemovable(t0, s, p) {
      if UnderRemovable(t0, s, p) {
        var d :| Removable(t0, s, d) && d <= p;
        PrefixInTree(a.t, d, p);
        RemovableIsTracked(t0, s, d);
        SurvivorHasFile(t0, s, a, d);
      }
    }
  }

  /******* Every run *******/

  ghost predicate Run(t0: Tree, s: Scan, run: seq<State>) {
    && run != []
    && Initial(t0, s, run[0])
    && (forall i: nat :: i + 1 < |run| ==> StepAt(run, i))
  }

  ghost predicate StepAt(run: seq<State>, i: nat)
    requires i + 1 < |run|
  {
    Step(run[i], run[i + 1])
  }

  lemma AnyStepKeepsInv(t0: Tree, s: Scan, a: State, b: State)
    requires Inv(t0, s, a) && Step(a, b)
    ensures Inv(t0, s, b)
  {
    var d :| d in a.count && a.count[d] == 0 && b == RemoveDir(a, d);
    StepKeepsInv(t0, s, a, d);
  }

  // What holds at the start and survives every step holds all along a run.
  lemma {:induction false} RunInduction(holds: State -> bool, run: seq<State>, i: nat)
    requires i < |run| && (forall j: nat :: j + 1 < |run| ==> StepAt(run, j))
    requires holds(run[0]) && (forall a, b :: holds(a) && Step(a, b) ==> holds(b))
    ensures holds(run[i])
  {
    if i > 0 {
      RunInduction(holds, run, i - 1);
      assert StepAt(run, i - 1);
    }
  }

  lemma RunKeepsInv(t0: Tree, s: Scan, run: seq<State>, i: nat)
    requires WellFormed(t0) && Run(t0, s, run) && i < |run|
    ensures Inv(t0, s, run[i])
  {
    InitialInv(t0, s, run[0]);
    forall a, b | Inv(t0, s, a) && Step(a, b) ensures Inv(t0, s, b) {
      AnyStepKeepsInv(t0, s, a, b);
    }
    RunInduction(a => Inv(t0, s, a), run, i);
  }

  // Every directory below the root is in the time range.
  ghost predicate AllInRange(t0: Tree, s: Scan) {
    forall q :: q in t0 && s.root < q && t0[q].Dir? ==> s.start <= t0[q].mod <= s.end
  }

  lemma {:induction false} AllVisited(t0: Tree, s: Scan, p: Path)
    requires WellFormed(t0) && AllInRange(t0, s) && p in t0 && s.root <= p
    ensures Visited(t0, s, p)
    decreases |p|
  {
    if p != s.root {
      Proper(s.root, p);
      assert s.root <= Parent(p);
      AllVisited(t0, s, Parent(p));
    }
  }

  lemma NoFileLost(t0: Tree, s: Scan, f: Path)
    requires WellFormed(t0) && AllInRange(t0, s) && f in t0 && t0[f].File?
    ensures !UnderRemovable(t0, s, f)
  {
    forall d | d <= f ensures !Removable(t0, s, d) {
      if Visited(t0, s, d) {
        AllVisited(t0, s, f);
      }
    }
  }

  lemma NothingLeftBelow(t0: Tree, s: Scan, a: State, d: Path)
    requires Inv(t0, s, a) && AllInRange(t0, s) && d in a.count && a.count[d] == 0
    ensures forall q :: q in a.t && d <= q ==> q == d
  {
    ZeroCountIsDir(t0, s, a, d);
    forall q | q in a.t && d <= q ensures Visited(t0, s, q) && (q == d || d < q) {
      AllVisited(t0, s, q);
      if q != d {
        Proper(d, q);
      }
    }
    ZeroCountIsRemovable(t0, s, a, d);
  }

  // With nothing skipped, a directory is removed only when it is already empty, its parent's key
  // is still there to be decremented, and no file has been lost.
  ghost predicate RemovesOnlyEmpty(t0: Tree, a: State, d: Path) {
    && d in a.t && a.t[d].Dir? && (forall q :: q in a.t && d <= q ==> q == d)
    && d != Parent(d) && Parent(d) in a.count && a.count[Parent(d)] > 0
    && RemoveDir(a, d).count.Keys == a.count.Keys - {d}
    && (forall f :: f in t0 && t0[f].File? ==> f in a.t)
  }

  lemma ParentIsCounted(t0: Tree, s: Scan, a: State, d: Path)
    requires Inv(t0, s, a) && d in a.count && a.count[d] == 0
    ensures d != Parent(d) && Parent(d) in a.count && a.count[Parent(d)] > 0
  {
    ZeroCountIsDir(t0, s, a, d);
    assert d in Kids(VisitedIn(a.t, t0, s), Parent(d));
  }

  lemma ZeroCountIsEmpty(t0: Tree, s: Scan, a: State, d: Path)
    requires Inv(t0, s, a) && AllInRange(t0, s) && d in a.count && a.count[d] == 0
    ensures RemovesOnlyEmpty(t0, a, d)
  {
    ZeroCountIsDir(t0, s, a, d);
    NothingLeftBelow(t0, s, a, d);
    ParentIsCounted(t0, s, a, d);
    RemoveDirKeys(a, d);
    forall f | f in t0 && t0[f].File? ensures f in a.t {
      NoFileLost(t0, s, f);
    }
  }

  lemma RunsRemoveOnlyEmptyDirs(t0: Tree, s: Scan, run: seq<State>, i: nat, d: Path)
    requires WellFormed(t0) && Run(t0, s, run) && i < |run|
    requires d in run[i].count && run[i].count[d] == 0
    ensures Inv(t0, s, run[i])
    ensures AllInRange(t0, s) ==> RemovesOnlyEmpty(t0, run[i], d)
  {
    RunKeepsInv(t0, s, run, i);
    if AllInRange(t0, s) {
      ZeroCountIsEmpty(t0, s, run[i], d);
    }
  }

  /******* What is removed *******/

  // When the walk skips nothing: the directories below the root with no file below them, and the
  // root itself if it had an entry, no file, and a parent other than itself.
  ghost predicate EmptyDir(t0: Tree, s: Scan, p: Path) {
    && p in t0 && s.root <= p && t0[p].Dir? && !HasFile(t0, p)
    && (p == s.root ==> Parent(s.root) != s.root && exists c :: c in t0 && s.root < c)
  }

  lemma FilesAreVisited(t0: Tree, s: Scan, p: Path)
    requires WellFormed(t0) && AllInRange(t0, s) && s.root <= p
    ensures HasFile(t0, p) <==> HasVisitedFile(t0, s, p)
  {
    forall f | f in t0 && p <= f ensures Visited(t0, s, f) {
      assert s.root <= f;
      AllVisited(t0, s, f);
    }
  }

  lemma EmptyIffRemovable(t0: Tree, s: Scan, p: Path)
    requires WellFormed(t0) && AllInRange(t0, s) && s.root in t0
    ensures EmptyDir(t0, s, p) <==> Removable(t0, s, p)
  {
    if p in t0 && s.root <= p {
      AllVisited(t0, s, p);
      FilesAreVisited(t0, s, p);
      RootHasEntry(t0, s);
    }
  }

  lemma RootHasEntry(t0: Tree, s: Scan)
    requires WellFormed(t0) && AllInRange(t0, s)
    ensures HasVisitedEntry(t0, s) <==> exists c :: c in t0 && s.root < c
  {
    forall c ensures Visited(t0, s, c) && c != s.root <==> c in t0 && s.root < c {
      if c in t0 && s.root < c {
        AllVisited(t0, s, c);
      } else if Visited(t0, s, c) && c != s.root {
        Proper(s.root, c);
      }
    }
    if HasVisitedEntry(t0, s) {
      var c :| Visited(t0, s, c) && c != s.root;
      assert c in t0 && s.root < c;
    }
  }

  lemma CleanSweep(t0: Tree, s: Scan, p: Path)
    requires WellFormed(t0) && AllInRange(t0, s) && s.root in t0 && p in t0
    ensures p !in Swept(t0, s) <==> EmptyDir(t0, s, p)
  {
    EmptyIffRemovable(t0, s, p);
    if d :| Removable(t0, s, d) && d <= p {
      assert s.root <= p;
      AllVisited(t0, s, p);
      if t0[p].File? {
        NoFileLost(t0, s, p);
      } else {
        RemovableBelow(t0, s, d, p);
      }
    }
  }

  lemma RemovableBelow(t0: Tree, s: Scan, d: Path, e: Path)
    requires Removable(t0, s, d) && d <= e && Visited(t0, s, e) && t0[e].Dir?
    ensures Removable(t0, s, e)
  {
    forall f | f in t0 && e <= f ensures d <= f {
    }
  }

  // All that lies in a directory out of the time range, and that directory, share the fate of its parent.
  lemma OutOfRangeGoesWithParent(t0: Tree, s: Scan, q: Path, p: Path)
    requires WellFormed(t0) && q in t0 && p in t0 && s.root < q <= p
    requires t0[q].Dir? && (t0[q].mod < s.start || s.end < t0[q].mod)
    ensures p in Swept(t0, s) <==> Parent(q) in Swept(t0, s)
  {
    PrefixInTree(t0, Parent(q), q);
    if d :| Removable(t0, s, d) && d <= p {
      if q <= d {
        PrefixVisited(t0, s, q, d);
      }
      assert d <= Parent(q);
    }
    if d :| Removable(t0, s, d) && d <= Parent(q) {
      assert d <= p;
    }
  }

  // A directory out of the time range is not spared: it goes exactly when its parent is removable.
  lemma SkippedDirLostIff(t0: Tree, s: Scan, q: Path)
    requires WellFormed(t0) && Skipped(t0, s, q)
    ensures q !in Swept(t0, s) <==> Removable(t0, s, Parent(q))
  {
    if d :| Removable(t0, s, d) && d <= q {
      Proper(d, q);
      RemovableBelow(t0, s, d, Parent(q));
    }
    if Removable(t0, s, Parent(q)) {
      assert Parent(q) <= q;
      assert UnderRemovable(t0, s, q);
    }
  }

  // A file is lost exactly when it lies in a directory that the walk skipped and whose parent,
  // which did not count it, has no counted file below.
  lemma FileLostIff(t0: Tree, s: Scan)
    requires WellFormed(t0)
    ensures (exists f :: f in t0 && t0[f].File? && f !in Swept(t0, s)) <==>
            (exists q :: Skipped(t0, s, q) && HasFile(t0, q) && Removable(t0, s, Parent(q)))
  {
    if f :| f in t0 && t0[f].File? && f !in Swept(t0, s) {
      var d :| Removable(t0, s, d) && d <= f;
      var q := FirstSkipped(t0, s, d, f);
      assert Removable(t0, s, Parent(q)) by {
        RemovableBelow(t0, s, d, Parent(q));
      }
    }
    if q :| Skipped(t0, s, q) && HasFile(t0, q) && Removable(t0, s, Parent(q)) {
      var f :| f in t0 && t0[f].File? && q <= f;
      assert Parent(q) <= f;
      assert UnderRemovable(t0, s, f);
    }
  }

  lemma {:induction false} FirstSkipped(t0: Tree, s: Scan, d: Path, f: Path) returns (q: Path)
    requires WellFormed(t0) && Visited(t0, s, d) && f in t0 && d <= f && !Visited(t0, s, f)
    ensures Skipped(t0, s, q) && d < q <= f && d <= Parent(q)
    decreases |f|
  {
    Proper(d, f);
    assert d <= Parent(f) && Parent(f) <= f && Parent(f) in t0;
    if Visited(t0, s, Parent(f)) {
      q := f;
    } else {
      q := FirstSkipped(t0, s, d, Parent(f));
    }
  }

  // A parent that holds only a skipped directory has no positive count, and goes with it.
  lemma SkippedDirIsLost()
    ensures var t0: Tree := map[[] := Dir(0), ["r"] := Dir(0), ["r", "a"] := Dir(5), ["r", "a", "b"] := Dir(99),
                                ["r", "a", "b", "f"] := File];
            WellFormed(t0) && ["r", "a", "b", "f"] !in Swept(t0, Scan(["r"], 0, 10))
  {
    var t0: Tree := map[[] := Dir(0), ["r"] := Dir(0), ["r", "a"] := Dir(5), ["r", "a", "b"] := Dir(99),
                        ["r", "a", "b", "f"] := File];
    var s := Scan(["r"], 0, 10);
    assert Parent(["r", "a", "b", "f"]) == ["r", "a", "b"];
    assert Parent(["r", "a", "b"]) == ["r", "a"];
    assert Parent(["r", "a"]) == ["r"];
    assert Parent(["r"]) == [];
    assert Visited(t0, s, ["r"]);
    assert Visited(t0, s, ["r", "a"]);
    assert !Visited(t0, s, ["r", "a", "b"]);
    assert !Visited(t0, s, ["r", "a", "b", "f"]);
    assert Removable(t0, s, ["r", "a"]);
  }

  /******* The call *******/

  datatype Outcome = Done | Cancelled | WalkFailed | RemoveFailed

  class Disk {
    var entries: Tree

    // Removes a directory with everything below it; a failure may leave any part of it behind.
    method RemoveAll(d: Path, fails: bool) returns (ok: bool)
      modifies this
      ensures ok <==> !fails
      ensures ok ==> entries == Without(old(entries), d)
      ensures IsPart(entries, old(entries))
      ensures IsPart(Without(old(entries), d), entries)
    {
      if fails {
        var left :| Without(entries, d).Keys <= left <= entries.Keys;
        entries := map p | p in left :: entries[p];
        return false;
      }
      entries := Without(entries, d);
      return true;
    }
  }

  lemma SettledFacts(t0: Tree, s: Scan, a: State)
    requires Inv(t0, s, a) && (forall k :: k in a.count ==> a.count[k] != 0)
    ensures a.t == Swept(t0, s) && IsPart(a.t, t0) && IsPart(Swept(t0, s), a.t)
  {
    SettledIsSwept(t0, s, a);
    SweptStays(t0, s, a);
  }

  lemma SweptStays(t0: Tree, s: Scan, a: State)
    requires Inv(t0, s, a)
    ensures IsPart(a.t, t0) && IsPart(Swept(t0, s), a.t)
  {
  }

  lemma RemovalFacts(t0: Tree, s: Scan, a: State, d: Path)
    requires Inv(t0, s, a) && d in a.count && a.count[d] == 0
    ensures Parent(d) != d && RemoveDir(a, d).count.Keys == a.count.Keys - {d}
    ensures Inv(t0, s, RemoveDir(a, d))
    ensures IsPart(a.t, t0) && IsPart(Swept(t0, s), Without(a.t, d))
  {
    ParentIsCounted(t0, s, a, d);
    StepKeepsInv(t0, s, a, d);
    RemoveDirKeys(a, d);
    SweptStays(t0, s, a);
    SweptStays(t0, s, RemoveDir(a, d));
  }

  // Removes a directory whose count is zero, and keeps the counts in step.
  method RemoveZero(disk: Disk, count: map<Path, int>, dir: Path, failing: set<Path>, ghost t0: Tree, ghost s: Scan)
    returns (ok: bool, changed: bool, count': map<Path, int>)
    requires Inv(t0, s, State(disk.entries, count)) && dir in count && count[dir] == 0
    modifies disk
    ensures ok <==> dir !in failing
    ensures ok ==> changed && count'.Keys == count.Keys - {dir}
    ensures ok ==> Inv(t0, s, State(disk.entries, count'))
    ensures IsPart(disk.entries, t0) && IsPart(Swept(t0, s), disk.entries)
  {
    count', changed := count, false;
    ghost var a := State(disk.entries, count);
    RemovalFacts(t0, s, a, dir);
    ok := disk.RemoveAll(dir, dir in failing);
    if !ok {
      return;
    }
    count' := map k | k in count && k != dir :: count[k];
    var parentDir := Parent(dir);
    if parentDir != dir {
      count' := Bump(count', parentDir, -1);
      changed := true;
    }
    assert State(disk.entries, count') == RemoveDir(a, dir);
  }

  // One pass takes the keys in any order, without those deleted since it began.
  method Pass(disk: Disk, count: map<Path, int>, failing: set<Path>, ghost t0: Tree, ghost s: Scan)
    returns (ok: bool, changed: bool, count': map<Path, int>)
    requires Inv(t0, s, State(disk.entries, count))
    modifies disk
    ensures !ok ==> exists d :: d in failing && Removable(t0, s, d)
    ensures ok ==> Inv(t0, s, State(disk.entries, count'))
    ensures ok && changed ==> count'.Keys < count.Keys
    ensures ok && !changed ==> count' == count && forall d :: d in count ==> count[d] != 0
    ensures IsPart(disk.entries, t0) && IsPart(Swept(t0, s), disk.entries)
  {
    count', changed := count, false;
    var pending := count.Keys;
    while pending != {}
      invariant Inv(t0, s, State(disk.entries, count'))
      invariant if changed then count'.Keys < count.Keys else count' == count
      invariant !changed ==> forall d :: d in count && d !in pending ==> count[d] != 0
      decreases pending
    {
      var dir :| dir in pending;
      pending := pending - {dir};
      if dir in count' && count'[dir] == 0 {
        var removed;
        ZeroCountIsRemovable(t0, s, State(disk.entries, count'), dir);
        ok, removed, count' := RemoveZero(disk, count', dir, failing, t0, s);
        if !ok {
          return;
        }
        changed := changed || removed;
      }
    }
    ok := true;
  }

  lemma WalkedInv(t0: Tree, s: Scan, count: map<Path, int>)
    requires WellFormed(t0) && s.root in t0 && CountsMatch(t0, s, {} + Subtree(t0, s, s.root), count)
    ensures Inv(t0, s, State(t0, count)) && IsPart(Swept(t0, s), t0)
  {
    assert {} + Subtree(t0, s, s.root) == VisitedIn(t0, t0, s);
    InitialInv(t0, s, State(t0, count));
  }

  // Passes over the map until one changes nothing; the context is cancelled before some pass, or never.
  method Settle(disk: Disk, count: map<Path, int>, failing: set<Path>, cancelled: Option<nat>, ghost t0: Tree,
                ghost s: Scan) returns (r: Outcome, passes: nat, ghost left: map<Path, int>)
    requires disk.entries == t0 && Inv(t0, s, State(t0, count))
    modifies disk
    ensures r != WalkFailed
    ensures r == Done ==> disk.entries == Swept(t0, s)
    ensures r == RemoveFailed ==> exists d :: d in failing && Removable(t0, s, d)
    ensures r == Cancelled ==> cancelled == Some(passes) && Inv(t0, s, State(disk.entries, left))
    ensures cancelled.Some? ==> passes <= cancelled.value
    ensures passes == 0 ==> disk.entries == t0
    ensures r == Done || r == RemoveFailed ==> 0 < passes
    ensures IsPart(disk.entries, t0) && IsPart(Swept(t0, s), disk.entries)
  {
    passes := 0;
    var count' := count;
    while true
      invariant Inv(t0, s, State(disk.entries, count'))
      invariant passes == 0 ==> disk.entries == t0
      invariant cancelled.Some? ==> passes <= cancelled.value
      decreases count'.Keys
    {
      if cancelled.Some? && cancelled.value == passes {
        SweptStays(t0, s, State(disk.entries, count'));
        return Cancelled, passes, count';
      }
      passes := passes + 1;
      var ok, changed;
      ok, changed, count' := Pass(disk, count', failing, t0, s);
      if !ok {
        return RemoveFailed, passes, count';
      }
      if !changed {
        SettledFacts(t0, s, State(disk.entries, count'));
        return Done, passes, count';
      }
    }
  }

  // Some entries cannot be read, and some directories cannot be removed.  What is left of the map when
  // the call is cancelled still matches the tree.
  method RemoveEmptyDirs(disk: Disk, root: Path, start: int, end: int, unreadable: set<Path>, failing: set<Path>,
                         cancelled: Option<nat>) returns (r: Outcome, passes: nat, ghost left: map<Path, int>)
    requires WellFormed(disk.entries)
    modifies disk
    ensures r == Done ==> disk.entries == Swept(old(disk.entries), Scan(root, start, end))
    ensures r == WalkFailed <==>
              root !in old(disk.entries) || !Readable(old(disk.entries), Scan(root, start, end), unreadable, root)
    ensures r == RemoveFailed ==> exists d :: d in failing && Removable(old(disk.entries), Scan(root, start, end), d)
    ensures r == Cancelled ==> cancelled == Some(passes)
    ensures r == Cancelled ==> Inv(old(disk.entries), Scan(root, start, end), State(disk.entries, left))
    ensures cancelled.Some? ==> passes <= cancelled.value
    ensures passes == 0 ==> disk.entries == old(disk.entries)
    ensures r == Done || r == RemoveFailed ==> 0 < passes
    ensures r == WalkFailed ==> passes == 0
    ensures IsPart(disk.entries, old(disk.entries))
    ensures IsPart(Swept(old(disk.entries), Scan(root, start, end)), disk.entries)
  {
    passes := 0;
    ghost var t0 := disk.entries;
    var s := Scan(root, start, end);
    var dirFileCount: map<Path, int> := map[];
    dirFileCount := Bump(dirFileCount, Parent(root), 1);
    assert CountsMatch(t0, s, {}, dirFileCount);
    if root !in disk.entries {
      return WalkFailed, passes, dirFileCount;
    }
    var ok;
    ok, dirFileCount := Walk(disk.entries, s, unreadable, root, dirFileCount, {});
    if !ok {
      return WalkFailed, passes, dirFileCount;
    }
    WalkedInv(t0, s, dirFileCount);
    r, passes, left := Settle(disk, dirFileCount, failing, cancelled, t0, s);
  }
}
