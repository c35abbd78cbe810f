/** The configuration watcher: it polls the file's modification time, waits, takes the time again,
    and only then reads.  The environment writes the file whenever it likes: the file is a history
    of what it held at each moment, and each look of the watcher falls on some moment of it. */
module ConfigWatcher {
  import opened Options

  datatype File<C> = Missing | Present(content: C, mtime: int)

  // Every write moves the modification time forward.
  ghost predicate Grows<C>(disk: seq<File<C>>) {
    forall i, j :: 0 <= i <= j < |disk| && disk[i].Present? && disk[j].Present? ==>
      disk[i].mtime <= disk[j].mtime && (disk[i].mtime == disk[j].mtime ==> disk[i].content == disk[j].content)
  }

  // What is set at the start and never read from the file.
  datatype Runtime<R> = Runtime(configPath: string, rest: R)

  datatype Boot<R, B> = Boot(runtime: Runtime<R>, body: B)

  // A callback is given the configuration in force and the new body, and may change both.
  datatype Reaction<R, B> = Reaction(ok: bool, boot: Boot<R, B>, body: B)

  type Callback<!R, !B> = (Boot<R, B>, B) -> Reaction<R, B>

  // The callbacks in turn, until one refuses.
  function React<R, B>(callbacks: seq<Callback<R, B>>, boot: Boot<R, B>, body: B): Reaction<R, B> {
    if callbacks == [] then Reaction(true, boot, body)
    else
      var r := callbacks[0](boot, body);
      if r.ok then React(callbacks[1..], r.boot, r.body) else r
  }

  // A callback that only compares and acts leaves both configurations alone.
  ghost predicate OnlyLooks<R(!new), B(!new)>(callback: Callback<R, B>) {
    forall boot, body :: callback(boot, body).boot == boot && callback(boot, body).body == body
  }

  ghost predicate AllOnlyLook<R(!new), B(!new)>(ticks: seq<Tick<R, B>>) {
    forall n, i :: 0 <= n < |ticks| && 0 <= i < |ticks[n].callbacks| ==> OnlyLooks(ticks[n].callbacks[i])
  }

  lemma {:induction false} ReactLooks<R(!new), B(!new)>(callbacks: seq<Callback<R, B>>, boot: Boot<R, B>, body: B)
    requires forall i :: 0 <= i < |callbacks| ==> OnlyLooks(callbacks[i])
    ensures React(callbacks, boot, body).boot == boot && React(callbacks, boot, body).body == body
    ensures React(callbacks, boot, body).ok <==> forall i :: 0 <= i < |callbacks| ==> callbacks[i](boot, body).ok
  {
    if callbacks != [] && callbacks[0](boot, body).ok {
      ReactLooks(callbacks[1..], boot, body);
      assert forall i :: 0 < i < |callbacks| ==> callbacks[i] == callbacks[1..][i - 1];
    }
  }

  // The callbacks after one that refuses are not called; after some that accept, the others act on what
  // these have left.
  lemma {:induction false} ReactSplits<R, B>(first: seq<Callback<R, B>>, rest: seq<Callback<R, B>>, boot: Boot<R, B>,
                                             body: B)
    ensures var r := React(first, boot, body);
            React(first + rest, boot, body) == if r.ok then React(rest, r.boot, r.body) else r
  {
    if first == [] {
      assert first + rest == rest;
    } else {
      assert (first + rest)[1..] == first[1..] + rest;
      var r := first[0](boot, body);
      ReactSplits(first[1..], rest, r.boot, r.body);
    }
  }

  // One poll: the moments of its three looks at the file, whether the read itself works, and how the
  // callbacks behave in it.
  datatype Tick<!R, !B> = Tick(stat: nat, again: nat, read: nat, readable: bool, callbacks: seq<Callback<R, B>>)

  // The moment of the last look before the n-th poll.
  function Look<R, B>(first: nat, ticks: seq<Tick<R, B>>, n: nat): nat
    requires n <= |ticks|
  {
    if n == 0 then first else ticks[n - 1].read
  }

  ghost predicate InOrder<R, C, B>(disk: seq<File<C>>, first: nat, ticks: seq<Tick<R, B>>) {
    && first < |disk|
    && forall n {:trigger ticks[n]} :: 0 <= n < |ticks| ==>
         Look(first, ticks, n) <= ticks[n].stat <= ticks[n].again <= ticks[n].read < |disk|
  }

  datatype Verdict<C> = Quiet | Unread | Unparsed(c: C) | Refused(c: C) | Applied(c: C)

  datatype Watch<R, B> = Watch(lastMod: int, boot: Boot<R, B>)

  predicate Newer<R, C, B>(disk: seq<File<C>>, lastMod: int, k: Tick<R, B>)
    requires k.stat < |disk| && k.again < |disk|
  {
    disk[k.stat].Present? && disk[k.stat].mtime > lastMod && disk[k.again].Present?
  }

  function Judge<R, C, B>(disk: seq<File<C>>, parse: C -> Option<B>, w: Watch<R, B>, k: Tick<R, B>): Verdict<C>
    requires k.stat < |disk| && k.again < |disk| && k.read < |disk|
  {
    if !Newer(disk, w.lastMod, k) then Quiet
    else if !k.readable || disk[k.read].Missing? then Unread
    else
      var c := disk[k.read].content;
      match parse(c)
      case None => Unparsed(c)
      case Some(body) => if React(k.callbacks, w.boot, body).ok then Applied(c) else Refused(c)
  }

  function Polled<R, C, B>(disk: seq<File<C>>, parse: C -> Option<B>, w: Watch<R, B>, k: Tick<R, B>): Watch<R, B>
    requires k.stat < |disk| && k.again < |disk| && k.read < |disk|
  {
    if !Newer(disk, w.lastMod, k) then w
    else
      var mtime := disk[k.again].mtime;
      if !k.readable || disk[k.read].Missing? then Watch(mtime, w.boot)
      else match parse(disk[k.read].content)
        case None => Watch(mtime, w.boot)
        case Some(body) =>
          var r := React(k.callbacks, w.boot, body);
          Watch(mtime, if r.ok then r.boot.(body := r.body) else r.boot)
  }

  predicate InHistory<R, C, B>(disk: seq<File<C>>, ticks: seq<Tick<R, B>>) {
    forall n :: 0 <= n < |ticks| ==> ticks[n].stat < |disk| && ticks[n].again < |disk| && ticks[n].read < |disk|
  }

  // After the first n polls.
  function Watched<R, C, B>(disk: seq<File<C>>, parse: C -> Option<B>, w: Watch<R, B>, ticks: seq<Tick<R, B>>, n: nat)
    : Watch<R, B>
    requires n <= |ticks| && InHistory(disk, ticks)
  {
    if n == 0 then w else Polled(disk, parse, Watched(disk, parse, w, ticks, n - 1), ticks[n - 1])
  }

  class Bootstrap<R, B> {
    var runtime: Runtime<R>
    var body: B

    constructor (runtime: Runtime<R>, body: B)
      ensures this.runtime == runtime && this.body == body
    {
      this.runtime, this.body := runtime, body;
    }

    function Contents(): Boot<R, B>
      reads this
    {
      Boot(runtime, body)
    }
  }

  // The callbacks are called in turn, until one refuses.
  method Ask<R, B>(bc: Bootstrap<R, B>, callbacks: seq<Callback<R, B>>, body: B) returns (ok: bool, newBody: B)
    modifies bc
    ensures Reaction(ok, bc.Contents(), newBody) == React(callbacks, old(bc.Contents()), body)
  {
    ok, newBody := true, body;
    for i := 0 to |callbacks|
      invariant React(callbacks, old(bc.Contents()), body) == React(callbacks[i..], bc.Contents(), newBody)
      invariant ok
    {
      assert callbacks[i..][1..] == callbacks[i + 1..];
      var r := callbacks[i](bc.Contents(), newBody);
      bc.runtime, bc.body, newBody := r.boot.runtime, r.boot.body, r.body;
      if !r.ok {
        ok := false;
        return;
      }
    }
  }

  // Watching from the moment of the first stat, until the context is cancelled after some tick.
  method WatchConfig<R, C, B>(bc: Bootstrap<R, B>, disk: seq<File<C>>, parse: C -> Option<B>, first: nat,
                              ticks: seq<Tick<R, B>>) returns (lastMod: int)
    requires InOrder(disk, first, ticks)
    modifies bc
    ensures old(bc.runtime.configPath) == "" || disk[first].Missing? ==> bc.Contents() == old(bc.Contents())
    ensures old(bc.runtime.configPath) != "" && disk[first].Present? ==>
              Watch(lastMod, bc.Contents()) ==
              Watched(disk, parse, Watch(disk[first].mtime, old(bc.Contents())), ticks, |ticks|)
  {
    lastMod := 0;
    if bc.runtime.configPath == "" {
      return;
    }
    if disk[first].Missing? {
      return;
    }
    lastMod := disk[first].mtime;
    for n := 0 to |ticks|
      invariant Watch(lastMod, bc.Contents()) ==
                Watched(disk, parse, Watch(disk[first].mtime, old(bc.Contents())), ticks, n)
    {
      var k := ticks[n];
      if disk[k.stat].Missing? || disk[k.stat].mtime <= lastMod {
        continue;
      }
      if disk[k.again].Missing? {
        continue;
      }
      lastMod := disk[k.again].mtime;
      if !k.readable || disk[k.read].Missing? {
        continue;
      }
      var newBody := parse(disk[k.read].content);
      if newBody.None? {
        continue;
      }
      var ok, body := Ask(bc, k.callbacks, newBody.value);
      if !ok {
        continue;
      }
      bc.body := body;
    }
  }

  /******* No update is lost *******/

  function VerdictAt<R, C, B>(disk: seq<File<C>>, parse: C -> Option<B>, w: Watch<R, B>, ticks: seq<Tick<R, B>>, n: nat)
    : Verdict<C>
    requires n < |ticks| && InHistory(disk, ticks)
  {
    Judge(disk, parse, Watched(disk, parse, w, ticks, n), ticks[n])
  }

  // The content is in force, does not parse, was refused by a callback, or failed to be read.
  ghost predicate DealtWith<R, C, B>(disk: seq<File<C>>, parse: C -> Option<B>, w: Watch<R, B>, ticks: seq<Tick<R, B>>,
                                     n: nat, f: File<C>)
    requires n <= |ticks| && f.Present?
    requires InHistory(disk, ticks)
  {
    || parse(f.content) == Some(Watched(disk, parse, w, ticks, n).boot.body)
    || parse(f.content) == None
    || exists i :: 0 <= i < n && TurnedDown(disk, parse, w, ticks, i, f)
  }

  ghost predicate TurnedDown<R, C, B>(disk: seq<File<C>>, parse: C -> Option<B>, w: Watch<R, B>, ticks: seq<Tick<R, B>>,
                                      i: nat, f: File<C>)
    requires i < |ticks| && f.Present?
    requires InHistory(disk, ticks)
  {
    var v := VerdictAt(disk, parse, w, ticks, i);
    v == Refused(f.content) || (v == Unread && disk[ticks[i].again] == f)
  }

  // The file is the same at two moments of one modification time, and so in between.
  lemma SameFile<C>(disk: seq<File<C>>, i: nat, m: nat, j: nat)
    requires Grows(disk) && i <= m <= j < |disk| && disk[i].Present? && disk[j].Present?
    requires disk[i].mtime == disk[j].mtime
    ensures disk[i] == disk[j]
    ensures disk[m].Present? ==> disk[m] == disk[j]
  {
  }

  // With callbacks that only look: whenever the watcher is between two polls and the file has the
  // modification time that it last took, it has dealt with what the file holds.
  lemma {:induction false} NoLostUpdate<R(!new), C, B(!new)>(disk: seq<File<C>>, parse: C -> Option<B>, w: Watch<R, B>,
                                                             first: nat, ticks: seq<Tick<R, B>>, n: nat, j: nat)
    requires AllOnlyLook(ticks)
    requires Grows(disk) && InOrder(disk, first, ticks) && n <= |ticks|
    requires disk[first].Present? && w.lastMod == disk[first].mtime && parse(disk[first].content) == Some(w.boot.body)
    requires Look(first, ticks, n) <= j < |disk|
    requires disk[j].Present? && disk[j].mtime == Watched(disk, parse, w, ticks, n).lastMod
    ensures DealtWith(disk, parse, w, ticks, n, disk[j])
  {
    if n == 0 {
      SameFile(disk, first, first, j);
    } else if VerdictAt(disk, parse, w, ticks, n - 1).Quiet? {
      NoLostUpdate(disk, parse, w, first, ticks, n - 1, j);
    } else {
      PollDealsWith(disk, parse, w, ticks, n - 1, j);
    }
  }

  lemma PollDealsWith<R(!new), C, B(!new)>(disk: seq<File<C>>, parse: C -> Option<B>, w: Watch<R, B>,
                                           ticks: seq<Tick<R, B>>, n: nat, j: nat)
    requires AllOnlyLook(ticks)
    requires Grows(disk) && InHistory(disk, ticks) && n < |ticks|
    requires !VerdictAt(disk, parse, w, ticks, n).Quiet?
    requires ticks[n].again <= ticks[n].read <= j < |disk|
    requires disk[j].Present? && disk[j].mtime == disk[ticks[n].again].mtime
    ensures DealtWith(disk, parse, w, ticks, n + 1, disk[j])
  {
    var k := ticks[n];
    SameFile(disk, k.again, k.read, j);
    var v := VerdictAt(disk, parse, w, ticks, n);
    if v.Applied? {
      ReactLooks(k.callbacks, Watched(disk, parse, w, ticks, n).boot, parse(v.c).value);
    } else if v.Refused? || v.Unread? {
      assert TurnedDown(disk, parse, w, ticks, n, disk[j]);
    }
  }

  // What was read parses to this body, and every callback accepted it in place of the other.
  ghost predicate Accepted<R, C, B>(disk: seq<File<C>>, parse: C -> Option<B>, boot: Boot<R, B>, k: Tick<R, B>, body: B) {
    && k.read < |disk| && disk[k.read].Present? && parse(disk[k.read].content) == Some(body)
    && forall i :: 0 <= i < |k.callbacks| ==> k.callbacks[i](boot, body).ok
  }

  // The body in force is the first one, or the whole of one that was read, parsed and accepted; the
  // runtime part is always the first one.
  lemma {:induction false} BodyIsOneAccepted<R(!new), C, B(!new)>(disk: seq<File<C>>, parse: C -> Option<B>,
                                                                  w: Watch<R, B>, ticks: seq<Tick<R, B>>, n: nat)
    requires InHistory(disk, ticks) && n <= |ticks| && AllOnlyLook(ticks)
    ensures var boot := Watched(disk, parse, w, ticks, n).boot;
            && boot.runtime == w.boot.runtime
            && (|| boot.body == w.boot.body
                || exists i :: 0 <= i < n &&
                     Accepted(disk, parse, Watched(disk, parse, w, ticks, i).boot, ticks[i], boot.body))
  {
    if n > 0 {
      BodyIsOneAccepted(disk, parse, w, ticks, n - 1);
      PollKeepsOrAccepts(disk, parse, Watched(disk, parse, w, ticks, n - 1), ticks[n - 1]);
    }
  }

  lemma PollKeepsOrAccepts<R(!new), C, B(!new)>(disk: seq<File<C>>, parse: C -> Option<B>, w: Watch<R, B>, k: Tick<R, B>)
    requires k.stat < |disk| && k.again < |disk| && k.read < |disk|
    requires forall i :: 0 <= i < |k.callbacks| ==> OnlyLooks(k.callbacks[i])
    ensures var boot := Polled(disk, parse, w, k).boot;
            && boot.runtime == w.boot.runtime
            && (boot.body == w.boot.body || Accepted(disk, parse, w.boot, k, boot.body))
  {
    if Newer(disk, w.lastMod, k) && disk[k.read].Present? && parse(disk[k.read].content).Some? {
      ReactLooks(k.callbacks, w.boot, parse(disk[k.read].content).value);
    }
  }

  // The watcher always catches up: a poll that sees a newer file and reads it, with no write in
  // between, leaves that file's modification time as the last one.
  lemma PollCatchesUp<R, C, B>(disk: seq<File<C>>, parse: C -> Option<B>, w: Watch<R, B>, first: nat,
                               ticks: seq<Tick<R, B>>, n: nat)
    requires InOrder(disk, first, ticks) && n < |ticks|
    requires disk[ticks[n].stat].Present? && disk[ticks[n].again].Present?
    requires Grows(disk)
    ensures Watched(disk, parse, w, ticks, n).lastMod < disk[ticks[n].stat].mtime ==>
              Watched(disk, parse, w, ticks, n + 1).lastMod == disk[ticks[n].again].mtime >= disk[ticks[n].stat].mtime
  {
    var k := ticks[n];
    assert disk[k.stat].mtime <= disk[k.again].mtime;
  }

  // A poll that does not see a newer file, or loses sight of it, leaves everything as it was, whatever
  // the callbacks would have done.
  lemma NothingNewNothingDone<R, C, B>(disk: seq<File<C>>, parse: C -> Option<B>, w: Watch<R, B>, ticks: seq<Tick<R, B>>,
                                       n: nat)
    requires InHistory(disk, ticks) && n < |ticks|
    requires || disk[ticks[n].stat].Missing? || disk[ticks[n].again].Missing?
             || disk[ticks[n].stat].mtime <= Watched(disk, parse, w, ticks, n).lastMod
    ensures Watched(disk, parse, w, ticks, n + 1) == Watched(disk, parse, w, ticks, n)
  {
  }

  // The last modification time is never past that of the file.
  lemma {:induction false} NotAhead<R, C, B>(disk: seq<File<C>>, parse: C -> Option<B>, w: Watch<R, B>, first: nat,
                                             ticks: seq<Tick<R, B>>, n: nat, j: nat)
    requires Grows(disk) && InOrder(disk, first, ticks) && n <= |ticks|
    requires disk[first].Present? && w.lastMod == disk[first].mtime
    requires Look(first, ticks, n) <= j < |disk| && disk[j].Present?
    ensures Watched(disk, parse, w, ticks, n).lastMod <= disk[j].mtime
  {
    if n > 0 {
      assert Look(first, ticks, n - 1) <= ticks[n - 1].stat <= ticks[n - 1].again <= ticks[n - 1].read <= j;
      NotAhead(disk, parse, w, first, ticks, n - 1, j);
    }
  }

  // One poll that sees the same file in its three looks is enough, whatever came before: the watcher
  // has taken that file's time and has dealt with what it holds.
  lemma QuietPollConverges<R(!new), C, B(!new)>(disk: seq<File<C>>, parse: C -> Option<B>, w: Watch<R, B>, first: nat,
                                                ticks: seq<Tick<R, B>>, n: nat)
    requires AllOnlyLook(ticks)
    requires Grows(disk) && InOrder(disk, first, ticks) && n < |ticks|
    requires disk[first].Present? && w.lastMod == disk[first].mtime && parse(disk[first].content) == Some(w.boot.body)
    requires disk[ticks[n].stat] == disk[ticks[n].again] == disk[ticks[n].read] && disk[ticks[n].read].Present?
    ensures var f := disk[ticks[n].read];
            Watched(disk, parse, w, ticks, n + 1).lastMod == f.mtime && DealtWith(disk, parse, w, ticks, n + 1, f)
  {
    var k := ticks[n];
    NotAhead(disk, parse, w, first, ticks, n, k.stat);
    NoLostUpdate(disk, parse, w, first, ticks, n + 1, k.read);
  }

  /******* The update that is lost *******/

  // The last of the first n polls that took a modification time, or -1.
  function LastTaken<R, C, B>(disk: seq<File<C>>, parse: C -> Option<B>, w: Watch<R, B>, ticks: seq<Tick<R, B>>, n: nat)
    : (p: int)
    requires n <= |ticks| && InHistory(disk, ticks)
    ensures -1 <= p < n
    ensures 0 <= p ==> !VerdictAt(disk, parse, w, ticks, p).Quiet?
  {
    if n == 0 then -1
    else if VerdictAt(disk, parse, w, ticks, n - 1).Quiet? then LastTaken(disk, parse, w, ticks, n - 1)
    else n - 1
  }

  lemma {:induction false} QuietSince<R, C, B>(disk: seq<File<C>>, parse: C -> Option<B>, w: Watch<R, B>,
                                               ticks: seq<Tick<R, B>>, n: nat)
    requires n <= |ticks| && InHistory(disk, ticks)
    ensures var p := LastTaken(disk, parse, w, ticks, n);
            Watched(disk, parse, w, ticks, n) == if p < 0 then w else Watched(disk, parse, w, ticks, p + 1)
  {
    if n > 0 && VerdictAt(disk, parse, w, ticks, n - 1).Quiet? {
      QuietSince(disk, parse, w, ticks, n - 1);
    }
  }

  // The content is in force, does not parse, or was refused by a callback when its time was taken.
  ghost predicate Served<R, C, B>(disk: seq<File<C>>, parse: C -> Option<B>, w: Watch<R, B>, ticks: seq<Tick<R, B>>,
                                  n: nat, f: File<C>)
    requires n <= |ticks| && f.Present?
    requires InHistory(disk, ticks)
  {
    var p := LastTaken(disk, parse, w, ticks, n);
    || parse(f.content) == Some(Watched(disk, parse, w, ticks, n).boot.body)
    || parse(f.content) == None
    || (0 <= p && VerdictAt(disk, parse, w, ticks, p) == Refused(f.content))
  }

  // Between two polls, with the file's time taken, its content is served unless the read of the poll
  // that took the time failed, and it parses to something other than the body of before.
  lemma {:induction false} ServedIff<R(!new), C, B(!new)>(disk: seq<File<C>>, parse: C -> Option<B>, w: Watch<R, B>,
                                                          first: nat, ticks: seq<Tick<R, B>>, n: nat, j: nat)
    requires AllOnlyLook(ticks)
    requires Grows(disk) && InOrder(disk, first, ticks) && n <= |ticks|
    requires disk[first].Present? && w.lastMod == disk[first].mtime && parse(disk[first].content) == Some(w.boot.body)
    requires Look(first, ticks, n) <= j < |disk|
    requires disk[j].Present? && disk[j].mtime == Watched(disk, parse, w, ticks, n).lastMod
    ensures var p := LastTaken(disk, parse, w, ticks, n);
            Served(disk, parse, w, ticks, n, disk[j]) <==>
              || p < 0 || !VerdictAt(disk, parse, w, ticks, p).Unread?
              || parse(disk[j].content) == None
              || parse(disk[j].content) == Some(Watched(disk, parse, w, ticks, p).boot.body)
  {
    var p := LastTaken(disk, parse, w, ticks, n);
    QuietSince(disk, parse, w, ticks, n);
    if p < 0 {
      LooksAdvance(disk, first, ticks, 0, n);
      SameFile(disk, first, first, j);
    } else {
      LooksAdvance(disk, first, ticks, p + 1, n);
      SameFile(disk, ticks[p].again, ticks[p].read, j);
      if VerdictAt(disk, parse, w, ticks, p).Applied? {
        ReactLooks(ticks[p].callbacks, Watched(disk, parse, w, ticks, p).boot, parse(disk[j].content).value);
      }
    }
  }

  lemma {:induction false} LooksAdvance<R, C, B>(disk: seq<File<C>>, first: nat, ticks: seq<Tick<R, B>>, p: nat, n: nat)
    requires InOrder(disk, first, ticks) && p <= n <= |ticks|
    ensures Look(first, ticks, p) <= Look(first, ticks, n)
  {
    if p < n {
      LooksAdvance(disk, first, ticks, p, n - 1);
      assert Look(first, ticks, n - 1) <= ticks[n - 1].stat;
    }
  }

  // A file that is written once, whose one failed read is never made up for.
  lemma FailedReadLosesUpdate(runtime: Runtime<int>)
    ensures var disk := [Present(1, 10), Present(2, 20)];
            var ticks: seq<Tick<int, int>> := [Tick(1, 1, 1, false, []), Tick(1, 1, 1, true, [])];
            var parse := (c: int) => Some(c);
            var w := Watch(10, Boot(runtime, 1));
            && Grows(disk) && InOrder(disk, 0, ticks)
            && Watched(disk, parse, w, ticks, 2) == Watch(20, Boot(runtime, 1))
            && !Served(disk, parse, w, ticks, 2, disk[1])
  {
    var disk := [Present(1, 10), Present(2, 20)];
    var ticks: seq<Tick<int, int>> := [Tick(1, 1, 1, false, []), Tick(1, 1, 1, true, [])];
    var parse := (c: int) => Some(c);
    var w := Watch(10, Boot(runtime, 1));
    assert Look(0, ticks, 0) == 0 && Look(0, ticks, 1) == 1;
    assert Watched(disk, parse, w, ticks, 1) == Watch(20, Boot(runtime, 1));
    assert Watched(disk, parse, w, ticks, 2) == Watch(20, Boot(runtime, 1));
    assert LastTaken(disk, parse, w, ticks, 1) == 0;
    assert LastTaken(disk, parse, w, ticks, 2) == 0;
  }
}
