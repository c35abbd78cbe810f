/** The event stream between any number of publishers and closers and the one goroutine that serves
    it: a bounded channel, a mutex, and a flag. */
module SseProtocol {
  import opened Options
  import opened SseFraming

  // Where a publisher or closer is; from Publishing to Unlocking it holds the mutex.
  datatype PC =
    | Idle
    | WantPublish(v: Event)
    | Publishing(v: Event)
    | Sending(v: Event)
    | WantClose
    | Closing
    | ClosingStream
    | Unlocking

  datatype Server =
    | Serving
    | Writing(ev: Event)
    | Drained
    | SawEmpty(ev: Event)
    | Cancelled
    | FlushFailed(ev: Event)

  datatype State = State(capacity: nat, holder: Option<int>, closed: bool, streamClosed: bool, panicked: bool,
                         buffer: seq<Event>, accepted: seq<Event>, delivered: seq<Event>,
                         procs: map<int, PC>, server: Server)

  // A length that is not positive gives the default capacity.
  ghost predicate Init(s: State, length: int) {
    && s.capacity == (if length <= 0 then 1024 else length)
    && s.holder == None && !s.closed && !s.streamClosed && !s.panicked
    && s.buffer == [] && s.accepted == [] && s.delivered == []
    && (forall t :: t in s.procs ==> s.procs[t] == Idle)
    && s.server == Serving
  }

  // A send and a close on a closed channel panic; a send on a full one waits.
  ghost predicate ProcStep(s: State, s': State, t: int) {
    t in s.procs && match s.procs[t]
    case Idle =>
      exists v :: s' == s.(procs := s.procs[t := WantPublish(v)]) || s' == s.(procs := s.procs[t := WantClose])
    case WantPublish(v) =>
      s.holder == None && s' == s.(holder := Some(t), procs := s.procs[t := Publishing(v)])
    case Publishing(v) =>
      s' == s.(procs := s.procs[t := if s.closed then Unlocking else Sending(v)])
    case Sending(v) =>
      if s.streamClosed then s' == s.(panicked := true)
      else
        && |s.buffer| < s.capacity
        && s' == s.(buffer := s.buffer + [v], accepted := s.accepted + [v], procs := s.procs[t := Unlocking])
    case WantClose =>
      s.holder == None && s' == s.(holder := Some(t), procs := s.procs[t := Closing])
    case Closing =>
      s' == if s.closed then s.(procs := s.procs[t := Unlocking])
            else s.(closed := true, procs := s.procs[t := ClosingStream])
    case ClosingStream =>
      s' == if s.streamClosed then s.(panicked := true)
            else s.(streamClosed := true, procs := s.procs[t := Unlocking])
    case Unlocking =>
      s' == s.(holder := None, procs := s.procs[t := Idle])
  }

  // A receive takes the oldest event; from a closed and empty channel it takes an empty one, and an
  // empty event ends the serving.
  ghost predicate ServerStep(s: State, s': State) {
    match s.server
    case Serving =>
      || s' == s.(server := Cancelled)
      || (&& s.buffer != []
          && s' == s.(buffer := s.buffer[1..],
                      server := if Empty(s.buffer[0]) then SawEmpty(s.buffer[0]) else Writing(s.buffer[0])))
      || (s.buffer == [] && s.streamClosed && s' == s.(server := Drained))
    case Writing(ev) =>
      s' == s.(delivered := s.delivered + [ev], server := Serving) || s' == s.(server := FlushFailed(ev))
    case _ => false
  }

  ghost predicate Next(s: State, s': State) {
    ServerStep(s, s') || exists t :: ProcStep(s, s', t)
  }

  ghost predicate StepAt(b: seq<State>, i: nat)
    requires i + 1 < |b|
  {
    Next(b[i], b[i + 1])
  }

  ghost predicate Behaviour(b: seq<State>, length: int) {
    b != [] && Init(b[0], length) && forall i: nat :: i + 1 < |b| ==> StepAt(b, i)
  }

  /******* What every state keeps *******/

  function InHand(s: State): seq<Event> {
    match s.server
    case Writing(ev) => [ev]
    case SawEmpty(ev) => [ev]
    case FlushFailed(ev) => [ev]
    case _ => []
  }

  predicate HoldsLock(pc: PC) {
    pc.Publishing? || pc.Sending? || pc.Closing? || pc.ClosingStream? || pc.Unlocking?
  }

  ghost predicate LockInv(s: State) {
    && (forall t :: t in s.procs && HoldsLock(s.procs[t]) ==> s.holder == Some(t))
    && (forall t :: t in s.procs && s.procs[t].Sending? ==> !s.closed)
    && (forall t :: t in s.procs && s.procs[t].ClosingStream? ==> s.closed && !s.streamClosed)
    && (s.streamClosed ==> s.closed)
    && !s.panicked
  }

  ghost predicate FlowInv(s: State) {
    && s.delivered + InHand(s) + s.buffer == s.accepted
    && |s.buffer| <= s.capacity && 0 < s.capacity
    && (forall e :: e in s.delivered ==> !Empty(e))
    && (s.server.Writing? || s.server.FlushFailed? ==> !Empty(s.server.ev))
    && (s.server.SawEmpty? ==> Empty(s.server.ev))
    && (s.server.Drained? ==> s.buffer == [] && s.streamClosed)
  }

  lemma ProcKeepsLock(s: State, s': State, t: int)
    requires LockInv(s) && ProcStep(s, s', t)
    ensures LockInv(s')
  {
  }

  lemma ProcKeepsFlow(s: State, s': State, t: int)
    requires LockInv(s) && FlowInv(s) && ProcStep(s, s', t)
    ensures FlowInv(s')
  {
    if s.procs[t].Sending? {
      assert s'.delivered + InHand(s') + s'.buffer == (s.delivered + InHand(s) + s.buffer) + [s.procs[t].v];
    }
  }

  lemma ServerKeepsFlow(s: State, s': State)
    requires FlowInv(s) && ServerStep(s, s')
    ensures FlowInv(s')
  {
    assert s.delivered + [] == s.delivered && s'.delivered + [] == s'.delivered;
    if s.server.Serving? && (s'.server.Writing? || s'.server.SawEmpty?) {
      assert s.buffer == [s.buffer[0]] + s.buffer[1..];
      Associates(s.delivered, [s.buffer[0]], s.buffer[1..]);
    }
  }

  lemma {:induction false} BehaviourInv(b: seq<State>, length: int, i: nat)
    requires Behaviour(b, length) && i < |b|
    ensures LockInv(b[i]) && FlowInv(b[i])
  {
    if i > 0 {
      BehaviourInv(b, length, i - 1);
      var s, s' := b[i - 1], b[i];
      assert StepAt(b, i - 1);
      if ServerStep(s, s') {
        ServerKeepsFlow(s, s');
      } else {
        var t :| ProcStep(s, s', t);
        ProcKeepsLock(s, s', t);
        ProcKeepsFlow(s, s', t);
      }
    }
  }

  // Nothing is sent on a closed channel and none is closed twice; what was accepted is what was
  // delivered, then the event in hand, then the buffer.
  lemma NothingLostOrReordered(b: seq<State>, length: int, i: nat)
    requires Behaviour(b, length) && i < |b|
    ensures !b[i].panicked
    ensures b[i].accepted == b[i].delivered + InHand(b[i]) + b[i].buffer
    ensures |b[i].buffer| <= b[i].capacity
  {
    BehaviourInv(b, length, i);
  }

  // Serving that ends on an empty event, received or read from the closed channel, has delivered
  // every accepted event exactly when none of them was empty.
  lemma AllDeliveredIff(b: seq<State>, length: int, i: nat)
    requires Behaviour(b, length) && i < |b| && (b[i].server.Drained? || b[i].server.SawEmpty?)
    ensures b[i].delivered == b[i].accepted <==>
              forall e :: e in b[i].accepted ==> e.id != "" || e.event != "" || e.data != ""
  {
    BehaviourInv(b, length, i);
    var s := b[i];
    if s.server.Drained? {
      assert s.delivered == s.accepted;
    } else {
      assert s.accepted[|s.delivered|] == s.server.ev;
      assert |s.accepted| > |s.delivered|;
    }
  }

  // However serving ended: every accepted event has been delivered exactly when the server drained
  // the closed stream, or was cancelled with nothing in the buffer.
  lemma EndedDeliveredIff(b: seq<State>, length: int, i: nat)
    requires Behaviour(b, length) && i < |b| && Ended(b[i])
    ensures b[i].delivered == b[i].accepted <==> b[i].server.Drained? || (b[i].server.Cancelled? && b[i].buffer == [])
  {
    BehaviourInv(b, length, i);
    var s := b[i];
    assert |s.accepted| == |s.delivered| + |InHand(s)| + |s.buffer|;
    if s.buffer == [] && InHand(s) == [] {
      assert s.delivered + [] + [] == s.delivered;
    }
  }

  // A stream that was drained after a close has kept the promise of Close for good.
  lemma {:induction false} DrainedForGood(b: seq<State>, length: int, i: nat, j: nat)
    requires Behaviour(b, length) && i <= j < |b| && b[i].server.Drained?
    ensures b[j].server.Drained? && b[j].accepted == b[j].delivered == b[i].accepted
    decreases j
  {
    BehaviourInv(b, length, j);
    if i < j {
      DrainedForGood(b, length, i, j - 1);
      BehaviourInv(b, length, j - 1);
      assert StepAt(b, j - 1);
      StepAfterEnd(b[j - 1], b[j]);
      assert b[j].buffer == [];
    }
    assert b[j].delivered + [] + [] == b[j].delivered;
  }

  ghost predicate Ended(s: State) {
    !s.server.Serving? && !s.server.Writing?
  }

  // A publisher that holds the mutex goes on exactly when there is room in the buffer.
  lemma SenderGoesOnIff(b: seq<State>, length: int, i: nat, t: int)
    requires Behaviour(b, length) && i < |b| && t in b[i].procs && b[i].procs[t].Sending?
    ensures (exists s' :: ProcStep(b[i], s', t)) <==> |b[i].buffer| < b[i].capacity
  {
    BehaviourInv(b, length, i);
    var s := b[i];
    var v := s.procs[t].v;
    if |s.buffer| < s.capacity {
      assert ProcStep(s, s.(buffer := s.buffer + [v], accepted := s.accepted + [v], procs := s.procs[t := Unlocking]), t);
    }
  }

  lemma StepAfterEnd(s: State, s': State)
    requires Ended(s) && Next(s, s')
    ensures s'.server == s.server && s'.delivered == s.delivered && s.buffer <= s'.buffer && s'.capacity == s.capacity
    ensures |s'.accepted| - |s.accepted| == |s'.buffer| - |s.buffer|
  {
  }

  // Once serving has ended nothing is taken out: what is accepted after that stays in the buffer, and
  // it is no more than had room.
  lemma {:induction false} AcceptedAfterEnd(b: seq<State>, length: int, i: nat, j: nat)
    requires Behaviour(b, length) && i <= j < |b| && Ended(b[i])
    ensures b[j].server == b[i].server && b[j].delivered == b[i].delivered && b[i].buffer <= b[j].buffer
    ensures |b[j].accepted| - |b[i].accepted| == |b[j].buffer| - |b[i].buffer| <= b[i].capacity - |b[i].buffer|
    ensures b[j].capacity == b[i].capacity
    decreases j
  {
    BehaviourInv(b, length, j);
    if i < j {
      AcceptedAfterEnd(b, length, i, j - 1);
      assert StepAt(b, j - 1);
      StepAfterEnd(b[j - 1], b[j]);
    }
  }

  // A publisher that meets a full buffer after serving has ended never returns, so no close does.
  ghost predicate Stuck(s: State, t: int) {
    Ended(s) && t in s.procs && s.procs[t].Sending? && |s.buffer| == s.capacity
  }

  lemma StuckStep(s: State, s': State, t: int)
    requires LockInv(s) && Stuck(s, t) && Next(s, s')
    ensures Stuck(s', t) && s'.accepted == s.accepted
  {
    var u :| ProcStep(s, s', u);
    assert s.holder == Some(t);
    assert HoldsLock(s.procs[u]) ==> s.holder == Some(u);
  }

  lemma {:induction false} StuckStays(b: seq<State>, length: int, i: nat, j: nat, t: int)
    requires Behaviour(b, length) && i <= j < |b| && Stuck(b[i], t)
    ensures Stuck(b[j], t) && b[j].accepted == b[i].accepted
    decreases j
  {
    if i < j {
      var s := b[j - 1];
      StuckStays(b, length, i, j - 1, t);
      BehaviourInv(b, length, j - 1);
      assert StepAt(b, j - 1);
      StuckStep(s, b[j], t);
    }
  }

  lemma StuckForGood(b: seq<State>, length: int, i: nat, j: nat, t: int)
    requires Behaviour(b, length) && i <= j < |b| && Stuck(b[i], t)
    ensures t in b[j].procs && b[j].procs[t].Sending? && !b[j].closed && b[j].accepted == b[i].accepted
  {
    StuckStays(b, length, i, j, t);
    BehaviourInv(b, length, j);
  }

  /******* The stuck publisher can be reached, whatever the capacity *******/

  lemma Extend(b: seq<State>, length: int, s': State)
    requires Behaviour(b, length) && Next(b[|b| - 1], s')
    ensures Behaviour(b + [s'], length)
  {
    var b' := b + [s'];
    forall i: nat | i + 1 < |b'| ensures StepAt(b', i) {
      if i + 1 < |b| {
        assert StepAt(b, i);
      }
    }
  }

  // Thread 0, the only one, is outside, and nobody has closed the stream.
  ghost predicate Outside(s: State) {
    s.holder == None && !s.closed && !s.streamClosed && s.procs == map[0 := Idle]
  }

  // It has published n events since the serving was cancelled.
  ghost predicate Published(s: State, n: nat) {
    s.server.Cancelled? && Outside(s) && |s.buffer| == n <= s.capacity
  }

  // The next call of Publish, up to its send.
  lemma Enters(b: seq<State>, length: int, v: Event) returns (b': seq<State>)
    requires Behaviour(b, length) && Outside(b[|b| - 1])
    ensures b < b' && Behaviour(b', length)
    ensures b'[|b'| - 1] == b[|b| - 1].(holder := Some(0), procs := map[0 := Sending(v)])
  {
    var s := b[|b| - 1];
    var s1 := s.(procs := map[0 := WantPublish(v)]);
    var s2 := s1.(holder := Some(0), procs := map[0 := Publishing(v)]);
    var s3 := s2.(procs := map[0 := Sending(v)]);
    assert ProcStep(s, s1, 0) by {
      assert s1 == s.(procs := s.procs[0 := WantPublish(v)]);
    }
    assert ProcStep(s1, s2, 0) && ProcStep(s2, s3, 0);
    Extend(b, length, s1);
    Extend(b + [s1], length, s2);
    Extend(b + [s1] + [s2], length, s3);
    b' := b + [s1] + [s2] + [s3];
  }

  // The send into a buffer with room, and the way out.
  lemma Sends(b: seq<State>, length: int, v: Event) returns (b': seq<State>)
    requires Behaviour(b, length) && b[|b| - 1].holder == Some(0) && b[|b| - 1].procs == map[0 := Sending(v)]
    requires !b[|b| - 1].streamClosed && |b[|b| - 1].buffer| < b[|b| - 1].capacity
    ensures b < b' && Behaviour(b', length)
    ensures var s := b[|b| - 1];
            b'[|b'| - 1] == s.(buffer := s.buffer + [v], accepted := s.accepted + [v], holder := None,
                               procs := map[0 := Idle])
  {
    var s := b[|b| - 1];
    var s1 := s.(buffer := s.buffer + [v], accepted := s.accepted + [v], procs := map[0 := Unlocking]);
    var s2 := s1.(holder := None, procs := map[0 := Idle]);
    assert ProcStep(s, s1, 0) && ProcStep(s1, s2, 0);
    Extend(b, length, s1);
    Extend(b + [s1], length, s2);
    b' := b + [s1] + [s2];
  }

  lemma {:induction false} Fills(length: int, n: nat, v: Event) returns (b: seq<State>)
    requires n <= if length <= 0 then 1024 else length
    ensures Behaviour(b, length) && Published(b[|b| - 1], n)
  {
    if n == 0 {
      var s := State(if length <= 0 then 1024 else length, None, false, false, false, [], [], [], map[0 := Idle], Serving);
      b := [s];
      Extend(b, length, s.(server := Cancelled));
      b := b + [s.(server := Cancelled)];
    } else {
      b := Fills(length, n - 1, v);
      CapacityStays(b, length, |b| - 1);
      b := Enters(b, length, v);
      b := Sends(b, length, v);
    }
  }

  lemma {:induction false} CapacityStays(b: seq<State>, length: int, i: nat)
    requires Behaviour(b, length) && i < |b|
    ensures b[i].capacity == if length <= 0 then 1024 else length
  {
    if i > 0 {
      CapacityStays(b, length, i - 1);
      assert StepAt(b, i - 1);
    }
  }

  // A cancelled stream, and one more event than it has room for: those in the buffer are lost.
  lemma StuckIsReachable(length: int, v: Event) returns (b: seq<State>)
    ensures Behaviour(b, length) && Stuck(b[|b| - 1], 0)
    ensures b[|b| - 1].delivered != b[|b| - 1].accepted
  {
    var n := if length <= 0 then 1024 else length;
    b := Fills(length, n, v);
    CapacityStays(b, length, |b| - 1);
    b := Enters(b, length, v);
    EndedDeliveredIff(b, length, |b| - 1);
  }

  /******* Close does end the serving, and everything does get through *******/

  // The server sends the oldest event.
  lemma SendsNext(b: seq<State>, length: int) returns (b': seq<State>)
    requires Behaviour(b, length) && b[|b| - 1].server.Serving? && b[|b| - 1].buffer != []
    requires var e := b[|b| - 1].buffer[0]; e.id != "" || e.event != "" || e.data != ""
    ensures b < b' && Behaviour(b', length)
    ensures var s := b[|b| - 1];
            b'[|b'| - 1] == s.(buffer := s.buffer[1..], delivered := s.delivered + [s.buffer[0]])
  {
    var s := b[|b| - 1];
    var e := s.buffer[0];
    var s1 := s.(buffer := s.buffer[1..], server := Writing(e));
    var s2 := s1.(delivered := s.delivered + [e], server := Serving);
    assert ServerStep(s, s1) && ServerStep(s1, s2);
    Extend(b, length, s1);
    Extend(b + [s1], length, s2);
    b' := b + [s1] + [s2];
  }

  // From every reached state with a closed stream, and nothing empty in the buffer, the server gets to
  // the end with everything delivered.
  lemma {:induction false} DrainsOut(b: seq<State>, length: int) returns (b': seq<State>)
    requires Behaviour(b, length) && b[|b| - 1].server.Serving? && b[|b| - 1].streamClosed
    requires forall e :: e in b[|b| - 1].buffer ==> e.id != "" || e.event != "" || e.data != ""
    ensures b < b' && Behaviour(b', length) && b'[|b'| - 1].server.Drained?
    ensures b'[|b'| - 1].delivered == b'[|b'| - 1].accepted == b[|b| - 1].accepted
    decreases |b[|b| - 1].buffer|
  {
    var s := b[|b| - 1];
    if s.buffer == [] {
      var s1 := s.(server := Drained);
      Extend(b, length, s1);
      b' := b + [s1];
      BehaviourInv(b', length, |b'| - 1);
      assert s1.delivered + [] + [] == s1.delivered;
    } else {
      var b1 := SendsNext(b, length);
      b' := DrainsOut(b1, length);
    }
  }

  // A publisher and the server take turns.
  lemma {:induction false} Delivers(length: int, evs: seq<Event>) returns (b: seq<State>)
    requires forall e :: e in evs ==> e.id != "" || e.event != "" || e.data != ""
    ensures Behaviour(b, length) && Outside(b[|b| - 1]) && b[|b| - 1].server.Serving? && b[|b| - 1].buffer == []
    ensures b[|b| - 1].delivered == b[|b| - 1].accepted == evs
    decreases |evs|
  {
    if evs == [] {
      b := [State(if length <= 0 then 1024 else length, None, false, false, false, [], [], [], map[0 := Idle], Serving)];
    } else {
      var last := evs[|evs| - 1];
      b := Delivers(length, evs[..|evs| - 1]);
      CapacityStays(b, length, |b| - 1);
      b := Enters(b, length, last);
      b := Sends(b, length, last);
      b := SendsNext(b, length);
      assert evs == evs[..|evs| - 1] + [last];
    }
  }

  lemma CloseDelivers(length: int, evs: seq<Event>) returns (b: seq<State>)
    requires forall e :: e in evs ==> e.id != "" || e.event != "" || e.data != ""
    ensures Behaviour(b, length) && b[|b| - 1].server.Drained? && b[|b| - 1].streamClosed
    ensures b[|b| - 1].delivered == b[|b| - 1].accepted == evs
  {
    b := Delivers(length, evs);
    var s := b[|b| - 1];
    var s1 := s.(procs := map[0 := WantClose]);
    var s2 := s1.(holder := Some(0), procs := map[0 := Closing]);
    var s3 := s2.(closed := true, procs := map[0 := ClosingStream]);
    var s4 := s3.(streamClosed := true, procs := map[0 := Unlocking]);
    assert ProcStep(s, s1, 0) by {
      var v := Event("", "", "");
      assert s1 == s.(procs := s.procs[0 := WantPublish(v)]) || s1 == s.(procs := s.procs[0 := WantClose]);
    }
    assert ProcStep(s1, s2, 0) && ProcStep(s2, s3, 0) && ProcStep(s3, s4, 0);
    Extend(b, length, s1);
    Extend(b + [s1], length, s2);
    Extend(b + [s1] + [s2], length, s3);
    Extend(b + [s1] + [s2] + [s3], length, s4);
    b := b + [s1] + [s2] + [s3] + [s4];
    b := DrainsOut(b, length);
    BehaviourInv(b, length, |b| - 1);
  }

  // An event is published, and the server receives it.
  lemma Receives(length: int, v: Event) returns (b: seq<State>)
    ensures Behaviour(b, length)
    ensures var s := b[|b| - 1];
            && s.accepted == [v] && s.delivered == [] && s.buffer == [] && !s.streamClosed
            && s.server == if v.id == "" && v.event == "" && v.data == "" then SawEmpty(v) else Writing(v)
  {
    b := Delivers(length, []);
    CapacityStays(b, length, |b| - 1);
    b := Enters(b, length, v);
    b := Sends(b, length, v);
    var s := b[|b| - 1];
    var s1 := s.(buffer := s.buffer[1..], server := if Empty(v) then SawEmpty(v) else Writing(v));
    assert ServerStep(s, s1);
    Extend(b, length, s1);
    b := b + [s1];
  }

  // An event that is empty in all its parts ends the serving, though nobody closed the stream; of any
  // other the flush may fail, and that ends it too.
  lemma EndsWithoutClose(length: int, v: Event) returns (b: seq<State>)
    ensures Behaviour(b, length) && !b[|b| - 1].streamClosed && b[|b| - 1].accepted == [v]
    ensures b[|b| - 1].server == if v.id == "" && v.event == "" && v.data == "" then SawEmpty(v) else FlushFailed(v)
  {
    b := Receives(length, v);
    var s := b[|b| - 1];
    if s.server.Writing? {
      var s1 := s.(server := FlushFailed(v));
      assert ServerStep(s, s1);
      Extend(b, length, s1);
      b := b + [s1];
    }
  }

  // From publisher to reader: when serving ended on an empty event and every accepted event is clean and
  // not empty, a standard reader of the text reads the accepted events, in order; with data in each of
  // them it dispatches one message for each.
  lemma ReaderSeesEveryEvent(b: seq<State>, length: int, i: nat)
    requires Behaviour(b, length) && i < |b| && (b[i].server.Drained? || b[i].server.SawEmpty?)
    requires forall e :: e in b[i].accepted ==> Clean(e) && (e.id != "" || e.event != "" || e.data != "")
    ensures Read(Frames(b[i].delivered)) == Expected(b[i].accepted, "")
    ensures (forall e :: e in b[i].accepted ==> e.data != "") ==> |Read(Frames(b[i].delivered))| == |b[i].accepted|
  {
    AllDeliveredIff(b, length, i);
    StreamReadBack(b[i].accepted);
    if forall e :: e in b[i].accepted ==> e.data != "" {
      OneMessageEach(b[i].accepted, "");
    }
  }
}
