/** The text of an event stream: what the server writes for an event, and the standard's reading of
    it (sections 9.2.5 and 9.2.6 of the HTML Living Standard). */
module SseFraming {
  import opened Options

  datatype Event = Event(id: string, event: string, data: string)

  predicate Empty(e: Event) {
    e.id == "" && e.event == "" && e.data == ""
  }

  /******* Writing *******/

  function Line(field: string, value: string): string {
    if value == "" then "" else field + ": " + value + "\n"
  }

  function Frame(e: Event): string {
    Line("id", e.id) + Line("event", e.event) + Line("data", e.data) + "\n"
  }

  function Frames(evs: seq<Event>): string {
    if evs == [] then "" else Frame(evs[0]) + Frames(evs[1..])
  }

  // The events before the first that is empty in all its parts, which ends the stream.
  function Served(evs: seq<Event>): seq<Event> {
    if evs == [] || Empty(evs[0]) then [] else [evs[0]] + Served(evs[1..])
  }

  class Response {
    var body: string

    constructor ()
      ensures body == ""
    {
      body := "";
    }

    method Print(s: string)
      modifies this
      ensures body == old(body) + s
    {
      body := body + s;
    }

    method PrintLine(field: string, value: string)
      modifies this
      ensures body == old(body) + Line(field, value)
    {
      if |value| > 0 {
        Print(field + ": " + value + "\n");
      }
    }

    method WriteEvent(ev: Event)
      modifies this
      ensures body == old(body) + Frame(ev)
    {
      PrintLine("id", ev.id);
      PrintLine("event", ev.event);
      PrintLine("data", ev.data);
      Print("\n");
      Associates(old(body), Line("id", ev.id), Line("event", ev.event));
      Associates(old(body), Line("id", ev.id) + Line("event", ev.event), Line("data", ev.data));
      Associates(old(body), Line("id", ev.id) + Line("event", ev.event) + Line("data", ev.data), "\n");
    }

    // Writes the events in the order they are received, until an empty one, the end, or the one whose
    // flush fails.
    method Serve(evs: seq<Event>, flushFails: Option<nat>)
      modifies this
      ensures body == old(body) + Frames(Flushed(Served(evs), flushFails))
    {
      var i := 0;
      assert evs[..0] == [] && evs[0..] == evs && old(body) + "" == old(body);
      while i < |evs|
        invariant i <= |evs|
        invariant body == old(body) + Frames(evs[..i]) && Served(evs) == evs[..i] + Served(evs[i..])
        invariant flushFails.Some? ==> i <= flushFails.value
      {
        var ev := evs[i];
        if ev.id == "" && ev.event == "" && |ev.data| == 0 {
          assert evs[i..][0] == ev && Served(evs) == evs[..i];
          return;
        }
        ServedNext(evs, i);
        WriteEvent(ev);
        if flushFails == Some(i) {
          assert Served(evs)[..i + 1] == evs[..i + 1];
          return;
        }
        i := i + 1;
      }
      assert evs[..|evs|] == evs && Served(evs) == evs;
    }
  }

  // What was written when the flush of the event at this place failed.
  function Flushed(evs: seq<Event>, flushFails: Option<nat>): seq<Event> {
    if flushFails.Some? && flushFails.value < |evs| then evs[..flushFails.value + 1] else evs
  }

  // The event whose flush fails has been written all the same.
  lemma FlushedIncludes(evs: seq<Event>, n: nat)
    requires n < |evs|
    ensures Frames(Flushed(evs, Some(n))) == Frames(evs[..n]) + Frame(evs[n])
  {
    assert evs[..n + 1] == evs[..n] + [evs[n]];
    FramesAppend(evs[..n], evs[n]);
  }

  lemma Associates<T>(a: seq<T>, b: seq<T>, c: seq<T>)
    ensures a + (b + c) == a + b + c
  {
  }

  lemma ServedNext(evs: seq<Event>, i: nat)
    requires i < |evs| && !Empty(evs[i])
    ensures evs[..i] + Served(evs[i..]) == evs[..i + 1] + Served(evs[i + 1..])
    ensures forall body :: body + Frames(evs[..i]) + Frame(evs[i]) == body + Frames(evs[..i + 1])
  {
    assert evs[i..][0] == evs[i] && evs[i..][1..] == evs[i + 1..];
    assert Served(evs[i..])[1..] == Served(evs[i + 1..]);
    assert evs[..i + 1] == evs[..i] + [evs[i]];
    FramesAppend(evs[..i], evs[i]);
    forall body ensures body + Frames(evs[..i]) + Frame(evs[i]) == body + Frames(evs[..i + 1]) {
      Associates(body, Frames(evs[..i]), Frame(evs[i]));
    }
  }

  lemma {:induction false} FramesAppend(evs: seq<Event>, e: Event)
    ensures Frames(evs + [e]) == Frames(evs) + Frame(e)
    decreases |evs|
  {
    if evs == [] {
      assert [e][1..] == [] && Frame(e) + "" == Frame(e);
    } else {
      assert (evs + [e])[1..] == evs[1..] + [e];
      FramesAppend(evs[1..], e);
      Associates(Frame(evs[0]), Frames(evs[1..]), Frame(e));
    }
  }

  // An event is served unless all three of its parts are empty, and such an event ends the stream.
  lemma {:induction false} ServedUpTo(evs: seq<Event>, k: nat)
    requires k <= |evs| && forall i :: 0 <= i < k ==> evs[i].id != "" || evs[i].event != "" || evs[i].data != ""
    requires k < |evs| ==> evs[k].id == "" && evs[k].event == "" && evs[k].data == ""
    ensures Served(evs) == evs[..k]
    decreases k
  {
    if k > 0 {
      ServedUpTo(evs[1..], k - 1);
      assert evs[1..][..k - 1] == evs[..k][1..];
    }
  }

  /******* Reading *******/

  // The lines of a stream, each ended by LF, CR, or both; a line without an end is left out.
  function Lines(s: string, line: string): seq<string>
    decreases |s|
  {
    if s == "" then []
    else if s[0] == '\n' then [line] + Lines(s[1..], "")
    else if s[0] == '\r' then [line] + Lines(if |s| > 1 && s[1] == '\n' then s[2..] else s[1..], "")
    else Lines(s[1..], line + [s[0]])
  }

  datatype Message = Message(kind: string, data: string, lastID: string)

  datatype Reader = Reader(data: string, kind: string, lastID: string, out: seq<Message>)

  const NEW_READER := Reader("", "", "", [])

  function Colon(line: string): (n: nat)
    ensures n <= |line|
    ensures n < |line| ==> line[n] == ':'
    ensures ':' !in line[..n]
  {
    if line == "" || line[0] == ':' then 0 else 1 + Colon(line[1..])
  }

  function Name(line: string): string {
    line[..Colon(line)]
  }

  // What follows the colon, less one space.
  function Value(line: string): string {
    if Colon(line) == |line| then ""
    else
      var rest := line[Colon(line) + 1..];
      if rest != "" && rest[0] == ' ' then rest[1..] else rest
  }

  function Dispatch(r: Reader): Reader {
    if r.data == "" then r.(kind := "")
    else
      var data := if r.data[|r.data| - 1] == '\n' then r.data[..|r.data| - 1] else r.data;
      Reader("", "", r.lastID, r.out + [Message(if r.kind == "" then "message" else r.kind, data, r.lastID)])
  }

  function ReadLine(r: Reader, line: string): Reader {
    if line == "" then Dispatch(r)
    else if line[0] == ':' then r
    else if Name(line) == "event" then r.(kind := Value(line))
    else if Name(line) == "data" then r.(data := r.data + Value(line) + "\n")
    else if Name(line) == "id" then (if '\0' in Value(line) then r else r.(lastID := Value(line)))
    else r
  }

  function ReadLines(r: Reader, lines: seq<string>): Reader
    decreases |lines|
  {
    if lines == [] then r else ReadLines(ReadLine(r, lines[0]), lines[1..])
  }

  function Read(s: string): seq<Message> {
    ReadLines(NEW_READER, Lines(s, "")).out
  }

  /******* Reading back what was written *******/

  predicate OneLine(s: string) {
    '\n' !in s && '\r' !in s
  }

  predicate Clean(e: Event) {
    OneLine(e.id) && OneLine(e.event) && OneLine(e.data) && '\0' !in e.id
  }

  // What the reader should dispatch: an event without data is not dispatched, but its id is kept.
  function Expected(evs: seq<Event>, lastID: string): seq<Message> {
    if evs == [] then []
    else
      var e := evs[0];
      var id := if e.id == "" then lastID else e.id;
      (if e.data == "" then [] else [Message(if e.event == "" then "message" else e.event, e.data, id)]) +
      Expected(evs[1..], id)
  }

  lemma {:induction false} LineEnds(l: string, line: string, rest: string)
    requires OneLine(l)
    ensures Lines(l + "\n" + rest, line) == [line + l] + Lines(rest, "")
    decreases |l|
  {
    var s := l + "\n" + rest;
    if l == "" {
      assert s[1..] == rest && line + l == line;
    } else {
      assert s[0] == l[0] && s[1..] == l[1..] + "\n" + rest;
      LineEnds(l[1..], line + [l[0]], rest);
      assert line + [l[0]] + l[1..] == line + l;
    }
  }

  lemma {:induction false} ColonAt(line: string, k: nat)
    requires k < |line| && line[k] == ':' && forall i :: 0 <= i < k ==> line[i] != ':'
    ensures Colon(line) == k
    decreases k
  {
    if k > 0 {
      ColonAt(line[1..], k - 1);
    }
  }

  lemma FieldLine(field: string, value: string)
    requires field == "id" || field == "event" || field == "data"
    ensures Name(field + ": " + value) == field && Value(field + ": " + value) == value
  {
    var line := field + ": " + value;
    ColonAt(line, |field|);
    assert line[..|field|] == field;
    assert line[|field| + 1..] == " " + value;
    assert (" " + value)[1..] == value;
  }

  // One written line, when it is written, is one line read.
  function WrittenLine(field: string, value: string): seq<string> {
    if value == "" then [] else [field + ": " + value]
  }

  lemma LineRead(field: string, value: string, rest: string)
    requires field == "id" || field == "event" || field == "data"
    requires OneLine(value)
    ensures Lines(Line(field, value) + rest, "") == WrittenLine(field, value) + Lines(rest, "")
  {
    if value == "" {
      assert Line(field, value) + rest == rest;
    } else {
      LineEnds(field + ": " + value, "", rest);
      assert Line(field, value) + rest == (field + ": " + value) + "\n" + rest;
      assert "" + (field + ": " + value) == field + ": " + value;
    }
  }

  function FrameLines(e: Event): seq<string> {
    WrittenLine("id", e.id) + WrittenLine("event", e.event) + WrittenLine("data", e.data) + [""]
  }

  lemma FrameRead(e: Event, rest: string)
    requires Clean(e)
    ensures Lines(Frame(e) + rest, "") == FrameLines(e) + Lines(rest, "")
  {
    var d := "\n" + rest;
    var c := Line("data", e.data) + d;
    var b := Line("event", e.event) + c;
    assert Frame(e) + rest == Line("id", e.id) + b;
    LineRead("id", e.id, b);
    LineRead("event", e.event, c);
    LineRead("data", e.data, d);
    LineEnds("", "", rest);
    assert "" + "\n" + rest == d;
  }

  lemma {:induction false} ReadLinesAppend(r: Reader, a: seq<string>, b: seq<string>)
    ensures ReadLines(r, a + b) == ReadLines(ReadLines(r, a), b)
    decreases |a|
  {
    if a == [] {
      assert a + b == b;
    } else {
      assert (a + b)[0] == a[0] && (a + b)[1..] == a[1..] + b;
      ReadLinesAppend(ReadLine(r, a[0]), a[1..], b);
    }
  }

  lemma ReadWritten(r: Reader, field: string, value: string)
    requires field == "id" || field == "event" || field == "data"
    ensures ReadLines(r, WrittenLine(field, value)) ==
            if value == "" then r else ReadLine(r, field + ": " + value)
  {
    if value != "" {
      var w := WrittenLine(field, value);
      assert w[1..] == [];
      assert ReadLines(r, w) == ReadLines(ReadLine(r, w[0]), []);
    }
  }

  lemma FrameDispatches(r: Reader, e: Event)
    requires Clean(e) && r.data == "" && r.kind == ""
    ensures var id := if e.id == "" then r.lastID else e.id;
            ReadLines(r, FrameLines(e)) == Reader("", "", id, r.out + Expected([e], r.lastID))
  {
    var i, k, d := WrittenLine("id", e.id), WrittenLine("event", e.event), WrittenLine("data", e.data);
    ReadLinesAppend(r, i + k + d, [""]);
    ReadLinesAppend(r, i + k, d);
    ReadLinesAppend(r, i, k);
    var r1 := ReadLines(r, i);
    var r2 := ReadLines(r1, k);
    var r3 := ReadLines(r2, d);
    ReadWritten(r, "id", e.id);
    ReadWritten(r1, "event", e.event);
    ReadWritten(r2, "data", e.data);
    FieldLine("id", e.id);
    FieldLine("event", e.event);
    FieldLine("data", e.data);
    assert r3.kind == e.event && r3.out == r.out;
    assert r3.data == if e.data == "" then "" else "" + e.data + "\n";
    assert ReadLines(r3, [""]) == Dispatch(r3);
    if e.data != "" {
      assert r3.data[..|r3.data| - 1] == e.data;
    }
    assert [e][1..] == [];
  }

  lemma ExpectedSplits(evs: seq<Event>, lastID: string)
    requires evs != []
    ensures var id := if evs[0].id == "" then lastID else evs[0].id;
            Expected(evs, lastID) == Expected([evs[0]], lastID) + Expected(evs[1..], id)
  {
    var id := if evs[0].id == "" then lastID else evs[0].id;
    assert [evs[0]][1..] == [];
    assert Expected([evs[0]], lastID) == Expected([evs[0]], lastID)[..] + Expected([], id);
  }

  lemma {:induction false} FramesReadBack(r: Reader, evs: seq<Event>)
    requires (forall e :: e in evs ==> Clean(e)) && r.data == "" && r.kind == ""
    ensures ReadLines(r, Lines(Frames(evs), "")).out == r.out + Expected(evs, r.lastID)
    decreases |evs|
  {
    if evs != [] {
      var e, rest := evs[0], evs[1..];
      var id := if e.id == "" then r.lastID else e.id;
      FrameRead(e, Frames(rest));
      ReadLinesAppend(r, FrameLines(e), Lines(Frames(rest), ""));
      FrameDispatches(r, e);
      var r' := Reader("", "", id, r.out + Expected([e], r.lastID));
      FramesReadBack(r', rest);
      ExpectedSplits(evs, r.lastID);
      Associates(r.out, Expected([e], r.lastID), Expected(rest, id));
    }
  }

  // A standard reader dispatches what was written, in order.
  lemma StreamReadBack(evs: seq<Event>)
    requires forall e :: e in evs ==> Clean(e)
    ensures Read(Frames(evs)) == Expected(evs, "")
  {
    FramesReadBack(NEW_READER, evs);
  }

  // So what was served of clean events, none of them empty in all its parts, is read in full.
  lemma ServedIsRead(evs: seq<Event>)
    requires forall e :: e in evs ==> Clean(e) && (e.id != "" || e.event != "" || e.data != "")
    ensures Read(Frames(Flushed(Served(evs), None))) == Expected(evs, "")
  {
    ServedUpTo(evs, |evs|);
    assert evs[..|evs|] == evs;
    StreamReadBack(evs);
  }

  // The id that a reader holds after the first n events.
  function LastID(evs: seq<Event>, lastID: string, n: nat): string
    requires n <= |evs|
  {
    if n == 0 then lastID else if evs[n - 1].id != "" then evs[n - 1].id else LastID(evs, lastID, n - 1)
  }

  lemma {:induction false} LastIDShifts(evs: seq<Event>, lastID: string, n: nat)
    requires evs != [] && n < |evs|
    ensures LastID(evs, lastID, n + 1) == LastID(evs[1..], if evs[0].id == "" then lastID else evs[0].id, n)
  {
    if n > 0 {
      LastIDShifts(evs, lastID, n - 1);
    }
  }

  // With data in every event nothing is dropped: one message for each event, in order.
  lemma {:induction false} OneMessageEach(evs: seq<Event>, lastID: string)
    requires forall e :: e in evs ==> e.data != ""
    ensures |Expected(evs, lastID)| == |evs|
    ensures forall i :: 0 <= i < |evs| ==>
              Expected(evs, lastID)[i] ==
              Message(if evs[i].event == "" then "message" else evs[i].event, evs[i].data, LastID(evs, lastID, i + 1))
    decreases |evs|
  {
    if evs != [] {
      var id := if evs[0].id == "" then lastID else evs[0].id;
      OneMessageEach(evs[1..], id);
      forall i | 0 < i < |evs|
        ensures Expected(evs, lastID)[i] == Expected(evs[1..], id)[i - 1]
        ensures LastID(evs, lastID, i + 1) == LastID(evs[1..], id, i)
      {
        LastIDShifts(evs, lastID, i);
      }
      assert LastID(evs, lastID, 1) == id by {
        assert LastID(evs, lastID, 0) == lastID;
      }
    }
  }
}
