/** Exactly which events survive the event stream. */
module SseExact {
  import opened SseFraming

  ghost predicate RoundTrips(e: Event) {
    Read(Frame(e)) == [Message(if e.event == "" then "message" else e.event, e.data, e.id)]
  }

  /******* A reader never yields a line end, nor a NUL in an id *******/

  ghost predicate MessageOk(m: Message) {
    OneLine(m.kind) && OneLine(m.lastID) && '\0' !in m.lastID && '\r' !in m.data
  }

  ghost predicate ReaderOk(r: Reader) {
    && MessageOk(Message(r.kind, r.data, r.lastID))
    && (r.data != "" ==> r.data[|r.data| - 1] == '\n')
    && (forall m :: m in r.out ==> MessageOk(m))
  }

  lemma ValueIsPart(line: string)
    ensures forall c :: c in Value(line) ==> c in line
    ensures Name(line) == "data" ==> |Value(line)| + 1 <= |line|
  {
  }

  lemma DispatchOk(r: Reader)
    requires ReaderOk(r)
    ensures ReaderOk(Dispatch(r))
  {
    if r.data != "" {
      var data := r.data[..|r.data| - 1];
      assert forall c :: c in data ==> c in r.data;
    }
  }

  lemma ReadLineOk(r: Reader, line: string)
    requires ReaderOk(r) && OneLine(line)
    ensures ReaderOk(ReadLine(r, line))
  {
    ValueIsPart(line);
    DispatchOk(r);
  }

  lemma {:induction false} LinesOk(s: string, line: string)
    requires OneLine(line)
    ensures forall l :: l in Lines(s, line) ==> OneLine(l)
    decreases |s|
  {
    if s != "" {
      if s[0] == '\n' {
        LinesOk(s[1..], "");
      } else if s[0] == '\r' {
        LinesOk(if |s| > 1 && s[1] == '\n' then s[2..] else s[1..], "");
      } else {
        LinesOk(s[1..], line + [s[0]]);
      }
    }
  }

  lemma {:induction false} ReadLinesOk(r: Reader, lines: seq<string>)
    requires ReaderOk(r) && forall l :: l in lines ==> OneLine(l)
    ensures ReaderOk(ReadLines(r, lines))
    decreases |lines|
  {
    if lines != [] {
      ReadLineOk(r, lines[0]);
      ReadLinesOk(ReadLine(r, lines[0]), lines[1..]);
    }
  }

  lemma RoundTripIsOneLine(e: Event)
    requires RoundTrips(e)
    ensures OneLine(e.id) && OneLine(e.event) && '\0' !in e.id && '\r' !in e.data
  {
    LinesOk(Frame(e), "");
    ReadLinesOk(NEW_READER, Lines(Frame(e), ""));
    assert Message(if e.event == "" then "message" else e.event, e.data, e.id) in Read(Frame(e));
  }

  /******* The first message is no longer than the lines it was made of *******/

  function Total(lines: seq<string>): nat {
    if lines == [] then 0 else |lines[0]| + Total(lines[1..])
  }

  lemma {:induction false} OutGrows(r: Reader, lines: seq<string>)
    ensures r.out <= ReadLines(r, lines).out
    decreases |lines|
  {
    if lines != [] {
      OutGrows(ReadLine(r, lines[0]), lines[1..]);
    }
  }

  lemma {:induction false} FirstMessageIsShort(r: Reader, lines: seq<string>)
    requires ReaderOk(r) && r.out == [] && forall l :: l in lines ==> OneLine(l)
    requires ReadLines(r, lines).out != []
    ensures |ReadLines(r, lines).out[0].data| + 1 <= |r.data| + Total(lines)
    decreases |lines|
  {
    var r' := ReadLine(r, lines[0]);
    ReadLineOk(r, lines[0]);
    ValueIsPart(lines[0]);
    if r'.out == [] {
      FirstMessageIsShort(r', lines[1..]);
    } else {
      OutGrows(r', lines[1..]);
      assert r'.out[0].data == r.data[..|r.data| - 1];
    }
  }

  // Each line took at least one character to end it.
  lemma {:induction false} LinesTakeEnds(s: string, line: string)
    ensures Total(Lines(s, line)) + |Lines(s, line)| <= |s| + |line|
    decreases |s|
  {
    if s != "" {
      if s[0] == '\n' {
        LinesTakeEnds(s[1..], "");
        assert ([line] + Lines(s[1..], ""))[1..] == Lines(s[1..], "");
      } else if s[0] == '\r' {
        var rest := if |s| > 1 && s[1] == '\n' then s[2..] else s[1..];
        LinesTakeEnds(rest, "");
        assert ([line] + Lines(rest, ""))[1..] == Lines(rest, "");
      } else {
        LinesTakeEnds(s[1..], line + [s[0]]);
      }
    }
  }

  lemma {:induction false} TwoLines(s: string, line: string)
    ensures |Lines(s + "\n\n", line)| >= 2
    decreases |s|
  {
    var t := s + "\n\n";
    if s == "" {
      assert t[1..] == "\n" && "\n"[1..] == "";
      assert Lines("\n", "") == [""] + Lines("", "");
    } else if s[0] == '\r' && |s| == 1 {
      assert t[2..] == "\n" && "\n"[1..] == "";
      assert Lines("\n", "") == [""] + Lines("", "");
    } else if s[0] == '\r' && s[1] == '\n' {
      assert t[2..] == s[2..] + "\n\n";
      TwoLines(s[2..], "");
    } else {
      assert t[1..] == s[1..] + "\n\n";
      TwoLines(s[1..], if s[0] == '\n' || s[0] == '\r' then "" else line + [s[0]]);
    }
  }

  lemma {:induction false} FirstLine(s: string) returns (l: string, rest: string)
    requires '\n' in s && '\r' !in s
    ensures s == l + "\n" + rest && OneLine(l)
  {
    if s[0] == '\n' {
      l, rest := "", s[1..];
    } else {
      l, rest := FirstLine(s[1..]);
      l := [s[0]] + l;
    }
  }

  // The reader just before the line that starts the data.
  lemma HeadRead(e: Event, rest: string) returns (r: Reader)
    requires OneLine(e.id) && OneLine(e.event) && e.data != ""
    ensures r.data == "" && r.out == [] && ReaderOk(r)
    ensures Lines(Line("id", e.id) + (Line("event", e.event) + rest), "") ==
            WrittenLine("id", e.id) + (WrittenLine("event", e.event) + Lines(rest, ""))
    ensures ReadLines(NEW_READER, WrittenLine("id", e.id) + (WrittenLine("event", e.event) + Lines(rest, ""))) ==
            ReadLines(r, Lines(rest, ""))
  {
    LineRead("id", e.id, Line("event", e.event) + rest);
    LineRead("event", e.event, rest);
    ReadLinesAppend(NEW_READER, WrittenLine("id", e.id), WrittenLine("event", e.event) + Lines(rest, ""));
    var r1 := ReadLines(NEW_READER, WrittenLine("id", e.id));
    ReadLinesAppend(r1, WrittenLine("event", e.event), Lines(rest, ""));
    r := ReadLines(r1, WrittenLine("event", e.event));
    ReadWritten(NEW_READER, "id", e.id);
    ReadWritten(r1, "event", e.event);
    FieldLine("id", e.id);
    FieldLine("event", e.event);
    ReadLineOk(NEW_READER, "id: " + e.id);
    ReadLineOk(r1, "event: " + e.event);
  }

  lemma SplitTail(l: string, rest: string)
    requires OneLine(l)
    ensures Lines(Line("data", l + "\n" + rest) + "\n", "") == ["data: " + l] + Lines(rest + "\n\n", "")
  {
    assert Line("data", l + "\n" + rest) + "\n" == ("data: " + l) + "\n" + (rest + "\n\n");
    LineEnds("data: " + l, "", rest + "\n\n");
    assert "" + ("data: " + l) == "data: " + l;
  }

  lemma SplitTailIsShort(r: Reader, l: string, rest: string)
    requires ReaderOk(r) && r.data == "" && r.out == [] && OneLine(l)
    ensures var out := ReadLines(r, ["data: " + l] + Lines(rest + "\n\n", "")).out;
            out != [] ==> |out[0].data| < |l| + 1 + |rest|
  {
    var first, more := "data: " + l, Lines(rest + "\n\n", "");
    assert ([first] + more)[0] == first && ([first] + more)[1..] == more;
    var r' := ReadLine(r, first);
    FieldLine("data", l);
    ReadLineOk(r, first);
    LinesOk(rest + "\n\n", "");
    LinesTakeEnds(rest + "\n\n", "");
    TwoLines(rest, "");
    if ReadLines(r', more).out != [] {
      FirstMessageIsShort(r', more);
    }
  }

  // Data with a line end comes back shorter.
  lemma SplitDataIsLost(e: Event)
    requires OneLine(e.id) && OneLine(e.event) && '\n' in e.data && '\r' !in e.data
    ensures !RoundTrips(e)
  {
    var l, rest := FirstLine(e.data);
    var tail := Line("data", e.data) + "\n";
    var r := HeadRead(e, tail);
    assert Frame(e) == Line("id", e.id) + (Line("event", e.event) + tail);
    SplitTail(l, rest);
    SplitTailIsShort(r, l, rest);
  }

  // An event is read back as itself exactly when it has data, no line end anywhere, and no NUL in
  // its id.
  lemma RoundTripsIff(e: Event)
    ensures RoundTrips(e) <==> Clean(e) && e.data != ""
  {
    assert Frames([e]) == Frame(e) by {
      assert [e][1..] == [] && Frame(e) + "" == Frame(e);
    }
    if Clean(e) {
      StreamReadBack([e]);
      assert [e][1..] == [];
    }
    if RoundTrips(e) {
      RoundTripIsOneLine(e);
      if '\n' in e.data {
        SplitDataIsLost(e);
      }
    }
  }
}
