/** The two readers against a printer of events, and against each other. */
module SseAgreement {
  import opened Text
  import opened SseBatch
  import opened SseIncremental

  function LineEnd(crlf: bool): string { if crlf then [CR] else "" }

  function DataLines(lines: seq<string>, crlf: bool): seq<string> {
    if lines == [] then [] else [DATA + " " + lines[0] + LineEnd(crlf)] + DataLines(lines[1..], crlf)
  }

  /** Every event as data lines and a blank line, LF not yet written. */
  function PrintLines(ps: seq<string>, crlf: bool): seq<string> {
    if ps == [] then [] else DataLines(Lines(ps[0]), crlf) + [LineEnd(crlf)] + PrintLines(ps[1..], crlf)
  }

  /** `ps` as a stream framed with LF or with CR LF. */
  function Print(ps: seq<string>, crlf: bool): string {
    Terminated(PrintLines(ps, crlf))
  }

  predicate EndsWithCr(l: string) { l != "" && l[|l| - 1] == CR }

  /** What a printed payload must not be to come back. */
  ghost predicate Printable(p: string, crlf: bool) {
    p != "[DONE]" && (crlf || forall l | l in Lines(p) :: !EndsWithCr(l))
  }

  function Values(lines: seq<string>, crlf: bool): seq<string> {
    if lines == [] then []
    else [if crlf then lines[0] else StripCr(lines[0])] + Values(lines[1..], crlf)
  }

  function Back(p: string, crlf: bool): (b: seq<string>)
    ensures |b| <= 1
  {
    Dispatch(Values(Lines(p), crlf))
  }

  function AllBack(ps: seq<string>, crlf: bool): (b: seq<string>)
    ensures |b| <= |ps|
  {
    if ps == [] then [] else Back(ps[0], crlf) + AllBack(ps[1..], crlf)
  }

  lemma PrintedLine(l: string, crlf: bool)
    ensures var v := StripCr(DATA + " " + l + LineEnd(crlf));
      v != "" && DATA <= v && LooseValue(v) == if crlf then l else StripCr(l)
  {
    var s := DATA + " " + l;
    assert crlf ==> (s + [CR])[..|s|] == s;
    assert s + "" == s;
    assert |s| > 6 ==> s[|s| - 1] == l[|l| - 1] && s[..|s| - 1] == DATA + " " + l[..|l| - 1];
  }

  lemma {:induction false} ReadDataLines(data: seq<string>, lines: seq<string>, crlf: bool, rest: seq<string>)
    ensures Events(data, DataLines(lines, crlf) + rest) == Events(data + Values(lines, crlf), rest)
    decreases |lines|
  {
    if lines == [] {
      assert DataLines(lines, crlf) + rest == rest && data + Values(lines, crlf) == data;
    } else {
      var first, later := DATA + " " + lines[0] + LineEnd(crlf), DataLines(lines[1..], crlf);
      var v, vs := if crlf then lines[0] else StripCr(lines[0]), Values(lines[1..], crlf);
      assert DataLines(lines, crlf) == [first] + later && Values(lines, crlf) == [v] + vs;
      PrintedLine(lines[0], crlf);
      assert DataAfter(StripCr(first), data) == data + [v];
      hide *;
      EventsOfCons(data, first, later + rest);
      ConcatIsAssociative([first], later, rest);
      ReadDataLines(data + [v], lines[1..], crlf, rest);
      ConcatIsAssociative(data, [v], vs);
    }
  }

  lemma PrintLinesOfCons(p: string, ps: seq<string>, crlf: bool)
    ensures PrintLines([p] + ps, crlf) == DataLines(Lines(p), crlf) + ([LineEnd(crlf)] + PrintLines(ps, crlf))
  {
    assert ([p] + ps)[1..] == ps;
    ConcatIsAssociative(DataLines(Lines(p), crlf), [LineEnd(crlf)], PrintLines(ps, crlf));
  }

  lemma {:induction false} ReadPrinted(ps: seq<string>, crlf: bool, rest: seq<string>)
    ensures Events([], PrintLines(ps, crlf) + rest) == AllBack(ps, crlf) + Events([], rest)
  {
    if ps == [] {
      assert PrintLines(ps, crlf) + rest == rest;
    } else {
      var lines, later, blank := Lines(ps[0]), PrintLines(ps[1..], crlf), LineEnd(crlf);
      assert StripCr(blank) == "" && AllBack(ps, crlf) == Back(ps[0], crlf) + AllBack(ps[1..], crlf);
      var vs := Values(lines, crlf);
      assert Back(ps[0], crlf) == Dispatch(vs) && DataAfter("", vs) == [] && [] + vs == vs;
      hide *;
      assert ps == [ps[0]] + ps[1..];
      PrintLinesOfCons(ps[0], ps[1..], crlf);
      ConcatIsAssociative(DataLines(lines, crlf), [blank] + later, rest);
      ConcatIsAssociative([blank], later, rest);
      ReadDataLines([], lines, crlf, [blank] + (later + rest));
      EventsOfCons(vs, blank, later + rest);
      ReadPrinted(ps[1..], crlf, rest);
      ConcatIsAssociative(Dispatch(vs), AllBack(ps[1..], crlf), Events([], rest));
    }
  }

  lemma {:induction false} DataLinesLfFree(lines: seq<string>, crlf: bool)
    requires LfFree(lines)
    ensures LfFree(DataLines(lines, crlf))
  {
    if lines != [] {
      assert lines[0] in lines && LfFree(lines[1..]);
      DataLinesLfFree(lines[1..], crlf);
    }
  }

  lemma {:induction false} PrintLinesLfFree(ps: seq<string>, crlf: bool)
    ensures LfFree(PrintLines(ps, crlf))
  {
    if ps != [] {
      DataLinesLfFree(Lines(ps[0]), crlf);
      PrintLinesLfFree(ps[1..], crlf);
    }
  }

  lemma {:induction false} ValuesOfCrFree(lines: seq<string>, crlf: bool)
    ensures Values(lines, crlf) == lines <==> crlf || forall l | l in lines :: !EndsWithCr(l)
    ensures |Values(lines, crlf)| == |lines|
  {
    if lines != [] {
      assert lines == [lines[0]] + lines[1..];
      ValuesOfCrFree(lines[1..], crlf);
      assert forall l :: l in lines <==> l == lines[0] || l in lines[1..];
      assert StripCr(lines[0]) == lines[0] <==> !EndsWithCr(lines[0]);
      assert Values(lines, crlf)[0] == (if crlf then lines[0] else StripCr(lines[0]));
      assert Values(lines, crlf)[1..] == Values(lines[1..], crlf);
    }
  }

  lemma {:induction false} ValuesLfFree(lines: seq<string>, crlf: bool)
    requires LfFree(lines)
    ensures LfFree(Values(lines, crlf))
  {
    if lines != [] {
      assert lines[0] in lines && LfFree(lines[1..]);
      ValuesLfFree(lines[1..], crlf);
    }
  }

  lemma BackIff(p: string, crlf: bool)
    ensures Back(p, crlf) == [p] <==> Printable(p, crlf)
  {
    var ls := Lines(p);
    var vs := Values(ls, crlf);
    ValuesOfCrFree(ls, crlf);
    ValuesLfFree(ls, crlf);
    JoinOfLines(p);
    LinesOfJoin(vs);
  }

  lemma {:induction false} AllBackIff(ps: seq<string>, crlf: bool)
    ensures AllBack(ps, crlf) == ps <==> forall p | p in ps :: Printable(p, crlf)
  {
    if ps != [] {
      var first, later := Back(ps[0], crlf), AllBack(ps[1..], crlf);
      BackIff(ps[0], crlf);
      AllBackIff(ps[1..], crlf);
      assert ps == [ps[0]] + ps[1..];
      assert forall p :: p in ps <==> p == ps[0] || p in ps[1..];
      hide *;
      if first + later == ps {
        assert |first| == 1 && first[0] == ps[0];
        assert later == (first + later)[1..] == ps[1..];
      }
    }
  }

  lemma LinesOfPrint(ps: seq<string>, crlf: bool)
    ensures Lines(Print(ps, crlf)) == PrintLines(ps, crlf) + [""]
  {
    PrintLinesLfFree(ps, crlf);
    LinesOfTerminated(PrintLines(ps, crlf), "");
    assert Terminated(PrintLines(ps, crlf)) + "" == Print(ps, crlf);
    assert Lines("") == [""];
  }

  /** Printed events come back from the incremental reader exactly when each of them is printable. */
  lemma RoundTrip(ps: seq<string>, crlf: bool)
    ensures ReadOn([], Print(ps, crlf)) == ps <==> forall p | p in ps :: Printable(p, crlf)
  {
    LinesOfPrint(ps, crlf);
    ReadPrinted(ps, crlf, [""]);
    assert Events([], [""]) == [];
    AllBackIff(ps, crlf);
  }

  /** The stream may stop inside the last event: no blank line, no final LF. */
  lemma UnterminatedRoundTrip(ps: seq<string>, crlf: bool)
    requires ps != []
    ensures var ls := PrintLines(ps, crlf);
      ls != [] && ReadOn([], Join(ls[..|ls| - 1])) == ReadOn([], Print(ps, crlf))
  {
    hide *;
    LineEndsAreBlank(crlf);
    var ls := PrintLines(ps, crlf);
    LastPrintedLine(ps, crlf);
    var open := ls[..|ls| - 1];
    assert ls == open + [LineEnd(crlf)];
    PrintLinesLfFree(ps, crlf);
    LfFreePrefix(open, LineEnd(crlf));
    LinesOfJoin(open);
    LinesOfPrint(ps, crlf);
    TrailingBlank([], open, LineEnd(crlf));
    TrailingBlank([], ls, "");
    ReadOnIs([], Join(open));
    ReadOnIs([], Print(ps, crlf));
  }

  lemma LineEndsAreBlank(crlf: bool)
    ensures StripCr(LineEnd(crlf)) == "" && StripCr("") == ""
  {
  }

  lemma LfFreePrefix(ls: seq<string>, l: string)
    requires LfFree(ls + [l])
    ensures LfFree(ls)
  {
    assert forall x | x in ls :: x in ls + [l];
  }

  lemma {:induction false} LastPrintedLine(ps: seq<string>, crlf: bool)
    requires ps != []
    ensures var ls := PrintLines(ps, crlf); |ls| > 1 && ls[|ls| - 1] == LineEnd(crlf)
  {
    assert DataLines(Lines(ps[0]), crlf) != [];
    if |ps| > 1 {
      LastPrintedLine(ps[1..], crlf);
    }
  }

  lemma {:induction false} TrailingBlank(data: seq<string>, lines: seq<string>, blank: string)
    requires StripCr(blank) == ""
    ensures Events(data, lines + [blank]) == Events(data, lines)
    decreases |lines|
  {
    if lines == [] {
      assert lines + [blank] == [blank] + [];
      EventsOfCons(data, blank, []);
      assert Dispatch(data) + Dispatch([]) == Dispatch(data);
    } else {
      var line, later := lines[0], lines[1..];
      hide *;
      assert lines == [line] + later;
      ConcatIsAssociative([line], later, [blank]);
      EventsOfCons(data, line, later);
      EventsOfCons(data, line, later + [blank]);
      TrailingBlank(DataAfter(StripCr(line), data), later, blank);
    }
  }

  // ---- the batch reader ----

  /** In every event the values are trimmed and the first one is not empty. `first` says
      that the open event has no value yet. */
  ghost predicate CleanEvents(first: bool, lines: seq<string>)
    decreases |lines|
  {
    if lines == [] then true
    else if lines[0] == "" then CleanEvents(true, lines[1..])
    else if DATA <= lines[0] then
      var v := LooseValue(lines[0]);
      IsTrimmed(v) && (first ==> v != "") && CleanEvents(false, lines[1..])
    else CleanEvents(first, lines[1..])
  }

  ghost predicate NoCrEnds(lines: seq<string>) {
    forall l | l in lines :: !EndsWithCr(l)
  }

  /** Both readers look at the same value; the batch reader trims it. */
  lemma SameLine(line: string)
    requires !EndsWithCr(line)
    ensures StripCr(line) == line
    ensures DATA <= line ==> DataValue(line) == Options.Some(TrimSpace(LooseValue(line)))
    ensures !(DATA <= line) ==> DataValue(line) == Options.None
  {
    assert TrimRight(line, Returns) == line;
    if DATA <= line {
      var v := line[|DATA|..];
      if v != "" && v[0] == ' ' {
        assert TrimLeft(v, Spaces) == TrimLeft(v[1..], Spaces);
      }
    }
  }

  /** Lengths, counted so that an open event without values is shorter than one with an empty value. */
  function PayloadSize(payload: string): nat { if payload == "" then 0 else |payload| + 1 }

  function DataSize(data: seq<string>): nat { if data == [] then 0 else |Join(data)| + 1 }

  /** What the batch payload keeps to of the incremental one while an event is open. */
  ghost predicate Related(payload: string, data: seq<string>) {
    PayloadSize(payload) <= DataSize(data) && (data == [DONE] ==> payload == DONE)
  }

  lemma DataStep(data: seq<string>, v: string)
    ensures DataSize(data + [v]) == DataSize(data) + |v| + 1
  {
    JoinAppend(data, v);
  }

  lemma PayloadStep(payload: string, line: string)
    requires DATA <= line && !EndsWithCr(line)
    ensures var v := TrimSpace(LooseValue(line));
      && PayloadSize(Gather(payload, line)) <= PayloadSize(payload) + |v| + 1
      && (payload == v == "" ==> PayloadSize(Gather(payload, line)) == 0)
      && (payload == "" ==> Gather(payload, line) == v)
  {
    SameLine(line);
  }

  /** Only the single value [DONE] joins to [DONE]. */
  lemma JoinIsDone(data: seq<string>)
    ensures Join(data) == DONE <==> data == [DONE]
  {
    if |data| > 1 {
      assert Join(data)[|data[0]|] == LF;
    }
  }

  lemma RelatedStep(payload: string, data: seq<string>, line: string)
    requires Related(payload, data) && DATA <= line && !EndsWithCr(line)
    ensures var v := LooseValue(line);
      var p := Gather(payload, line);
      && Related(p, data + [v])
      && (PayloadSize(payload) < DataSize(data) || !IsTrimmed(v) || (payload == v == "")
          ==> PayloadSize(p) < DataSize(data + [v]))
  {
    EmptySizes(payload);
    DoneIsTrimmed();
    assert PayloadSize(payload) <= DataSize(data);
    hide *;
    var v := LooseValue(line);
    TrimSpaceOf(v);
    DataStep(data, v);
    PayloadStep(payload, line);
    if data + [v] == [DONE] {
      assert data == [] && v == DONE;
    }
    RelatedWhen(Gather(payload, line), data + [v]);
  }

  lemma RelatedWhen(payload: string, data: seq<string>)
    requires PayloadSize(payload) <= DataSize(data) && (data == [DONE] ==> payload == DONE)
    ensures Related(payload, data)
  {
  }

  lemma DoneIsTrimmed()
    ensures IsTrimmed(DONE)
  {
  }

  lemma EmptySizes(payload: string)
    ensures DataSize([]) == 0
    ensures PayloadSize(payload) == 0 <==> payload == ""
  {
  }

  lemma {:induction false} NotMoreBatchPayloads(payload: string, data: seq<string>, lines: seq<string>)
    requires NoCrEnds(lines) && Related(payload, data)
    ensures |Payloads(payload, lines)| <= |Events(data, lines)|
    decreases |lines|
  {
    JoinIsDone(data);
    assert |Emit(payload)| <= |Dispatch(data)|;
    if lines != [] {
      var line, later := lines[0], lines[1..];
      assert line in lines && NoCrEnds(later);
      SameLine(line);
      if line == "" {
        NotMoreBatchPayloads("", [], later);
      } else if DATA <= line {
        RelatedStep(payload, data, line);
        NotMoreBatchPayloads(Gather(payload, line), data + [LooseValue(line)], later);
      } else {
        NotMoreBatchPayloads(payload, data, later);
      }
    }
  }

  /** Once the batch payload is the shorter one, the results differ. */
  lemma {:induction false} ShorterPayloadDiffers(payload: string, data: seq<string>, lines: seq<string>)
    requires NoCrEnds(lines) && Related(payload, data)
    requires PayloadSize(payload) < DataSize(data)
    ensures Payloads(payload, lines) != Events(data, lines)
    decreases |lines|
  {
    JoinIsDone(data);
    assert Dispatch(data) == [Join(data)] != Emit(payload);
    if lines != [] {
      var line, later := lines[0], lines[1..];
      assert line in lines && NoCrEnds(later);
      SameLine(line);
      if line == "" {
        NotMoreBatchPayloads("", [], later);
        DifferentHeads(Emit(payload), Payloads("", later), Join(data), Events([], later));
      } else if DATA <= line {
        RelatedStep(payload, data, line);
        ShorterPayloadDiffers(Gather(payload, line), data + [LooseValue(line)], later);
      } else {
        ShorterPayloadDiffers(payload, data, later);
      }
    }
  }

  lemma DifferentHeads(a: seq<string>, as_: seq<string>, b: string, bs: seq<string>)
    requires |a| <= 1 && |as_| <= |bs| && a != [b]
    ensures a + as_ != [b] + bs
  {
    if a != [] {
      assert (a + as_)[0] == a[0];
      assert ([b] + bs)[0] == b;
    }
  }

  /** A clean data line keeps the readers on the same open event. */
  lemma CleanStep(data: seq<string>, line: string)
    requires DATA <= line && !EndsWithCr(line)
    requires data != [] ==> Join(data) != ""
    requires IsTrimmed(LooseValue(line)) && (data == [] ==> LooseValue(line) != "")
    ensures Gather(Join(data), line) == Join(data + [LooseValue(line)]) != ""
  {
    SameLine(line);
    TrimSpaceOf(LooseValue(line));
    JoinAppend(data, LooseValue(line));
  }

  /** Any other data line makes the results differ. */
  lemma UncleanStep(data: seq<string>, line: string, later: seq<string>)
    requires NoCrEnds(later) && DATA <= line && !EndsWithCr(line)
    requires !IsTrimmed(LooseValue(line)) || (data == [] && LooseValue(line) == "")
    ensures Payloads(Gather(Join(data), line), later) != Events(data + [LooseValue(line)], later)
  {
    JoinIsDone(data);
    assert PayloadSize(Join(data)) <= DataSize(data);
    RelatedWhen(Join(data), data);
    assert data == [] ==> Join(data) == "";
    hide *;
    RelatedStep(Join(data), data, line);
    ShorterPayloadDiffers(Gather(Join(data), line), data + [LooseValue(line)], later);
  }

  /** On lines that do not end in CR the readers hand on the same payloads exactly when
      every event is clean. */
  lemma {:induction false} ReadersAgreeIff(data: seq<string>, lines: seq<string>)
    requires NoCrEnds(lines)
    requires data != [] ==> Join(data) != ""
    ensures Payloads(Join(data), lines) == Events(data, lines) <==> CleanEvents(data == [], lines)
    decreases |lines|
  {
    assert Emit(Join(data)) == Dispatch(data);
    if lines != [] {
      var line, later := lines[0], lines[1..];
      assert line in lines && NoCrEnds(later) && lines == [line] + later;
      SameLine(line);
      if line == "" {
        ReadersAgreeIff([], later);
        SamePrefix(Dispatch(data), Payloads("", later), Events([], later));
      } else if DATA <= line {
        var v := LooseValue(line);
        if IsTrimmed(v) && (data == [] ==> v != "") {
          CleanStep(data, line);
          ReadersAgreeIff(data + [v], later);
        } else {
          UncleanStep(data, line, later);
        }
      } else {
        ReadersAgreeIff(data, later);
      }
    }
  }

  lemma SamePrefix(a: seq<string>, x: seq<string>, y: seq<string>)
    ensures a + x == a + y <==> x == y
  {
    if a + x == a + y {
      assert x == (a + x)[|a|..] == (a + y)[|a|..] == y;
    }
  }

  /** The agreement on whole texts. */
  lemma ReadersAgreeOnText(text: string)
    requires NoCrEnds(Lines(text))
    ensures Payloads("", Lines(text)) == ReadOn([], text) <==> CleanEvents(true, Lines(text))
  {
    ReadersAgreeIff([], Lines(text));
  }

  // ---- CR LF framing ----

  /** Without LF LF the batch reader sees at most one event. */
  lemma NoBlankOneEvent(text: string)
    requires NoBlank(text)
    ensures |Payloads("", Lines(text))| <= 1
  {
    LastBlock(text);
  }

  /** A payload that neither reader would alter. */
  ghost predicate CleanPayload(p: string) {
    p != DONE && Lines(p)[0] != "" && forall l | l in Lines(p) :: IsTrimmed(l)
  }

  lemma CleanIsPrintable(p: string, crlf: bool)
    requires CleanPayload(p)
    ensures Printable(p, crlf)
  {
    forall l | l in Lines(p) ensures !EndsWithCr(l) {
      assert IsTrimmed(l);
    }
  }

  lemma CleanEventsOfCons(first: bool, line: string, lines: seq<string>)
    ensures CleanEvents(first, [line] + lines) ==
      if line == "" then CleanEvents(true, lines)
      else if DATA <= line then
        IsTrimmed(LooseValue(line)) && (first ==> LooseValue(line) != "") && CleanEvents(false, lines)
      else CleanEvents(first, lines)
  {
    assert ([line] + lines)[1..] == lines;
  }

  lemma CleanPrintedLine(l: string)
    requires IsTrimmed(l)
    ensures var p := DATA + " " + l; DATA <= p && LooseValue(p) == l && !EndsWithCr(p)
  {
    var p := DATA + " " + l;
    assert p[5..][1..] == l;
    assert l != "" ==> p[|p| - 1] == l[|l| - 1];
  }

  lemma {:induction false} CleanDataLines(first: bool, lines: seq<string>, rest: seq<string>)
    requires lines != [] && forall l | l in lines :: IsTrimmed(l)
    requires first ==> lines[0] != ""
    ensures CleanEvents(first, DataLines(lines, false) + rest) == CleanEvents(false, rest)
    ensures NoCrEnds(DataLines(lines, false))
    decreases |lines|
  {
    var l, more := lines[0], lines[1..];
    assert l in lines && forall x | x in more :: x in lines;
    CleanPrintedLine(l);
    var printed, later := DATA + " " + l, DataLines(more, false);
    assert printed + "" == printed;
    assert DataLines(lines, false) == [printed] + later;
    assert printed != "" && (more == [] ==> later == []);
    hide *;
    CleanEventsOfCons(first, printed, later + rest);
    ConcatIsAssociative([printed], later, rest);
    if more == [] {
      assert later + rest == rest;
      NoCrEndsOfCons(printed, later);
    } else {
      CleanDataLines(false, more, rest);
      NoCrEndsOfCons(printed, later);
    }
  }

  lemma NoCrEndsOfCons(line: string, lines: seq<string>)
    requires !EndsWithCr(line) && (lines == [] || NoCrEnds(lines))
    ensures NoCrEnds([line] + lines)
  {
  }

  lemma {:induction false} CleanPrintLines(ps: seq<string>)
    requires forall p | p in ps :: CleanPayload(p)
    ensures CleanEvents(true, PrintLines(ps, false) + [""]) && NoCrEnds(PrintLines(ps, false))
  {
    if ps == [] {
      assert [] + [""] == [""];
    } else {
      var p, more := ps[0], ps[1..];
      assert p in ps && forall x | x in more :: x in ps;
      CleanPrintLines(more);
      var lines, later := DataLines(Lines(p), false), PrintLines(more, false);
      CleanDataLines(true, Lines(p), [""] + (later + [""]));
      CleanEventsOfCons(false, "", later + [""]);
      assert ps == [p] + more && LineEnd(false) == "";
      PrintLinesOfCons(p, more, false);
      ConcatIsAssociative(lines, [""] + later, [""]);
      ConcatIsAssociative([""], later, [""]);
    }
  }

  lemma {:induction false} CrlfLinesNotEmpty(ps: seq<string>)
    ensures "" !in PrintLines(ps, true)
  {
    if ps != [] {
      CrlfLinesNotEmpty(ps[1..]);
      DataLinesNotEmpty(Lines(ps[0]), true);
    }
  }

  lemma {:induction false} DataLinesNotEmpty(lines: seq<string>, crlf: bool)
    ensures "" !in DataLines(lines, crlf)
  {
    if lines != [] {
      DataLinesNotEmpty(lines[1..], crlf);
    }
  }

  /** A CR before the line end changes nothing for the batch reader inside an event. */
  lemma {:induction false} GatherDataLines(payload: string, lines: seq<string>)
    ensures GatherAll(payload, DataLines(lines, true)) == GatherAll(payload, DataLines(lines, false))
    decreases |lines|
  {
    if lines != [] {
      var l := DATA + " " + lines[0];
      assert (l + [CR])[..|l|] == l && l + "" == l;
      assert TrimRight(l + [CR], Returns) == TrimRight(l, Returns);
      assert Gather(payload, l + [CR]) == Gather(payload, l + "");
      GatherDataLines(Gather(payload, l), lines[1..]);
    }
  }

  lemma BatchReadsLf(ps: seq<string>)
    requires forall p | p in ps :: CleanPayload(p)
    ensures Payloads("", Lines(Print(ps, false))) == ps
  {
    forall p | p in ps ensures Printable(p, false) {
      CleanIsPrintable(p, false);
    }
    RoundTrip(ps, false);
    CleanPrintLines(ps);
    LinesOfPrint(ps, false);
    ReadersAgreeOnText(Print(ps, false));
  }

  lemma BatchReadsOneCrlf(p: string)
    requires CleanPayload(p)
    ensures Payloads("", Lines(Print([p], true))) == [p]
  {
    var ls, lf, open := DataLines(Lines(p), true), DataLines(Lines(p), false), GatherAll("", DataLines(Lines(p), true));
    assert PrintLines([p], false) == lf + [""] && PrintLines([p], true) == ls + [[CR]] by {
      PrintLinesOfCons(p, [], false);
      PrintLinesOfCons(p, [], true);
      assert [p] + [] == [p];
    }
    assert Payloads("", [""]) == [];
    GatherCrLine(open);
    hide *;
    BatchReadsLf([p]);
    LinesOfPrint([p], false);
    LinesOfPrint([p], true);
    DataLinesNotEmpty(Lines(p), false);
    DataLinesNotEmpty(Lines(p), true);
    ConcatIsAssociative(lf, [""], [""]);
    InnerGroup("", lf, [""]);
    GatherDataLines("", Lines(p));
    LastLine("", ls + [[CR]], "");
    GatherAllAppend("", ls + [[CR]], "");
    GatherAllAppend("", ls, [CR]);
    GatherEmptyLine(open);
  }

  lemma GatherCrLine(payload: string)
    ensures Gather(payload, [CR]) == payload
  {
  }

  /** Framed with LF the batch reader returns clean events; framed with CR LF it merges
      them all into one payload, so it returns them only when there is at most one. */
  lemma BatchReadsPrinted(ps: seq<string>, crlf: bool)
    requires forall p | p in ps :: CleanPayload(p)
    ensures Payloads("", Lines(Print(ps, crlf))) == ps <==> !crlf || |ps| <= 1
  {
    if !crlf {
      BatchReadsLf(ps);
    } else if |ps| == 1 {
      BatchReadsOneCrlf(ps[0]);
      assert ps == [ps[0]];
    } else {
      LinesOfPrint(ps, true);
      CrlfLinesNotEmpty(ps);
      LastLine("", PrintLines(ps, true), "");
      if ps == [] {
        GatherEmptyLine("");
        GatherAllOfCons("", "", []);
        assert [] + [""] == [""] + [];
      }
    }
  }
}
