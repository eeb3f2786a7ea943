/** teeStream on printed streams, in either framing: what it keeps, and what is billed from it. */
module SseFraming {
  import opened Options
  import opened Text
  import opened SseBatch
  import opened SseTee
  import opened SseAgreement

  lemma DataLineNotBlank(l: string, crlf: bool)
    ensures !IsBlankLine(DATA + " " + l + LineEnd(crlf) + [LF])
  {
    var s := DATA + " " + l + LineEnd(crlf) + [LF];
    assert s[0] == 'd';
  }

  lemma LineEndIsBlank(crlf: bool)
    ensures IsBlankLine(LineEnd(crlf) + [LF]) && |LineEnd(crlf)| <= 1
  {
    assert ([CR] + [LF])[..1] == [CR] && [CR][..0] == [];
    assert "" + [LF] == [LF] && [LF][..0] == [];
  }

  lemma DataLinesOfCons(l: string, ls: seq<string>, crlf: bool)
    ensures DataLines([l] + ls, crlf) == [DATA + " " + l + LineEnd(crlf)] + DataLines(ls, crlf)
    ensures DataLines([], crlf) == []
  {
    assert ([l] + ls)[1..] == ls;
  }

  /** An event is kept or dropped as a whole. */
  lemma {:induction false} TeeOfEvent(event: seq<string>, ls: seq<string>, crlf: bool, rest: seq<string>)
    requires rest != []
    ensures TeeText(event, DataLines(ls, crlf) + ([LineEnd(crlf)] + rest)) ==
            Kept(Terminated(event + (DataLines(ls, crlf) + [LineEnd(crlf)]))) + TeeText([], rest)
    decreases |ls|
  {
    hide *;
    var end := [LineEnd(crlf)];
    if ls == [] {
      DataLinesOfCons("", [], crlf);
      assert [] + (end + rest) == end + rest && [] + end == end;
      LineEndIsBlank(crlf);
      TeeTextOfMore(event, LineEnd(crlf), rest);
    } else {
      var line, later := DATA + " " + ls[0] + LineEnd(crlf), DataLines(ls[1..], crlf);
      assert ls == [ls[0]] + ls[1..];
      DataLinesOfCons(ls[0], ls[1..], crlf);
      ConcatIsAssociative([line], later, end + rest);
      DataLineNotBlank(ls[0], crlf);
      TeeTextOfMore(event, line, later + (end + rest));
      TeeOfEvent(event + [line], ls[1..], crlf, rest);
      ConcatIsAssociative([line], later, end);
      ConcatIsAssociative(event, [line], later + end);
    }
  }

  /** A printed line mentions usage exactly when its value does. */
  lemma PrintedLineMentions(l: string, crlf: bool)
    ensures Contains(DATA + " " + l + LineEnd(crlf), USAGE) <==> Contains(l, USAGE)
    ensures !Contains(LineEnd(crlf), USAGE)
  {
    ContainsInPadding(DATA + " ", l, LineEnd(crlf), USAGE);
  }

  predicate Mentions(ls: seq<string>) { exists l | l in ls :: Contains(l, USAGE) }

  lemma MentionsOfCons(l: string, ls: seq<string>)
    ensures Mentions([l] + ls) <==> Contains(l, USAGE) || Mentions(ls)
    ensures !Mentions([])
  {
    hide Contains;
    assert forall x :: x in [l] + ls <==> x == l || x in ls;
  }

  lemma {:induction false} DataLinesMention(ls: seq<string>, crlf: bool)
    ensures Mentions(DataLines(ls, crlf) + [LineEnd(crlf)]) <==> Mentions(ls)
  {
    hide *;
    var end := [LineEnd(crlf)];
    if ls == [] {
      DataLinesOfCons("", [], crlf);
      PrintedLineMentions("", crlf);
      assert [] + end == end && end == [LineEnd(crlf)] + [];
      MentionsOfCons(LineEnd(crlf), []);
    } else {
      var line, later := DATA + " " + ls[0] + LineEnd(crlf), DataLines(ls[1..], crlf);
      assert ls == [ls[0]] + ls[1..];
      DataLinesOfCons(ls[0], ls[1..], crlf);
      ConcatIsAssociative([line], later, end);
      MentionsOfCons(line, later + end);
      MentionsOfCons(ls[0], ls[1..]);
      PrintedLineMentions(ls[0], crlf);
      DataLinesMention(ls[1..], crlf);
    }
  }

  lemma LinesMention(p: string)
    ensures Mentions(Lines(p)) <==> Contains(p, USAGE)
  {
    JoinOfLines(p);
    JoinThenLf(Lines(p));
    ContainsInTerminated(Lines(p), "", USAGE);
    ContainsAcrossLf(p, "", USAGE);
    assert p + [LF] + "" == Terminated(Lines(p)) + "";
  }

  /** A printed event. */
  function PrintedEvent(p: string, crlf: bool): string {
    Terminated(DataLines(Lines(p), crlf) + [LineEnd(crlf)])
  }

  lemma EventMentions(p: string, crlf: bool)
    ensures Kept(PrintedEvent(p, crlf)) == if Contains(p, USAGE) then PrintedEvent(p, crlf) else ""
  {
    hide Contains, Terminated, DataLines, Lines, LineEnd;
    UsageInTerminated(DataLines(Lines(p), crlf) + [LineEnd(crlf)]);
    DataLinesMention(Lines(p), crlf);
    LinesMention(p);
  }

  lemma PrintOfCons(p: string, ps: seq<string>, crlf: bool)
    ensures Print([p] + ps, crlf) == PrintedEvent(p, crlf) + Print(ps, crlf)
    ensures Print([], crlf) == ""
  {
    hide DataLines, Lines, LineEnd;
    PrintLinesOfCons(p, ps, crlf);
    ConcatIsAssociative(DataLines(Lines(p), crlf), [LineEnd(crlf)], PrintLines(ps, crlf));
    TerminatedAppend(DataLines(Lines(p), crlf) + [LineEnd(crlf)], PrintLines(ps, crlf));
  }

  lemma WithUsageOfCons(p: string, ps: seq<string>)
    ensures WithUsage([p] + ps) == (if Contains(p, USAGE) then [p] else []) + WithUsage(ps)
  {
    assert ([p] + ps)[1..] == ps;
  }

  lemma NothingPrinted(crlf: bool)
    ensures PrintLines([], crlf) == [] && Print([], crlf) == "" && WithUsage([]) == [] && TeeText([], [""]) == ""
  {
    assert Terminated([]) + "" == "";
  }

  lemma {:induction false} TeeOfLines(ps: seq<string>, crlf: bool)
    ensures TeeText([], PrintLines(ps, crlf) + [""]) == Print(WithUsage(ps), crlf)
  {
    hide *;
    NothingPrinted(crlf);
    if ps == [] {
      assert [] + [""] == [""];
    } else {
      var p, later, end := ps[0], ps[1..], [LineEnd(crlf)];
      assert ps == [p] + later;
      PrintLinesOfCons(p, later, crlf);
      ConcatIsAssociative(DataLines(Lines(p), crlf), end + PrintLines(later, crlf), [""]);
      ConcatIsAssociative(end, PrintLines(later, crlf), [""]);
      TeeOfEvent([], Lines(p), crlf, PrintLines(later, crlf) + [""]);
      assert [] + (DataLines(Lines(p), crlf) + end) == DataLines(Lines(p), crlf) + end;
      PrintedEventIs(p, crlf);
      EventMentions(p, crlf);
      TeeOfLines(later, crlf);
      WithUsageOfCons(p, later);
      PrintOfCons(p, WithUsage(later), crlf);
      assert [] + WithUsage(later) == WithUsage(later);
      assert "" + Print(WithUsage(later), crlf) == Print(WithUsage(later), crlf);
    }
  }

  lemma PrintedEventIs(p: string, crlf: bool)
    ensures PrintedEvent(p, crlf) == Terminated(DataLines(Lines(p), crlf) + [LineEnd(crlf)])
  {
  }

  /** Of a printed stream, in either framing, teeStream keeps the printed stream of the payloads that mention usage. */
  lemma TeeOfPrinted(ps: seq<string>, crlf: bool)
    ensures TeeText([], Lines(Print(ps, crlf))) == Print(WithUsage(ps), crlf)
  {
    hide *;
    LinesOfPrint(ps, crlf);
    TeeOfLines(ps, crlf);
  }

  lemma {:induction false} SomeAreClean(ps: seq<string>)
    requires forall p | p in ps :: CleanPayload(p)
    ensures forall p | p in WithUsage(ps) :: CleanPayload(p)
  {
    hide CleanPayload, Contains;
    if ps != [] {
      assert ps[0] in ps && forall p | p in ps[1..] :: p in ps;
      SomeAreClean(ps[1..]);
    }
  }

  /** What the parser reads from the kept text: the payloads that mention usage, if the framing is LF or at most one
      does; otherwise, in CR LF framing, they come out merged. */
  lemma TeeReadsBackIff(ps: seq<string>, crlf: bool)
    requires forall p | p in ps :: CleanPayload(p)
    ensures Payloads("", Lines(TeeText([], Lines(Print(ps, crlf))))) == WithUsage(ps)
       <==> !crlf || |WithUsage(ps)| <= 1
  {
    hide *;
    TeeOfPrinted(ps, crlf);
    SomeAreClean(ps);
    BatchReadsPrinted(WithUsage(ps), crlf);
  }

  /** What is then billed: the usage of all payloads, although in CR LF framing parsing the whole body would merge
      them; only several payloads with usage in CR LF framing are read as one. */
  lemma TeeBillsAllPayloads(extract: Extractor, ps: seq<string>, crlf: bool)
    requires forall p | p in ps :: CleanPayload(p)
    requires NeedsUsageText(extract) && (!crlf || |WithUsage(ps)| <= 1)
    ensures UsageOf(extract, TeeText([], Lines(Print(ps, crlf)))) == MaxUsage(extract, ps)
  {
    var text, qs := TeeText([], Lines(Print(ps, crlf))), WithUsage(ps);
    hide *;
    TeeReadsBackIff(ps, crlf);
    MaxUsageOfFiltered(extract, ps);
    if qs == [] {
      TeeOfPrinted(ps, crlf);
      NothingPrinted(crlf);
      NoText(extract);
    } else {
      UsageOfSome(extract, text, qs);
    }
  }

  lemma NoText(extract: Extractor)
    requires NeedsUsageText(extract)
    ensures UsageOf(extract, "") == MaxUsage(extract, []) == NO_USAGE
  {
    UsageNotEmpty();
    assert Lines("") == [""] && Payloads("", [""]) == [];
    assert MaxUsage(extract, [""]) == MaxOf(Reported(extract, ""), MaxUsage(extract, []));
  }

  lemma UsageOfSome(extract: Extractor, text: string, ps: seq<string>)
    requires Payloads("", Lines(text)) == ps && ps != []
    ensures UsageOf(extract, text) == MaxUsage(extract, ps)
  {
    hide Payloads, Lines, MaxUsage;
  }

  // ---- several payloads with usage in CR LF framing ----

  lemma {:induction false} GatherAllConcat(payload: string, a: seq<string>, b: seq<string>)
    ensures GatherAll(payload, a + b) == GatherAll(GatherAll(payload, a), b)
    decreases |a|
  {
    hide *;
    if a == [] {
      assert a + b == b;
      GatherAllNil(payload);
    } else {
      var first, later := a[0], a[1..];
      assert a == [first] + later;
      ConcatIsAssociative([first], later, b);
      GatherAllOfCons(payload, first, later + b);
      GatherAllOfCons(payload, first, later);
      GatherAllConcat(Gather(payload, first), later, b);
    }
  }

  lemma GatherGrows(payload: string, line: string)
    ensures |payload| <= |Gather(payload, line)|
    ensures DataValue(line).Some? && payload != "" ==> |payload| < |Gather(payload, line)|
  {
    hide DataValue;
  }

  lemma {:induction false} GatherAllGrows(payload: string, lines: seq<string>)
    ensures |payload| <= |GatherAll(payload, lines)|
    decreases |lines|
  {
    hide *;
    if lines == [] {
      GatherAllNil(payload);
    } else {
      var first, later := lines[0], lines[1..];
      assert lines == [first] + later;
      GatherAllOfCons(payload, first, later);
      GatherGrows(payload, first);
      GatherAllGrows(Gather(payload, first), later);
    }
  }

  /** Another event makes the gathered payload longer. */
  lemma NextEventGathers(payload: string, p: string, rest: seq<string>)
    requires payload != ""
    ensures |payload| < |GatherAll(payload, PrintLines([p] + rest, true))|
  {
    hide *;
    var ls, end := Lines(p), [LineEnd(true)] + PrintLines(rest, true);
    LinesNotEmpty(p);
    var line, later := DATA + " " + ls[0] + LineEnd(true), DataLines(ls[1..], true);
    assert ls == [ls[0]] + ls[1..];
    PrintLinesOfCons(p, rest, true);
    DataLinesOfCons(ls[0], ls[1..], true);
    ConcatIsAssociative([line], later, end);
    GatherAllOfCons(payload, line, later + end);
    PrintedLineHasValue(ls[0]);
    GatherGrows(payload, line);
    GatherAllGrows(Gather(payload, line), later + end);
  }

  lemma LinesNotEmpty(p: string)
    ensures Lines(p) != []
  {
  }

  lemma PrintedLineHasValue(l: string)
    ensures var line := DATA + " " + l + LineEnd(true); DATA <= line && DataValue(line).Some?
  {
    var line := DATA + " " + l + LineEnd(true);
    assert line[4] == ':';
  }

  lemma PrintedLines(ps: seq<string>)
    ensures Payloads("", Lines(Print(ps, true))) == Emit(GatherAll("", PrintLines(ps, true)))
  {
    hide *;
    LinesOfPrint(ps, true);
    CrlfLinesNotEmpty(ps);
    LastLine("", PrintLines(ps, true), "");
    GatherAllAppend("", PrintLines(ps, true), "");
    GatherEmptyLine(GatherAll("", PrintLines(ps, true)));
  }

  lemma OneGathers(p: string)
    requires CleanPayload(p)
    ensures GatherAll("", PrintLines([p], true)) == p
  {
    hide *;
    BatchReadsOneCrlf(p);
    PrintedLines([p]);
    EmitIs(GatherAll("", PrintLines([p], true)));
  }

  lemma PrintLinesSplit(p: string, rest: seq<string>)
    ensures PrintLines([p] + rest, true) == PrintLines([p], true) + PrintLines(rest, true)
  {
    hide *;
    var ls, end := DataLines(Lines(p), true), [LineEnd(true)];
    NothingPrinted(true);
    PrintLinesOfCons(p, rest, true);
    PrintLinesOfCons(p, [], true);
    assert [p] + [] == [p] && end + [] == end;
    ConcatIsAssociative(ls, end, PrintLines(rest, true));
  }

  /** Two or more events are gathered into one payload longer than the first of them. */
  lemma MergedIsLonger(p: string, q: string, rest: seq<string>)
    requires CleanPayload(p) && p != ""
    ensures |p| < |GatherAll("", PrintLines([p] + ([q] + rest), true))|
  {
    hide *;
    PrintLinesSplit(p, [q] + rest);
    GatherAllConcat("", PrintLines([p], true), PrintLines([q] + rest, true));
    OneGathers(p);
    NextEventGathers(p, q, rest);
  }

  lemma {:induction false} DataLinesAreLonger(ls: seq<string>)
    ensures |Terminated(ls)| <= |Terminated(DataLines(ls, true))|
  {
    if ls != [] {
      DataLinesAreLonger(ls[1..]);
      DataLinesOfCons(ls[0], ls[1..], true);
      assert ls == [ls[0]] + ls[1..];
      assert DataLines(ls, true)[1..] == DataLines(ls[1..], true);
    }
  }

  lemma PrintIsLonger(p: string, rest: seq<string>)
    ensures |p| < |Print([p] + rest, true)|
  {
    hide *;
    var ls, end := DataLines(Lines(p), true), [LineEnd(true)];
    PrintOfCons(p, rest, true);
    PrintedEventIs(p, true);
    TerminatedAppend(ls, end);
    DataLinesAreLonger(Lines(p));
    LinesNotEmpty(p);
    JoinOfLines(p);
    JoinThenLf(Lines(p));
  }

  /** Reports a single payload. */
  function Only(q: string): Extractor {
    p => if p == q then Some(Usage(1, 0, 0)) else None
  }

  lemma OnlyNeedsUsageText(q: string)
    requires Contains(q, USAGE)
    ensures NeedsUsageText(Only(q))
  {
  }

  lemma OnlyMisses(q: string, p: string)
    requires p != q
    ensures MaxUsage(Only(q), [p]) == NO_USAGE
  {
    assert MaxUsage(Only(q), [p]) == MaxOf(Reported(Only(q), p), MaxUsage(Only(q), []));
  }

  lemma OnlyFinds(q: string, rest: seq<string>)
    ensures MaxUsage(Only(q), [q] + rest) != NO_USAGE
  {
    MaxUsageOfCons(Only(q), q, rest);
    assert MaxUsage(Only(q), [q] + rest).input >= 1;
  }

  /** With two payloads that mention usage, what only the first one reports is lost. */
  lemma MergedLosesUsage(p: string, q: string, rest: seq<string>)
    requires CleanPayload(p) && Contains(p, USAGE)
    ensures UsageOf(Only(p), Print([p] + ([q] + rest), true)) == NO_USAGE
  {
    hide *;
    var all := [p] + ([q] + rest);
    var text, merged := Print(all, true), GatherAll("", PrintLines(all, true));
    UsageNotEmpty();
    MergedIsLonger(p, q, rest);
    PrintIsLonger(p, [q] + rest);
    PrintedLines(all);
    EmitIs(merged);
    OnlyMisses(p, merged);
    OnlyMisses(p, text);
    UsageOfEither(Only(p), text, merged);
  }

  lemma UsageOfEither(extract: Extractor, text: string, merged: string)
    requires Payloads("", Lines(text)) == [] || Payloads("", Lines(text)) == [merged]
    requires MaxUsage(extract, [text]) == NO_USAGE && MaxUsage(extract, [merged]) == NO_USAGE
    ensures UsageOf(extract, text) == NO_USAGE
  {
    hide Payloads, Lines, MaxUsage;
  }

  lemma {:induction false} AllMention(ps: seq<string>)
    ensures forall p | p in WithUsage(ps) :: Contains(p, USAGE)
  {
    hide Contains;
    if ps != [] {
      AllMention(ps[1..]);
    }
  }

  /** teeStream bills the usage of all payloads, whatever they report, exactly when the stream is framed with LF or at
      most one payload mentions usage. */
  lemma TeeBillsAllIff(ps: seq<string>, crlf: bool)
    requires forall p | p in ps :: CleanPayload(p)
    ensures (forall extract: Extractor | NeedsUsageText(extract) ::
               UsageOf(extract, TeeText([], Lines(Print(ps, crlf)))) == MaxUsage(extract, ps))
       <==> !crlf || |WithUsage(ps)| <= 1
  {
    hide *;
    var qs := WithUsage(ps);
    if !crlf || |qs| <= 1 {
      forall extract: Extractor | NeedsUsageText(extract)
        ensures UsageOf(extract, TeeText([], Lines(Print(ps, crlf)))) == MaxUsage(extract, ps)
      {
        TeeBillsAllPayloads(extract, ps, crlf);
      }
    } else {
      var p, q, rest := qs[0], qs[1], qs[2..];
      assert qs == [p] + ([q] + rest);
      SomeAreClean(ps);
      AllMention(ps);
      assert p in qs;
      TeeOfPrinted(ps, true);
      OnlyNeedsUsageText(p);
      MaxUsageOfFiltered(Only(p), ps);
      OnlyFinds(p, [q] + rest);
      MergedLosesUsage(p, q, rest);
    }
  }
}
