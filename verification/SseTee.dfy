/** teeStream of internal/gateway/forward.go: pass an SSE stream through and keep
    only the events that mention usage. */
module SseTee {
  import opened Options
  import opened Text
  import opened SseBatch

  predicate IsBlankLine(line: string) {
    TrimRight(line, LineEnds) == ""
  }

  /** flushEvent: what an event leaves in the usage buffer. */
  function Kept(event: string): string {
    if Contains(event, USAGE) then event else ""
  }

  /** The usage buffer at the end, when `event` holds the lines of the open event and `lines` are still to come. */
  function TeeText(event: seq<string>, lines: seq<string>): string
    requires lines != []
    decreases |lines|
  {
    if |lines| == 1 then Kept(Terminated(event) + lines[0])
    else if IsBlankLine(lines[0] + [LF]) then Kept(Terminated(event + [lines[0]])) + TeeText([], lines[1..])
    else TeeText(event + [lines[0]], lines[1..])
  }

  /** No line is blank except the empty one: the stream is not framed with CR LF. */
  ghost predicate LfFramed(lines: seq<string>) {
    forall l | l in lines && IsBlankLine(l) :: l == ""
  }

  ghost predicate UsageOnlyInData(lines: seq<string>) {
    forall l | l in lines && Contains(l, USAGE) :: DATA <= l
  }

  ghost predicate NeedsUsageText(extract: Extractor) {
    forall p :: !Contains(p, USAGE) ==> extract(p).None?
  }

  method TeeStream(extract: Extractor, body: string) returns (written: string, u: Usage)
    ensures written == body
    ensures u == UsageOf(extract, TeeText([], Lines(body)))
    ensures LfFramed(Lines(body)) && UsageOnlyInData(Lines(body)) && NeedsUsageText(extract)
        ==> u == UsageOf(extract, body)
  {
    hide *;
    ReadLine([], "");
    NothingTerminated();
    written := "";
    var usageBuf, eventBuf := "", "";
    var unread, eof := body, false;
    ghost var event: seq<string> := [];
    ghost var toCome := TeeText([], Lines(body));
    while !eof
      invariant written + unread == body
      invariant usageBuf + toCome == TeeText([], Lines(body))
      invariant !eof ==> eventBuf == Terminated(event) && toCome == TeeText(event, Lines(unread))
      invariant eof ==> unread == "" && toCome == Kept(eventBuf)
      decreases |unread|, !eof
    {
      var i := IndexOf(unread, LF);
      eof := i == |unread|;
      var line := if eof then unread else unread[..i + 1];
      ghost var later := if eof then "" else TeeText([], Lines(unread[i + 1..]));
      ReadLine(event, unread);
      SplitAt(written, unread, |line|);
      if |line| > 0 {
        written := written + line;
        eventBuf := eventBuf + line;
        event := if eof then event else event + [unread[..i]];
        unread := unread[|line|..];
        if IsBlankLine(line) {
          ConcatIsAssociative(usageBuf, Kept(eventBuf), later);
          toCome := later;
          usageBuf := usageBuf + Kept(eventBuf);
          eventBuf, event := "", [];
        }
      }
    }
    usageBuf := usageBuf + Kept(eventBuf);
    assert written + "" == written;
    u := ParseUsage(extract, usageBuf);
    if LfFramed(Lines(body)) && UsageOnlyInData(Lines(body)) && NeedsUsageText(extract) {
      TeeLosesNoUsage(extract, body);
    }
  }

  lemma NothingTerminated()
    ensures Terminated([]) == ""
  {
  }

  /** What one read line does to the result still to be produced. */
  lemma ReadLine(event: seq<string>, rest: string)
    ensures Kept("") == "" && Terminated(event) + "" == Terminated(event)
    ensures var i := IndexOf(rest, LF);
      if i == |rest| then
        TeeText(event, Lines(rest)) == Kept(Terminated(event) + rest) == Kept(Terminated(event) + rest) + ""
      else
        && Terminated(event + [rest[..i]]) == Terminated(event) + rest[..i + 1]
        && TeeText(event, Lines(rest)) ==
           if IsBlankLine(rest[..i + 1])
           then Kept(Terminated(event) + rest[..i + 1]) + TeeText([], Lines(rest[i + 1..]))
           else TeeText(event + [rest[..i]], Lines(rest[i + 1..]))
  {
    hide *;
    NothingKeptOfNothing();
    assert Terminated(event) + "" == Terminated(event);
    LinesAre(rest);
    var i := IndexOf(rest, LF);
    if i == |rest| {
      TeeTextOfLast(event, rest);
    } else {
      var line := rest[..i];
      assert line + [LF] == rest[..i + 1];
      TerminatedAppend(event, [line]);
      TerminatedOne(line);
      TeeTextOfMore(event, line, Lines(rest[i + 1..]));
    }
  }

  lemma NothingKeptOfNothing()
    ensures Kept("") == ""
  {
  }

  lemma TerminatedOne(line: string)
    ensures Terminated([line]) == line + [LF]
  {
    assert Terminated([]) == "";
  }

  lemma TeeTextOfLast(event: seq<string>, line: string)
    ensures TeeText(event, [line]) == Kept(Terminated(event) + line)
  {
  }

  lemma TeeTextOfMore(event: seq<string>, line: string, rest: seq<string>)
    requires rest != []
    ensures TeeText(event, [line] + rest) ==
            if IsBlankLine(line + [LF]) then Kept(Terminated(event + [line])) + TeeText([], rest)
            else TeeText(event + [line], rest)
  {
    assert ([line] + rest)[1..] == rest;
  }

  function WithUsage(ps: seq<string>): seq<string> {
    if ps == [] then []
    else if Contains(ps[0], USAGE) then [ps[0]] + WithUsage(ps[1..])
    else WithUsage(ps[1..])
  }

  lemma {:induction false} WithUsageOfConcat(a: seq<string>, b: seq<string>)
    ensures WithUsage(a + b) == WithUsage(a) + WithUsage(b)
  {
    if a == [] {
      assert a + b == b;
    } else {
      assert (a + b)[1..] == a[1..] + b;
      WithUsageOfConcat(a[1..], b);
    }
  }

  lemma WithUsageOfEmit(payload: string)
    ensures WithUsage(Emit(payload)) == if Contains(payload, USAGE) then [payload] else []
  {
    assert |DONE| < |USAGE|;
  }

  /** A data line holds the usage text in its value or not at all. */
  lemma UsageInDataValue(line: string)
    requires DATA <= line
    ensures DataValue(line).Some? && (Contains(DataValue(line).value, USAGE) <==> Contains(line, USAGE))
  {
    var l := TrimRight(line, Returns);
    assert line[4] == ':';
    assert |l| > 4 && l[..5] == line[..5];
    var rest := l[5..];
    assert l == DATA + rest + "";
    ContainsInPadding(DATA, rest, "", USAGE);
    ContainsInTrimSpace(rest, USAGE);
    ContainsInTrimRight(line, Returns, USAGE);
  }

  lemma UsageNotEmpty()
    ensures USAGE != "" && !Contains("", USAGE) && LF !in USAGE
  {
    assert |USAGE| > 0;
  }

  /** One line brings the usage text into the payload exactly when it holds it. */
  lemma UsageInGather(payload: string, line: string)
    requires Contains(line, USAGE) ==> DATA <= line
    ensures Contains(Gather(payload, line), USAGE) <==> Contains(payload, USAGE) || Contains(line, USAGE)
  {
    UsageNotEmpty();
    if DATA <= line {
      UsageInDataValue(line);
      ContainsAcrossLf(payload, DataValue(line).value, USAGE);
    } else {
      assert DataValue(line).None? by {
        assert TrimRight(line, Returns) <= line;
      }
    }
  }

  lemma {:induction false} UsageInGatherAll(payload: string, lines: seq<string>)
    requires UsageOnlyInData(lines)
    ensures Contains(GatherAll(payload, lines), USAGE)
       <==> Contains(payload, USAGE) || exists l | l in lines :: Contains(l, USAGE)
    decreases |lines|
  {
    if lines != [] {
      assert lines == [lines[0]] + lines[1..];
      UsageInGather(payload, lines[0]);
      UsageInGatherAll(Gather(payload, lines[0]), lines[1..]);
      assert forall l :: l in lines <==> l == lines[0] || l in lines[1..];
    }
  }

  lemma UsageInTerminated(event: seq<string>)
    ensures Contains(Terminated(event), USAGE) <==> exists l | l in event :: Contains(l, USAGE)
  {
    UsageNotEmpty();
    assert Terminated(event) + "" == Terminated(event);
    ContainsInTerminated(event, "", USAGE);
  }

  /** The kept text reads as exactly those payloads of the stream that mention usage. */
  lemma {:induction false} TeeKeepsUsagePayloads(event: seq<string>, lines: seq<string>)
    requires lines != [] && LfFree(event) && LfFree(lines) && "" !in event
    requires LfFramed(lines) && UsageOnlyInData(event) && UsageOnlyInData(lines)
    ensures Payloads("", Lines(TeeText(event, lines))) == WithUsage(Payloads(GatherAll("", event), lines))
    decreases |lines|
  {
    var line := lines[0];
    assert line in lines;
    if |lines| == 1 {
      TeeLastEvent(event, line);
      assert lines == [line];
    } else if line == "" {
      TeeKeepsUsagePayloads([], lines[1..]);
      TeeInnerEvent(event, TeeText([], lines[1..]), Payloads("", lines[1..]));
    } else {
      assert !IsBlankLine(line + [LF]) by {
        BlankWithLf(line);
      }
      TeeKeepsUsagePayloads(event + [line], lines[1..]);
      GatherAllAppend("", event, line);
    }
  }

  lemma BlankWithLf(line: string)
    ensures IsBlankLine(line + [LF]) == IsBlankLine(line)
  {
    assert (line + [LF])[..|line|] == line;
  }

  /** The text of an event, read back. */
  lemma EventText(event: seq<string>, line: string)
    requires LfFree(event + [line]) && "" !in event && UsageOnlyInData(event + [line])
    ensures Payloads("", event + [line]) == Emit(GatherAll("", event + [line]))
    ensures Contains(Terminated(event) + line, USAGE) <==> Contains(GatherAll("", event + [line]), USAGE)
    ensures Contains(Terminated(event + [line]), USAGE) <==> Contains(GatherAll("", event + [line]), USAGE)
  {
    hide *;
    UsageNotEmpty();
    LastLine("", event, line);
    ContainsInTerminated(event, line, USAGE);
    UsageInTerminated(event + [line]);
    UsageInGatherAll("", event + [line]);
    assert forall l :: l in event + [line] <==> l in event || l == line;
  }

  lemma TeeLastEvent(event: seq<string>, line: string)
    requires LfFree(event + [line]) && "" !in event && UsageOnlyInData(event + [line])
    ensures Payloads("", Lines(Kept(Terminated(event) + line))) == WithUsage(Payloads(GatherAll("", event), [line]))
  {
    assert line in event + [line];
    assert Lines(line) == [line] && LfFree(event);
    assert Payloads("", Lines("")) == [] && GatherAll("", []) == "";
    var text := Terminated(event) + line;
    assert Kept(text) == if Contains(text, USAGE) then text else "";
    hide *;
    EventText(event, line);
    WithUsageOfEmit(GatherAll("", event + [line]));
    LinesOfTerminated(event, line);
    LastLine(GatherAll("", event), [], line);
    assert [] + [line] == [line];
    GatherAllAppend("", event, line);
    GatherAllAppend(GatherAll("", event), [], line);
    GatherAllNil(GatherAll("", event));
  }

  lemma GatherAllNil(payload: string)
    ensures GatherAll(payload, []) == payload
  {
  }

  lemma TeeInnerEvent(event: seq<string>, text: string, later: seq<string>)
    requires LfFree(event) && "" !in event && UsageOnlyInData(event)
    requires Payloads("", Lines(text)) == WithUsage(later)
    ensures Payloads("", Lines(Kept(Terminated(event + [""])) + text)) == WithUsage(Emit(GatherAll("", event)) + later)
  {
    var payload, kept := GatherAll("", event), Terminated(event + [""]);
    assert Kept(kept) == if Contains(kept, USAGE) then kept else "";
    UsageNotEmpty();
    assert UsageOnlyInData(event + [""]) && LfFree(event + [""]);
    hide *;
    EventText(event, "");
    GatherAllAppend("", event, "");
    GatherEmptyLine(payload);
    WithUsageOfEmit(payload);
    WithUsageOfConcat(Emit(payload), later);
    if Contains(kept, USAGE) {
      LinesOfTerminated(event + [""], text);
      ConcatIsAssociative(event, [""], Lines(text));
      InnerGroup("", event, Lines(text));
      EmitWithUsage(payload);
    } else {
      assert "" + text == text;
    }
  }

  lemma EmitWithUsage(payload: string)
    requires Contains(payload, USAGE)
    ensures Emit(payload) == [payload]
  {
    UsageNotEmpty();
    assert |DONE| < |USAGE|;
  }

  lemma {:induction false} MaxUsageOfFiltered(extract: Extractor, ps: seq<string>)
    requires NeedsUsageText(extract)
    ensures MaxUsage(extract, WithUsage(ps)) == MaxUsage(extract, ps)
  {
    if ps != [] {
      MaxUsageOfFiltered(extract, ps[1..]);
      MaxUsageNotNegative(extract, ps[1..]);
      if Contains(ps[0], USAGE) {
        assert WithUsage(ps)[1..] == WithUsage(ps[1..]);
      }
    }
  }

  lemma {:induction false} UsageReachesAPayload(payload: string, lines: seq<string>)
    requires UsageOnlyInData(lines)
    requires Contains(payload, USAGE) || exists l :: l in lines && Contains(l, USAGE)
    ensures WithUsage(Payloads(payload, lines)) != []
    decreases |lines|
  {
    WithUsageOfEmit(payload);
    if lines != [] {
      var line, later := lines[0], lines[1..];
      assert lines == [line] + later;
      assert forall l :: l in lines <==> l == line || l in later;
      UsageNotEmpty();
      if line == "" {
        WithUsageOfConcat(Emit(payload), Payloads("", later));
        if !Contains(payload, USAGE) {
          UsageReachesAPayload("", later);
        }
      } else {
        UsageInGather(payload, line);
        UsageReachesAPayload(Gather(payload, line), later);
      }
    }
  }

  lemma UsageInBody(body: string)
    ensures Contains(body, USAGE) ==> exists l :: l in Lines(body) && Contains(l, USAGE)
  {
    JoinOfLines(body);
    JoinThenLf(Lines(body));
    ContainsInTerminated(Lines(body), "", USAGE);
    ContainsAcrossLf(body, "", USAGE);
    assert body + [LF] + "" == Terminated(Lines(body)) + "";
    UsageNotEmpty();
  }

  lemma {:induction false} NothingKept(event: seq<string>, lines: seq<string>)
    requires lines != [] && forall l | l in event + lines :: !Contains(l, USAGE)
    ensures TeeText(event, lines) == ""
    decreases |lines|
  {
    var line, later := lines[0], lines[1..];
    assert forall l | l in event :: l in event + lines;
    assert forall l | l in lines :: l in event + lines;
    ContainsInTerminated(event, line, USAGE);
    if later != [] {
      TerminatedAppend(event, [line]);
      ContainsInTerminated(event + [line], "", USAGE);
      UsageNotEmpty();
      assert Terminated(event + [line]) + "" == Terminated(event + [line]);
      if IsBlankLine(line + [LF]) {
        NothingKept([], later);
      } else {
        NothingKept(event + [line], later);
      }
    }
  }

  lemma UsageOfTextWithout(extract: Extractor, body: string)
    requires NeedsUsageText(extract) && WithUsage(Payloads("", Lines(body))) == [] && !Contains(body, USAGE)
    ensures UsageOf(extract, body) == NO_USAGE
  {
    var ps := Payloads("", Lines(body));
    if ps == [] {
      assert MaxUsage(extract, [body]) == MaxOf(NO_USAGE, MaxUsage(extract, []));
    } else {
      MaxUsageOfFiltered(extract, ps);
    }
  }

  lemma UsageOfKept(extract: Extractor, text: string, body: string)
    requires NeedsUsageText(extract)
    requires Payloads("", Lines(text)) == WithUsage(Payloads("", Lines(body))) != []
    ensures UsageOf(extract, text) == UsageOf(extract, body)
  {
    MaxUsageOfFiltered(extract, Payloads("", Lines(body)));
  }

  lemma {:induction false} WithUsageTwice(ps: seq<string>)
    ensures WithUsage(WithUsage(ps)) == WithUsage(ps)
  {
    if ps != [] {
      WithUsageTwice(ps[1..]);
      assert Contains(ps[0], USAGE) ==> WithUsage(ps)[1..] == WithUsage(ps[1..]);
    }
  }

  /** Dropping every event without the usage text loses no usage. */
  lemma TeeLosesNoUsage(extract: Extractor, body: string)
    requires LfFramed(Lines(body)) && UsageOnlyInData(Lines(body)) && NeedsUsageText(extract)
    ensures UsageOf(extract, TeeText([], Lines(body))) == UsageOf(extract, body)
  {
    var text := TeeText([], Lines(body));
    var ps := Payloads("", Lines(body));
    TeeKeepsUsagePayloads([], Lines(body));
    if WithUsage(ps) != [] {
      UsageOfKept(extract, text, body);
    } else {
      if exists l :: l in Lines(body) && Contains(l, USAGE) {
        UsageReachesAPayload("", Lines(body));
      }
      assert [] + Lines(body) == Lines(body);
      NothingKept([], Lines(body));
      UsageNotEmpty();
      UsageInBody(body);
      UsageOfTextWithout(extract, body);
      WithUsageTwice(ps);
      UsageOfTextWithout(extract, text);
    }
  }
}
