/** The batch reader of internal/billing/usage.go: a whole SSE body to data payloads to usage. */
module SseBatch {
  import opened Options
  import opened Text

  const DATA := "data:"
  const DONE := "[DONE]"
  const USAGE := "\"usage\""

  /** The trimmed value of a data line. */
  function DataValue(line: string): Option<string> {
    var l := TrimRight(line, Returns);
    if DATA <= l then Some(TrimSpace(l[|DATA|..])) else None
  }

  /** One line added to the payload gathered so far. A payload that is still empty is Go's nil slice:
      an empty value leaves it nil, so leading empty data lines vanish. */
  function Gather(payload: string, line: string): string {
    match DataValue(line)
    case None => payload
    case Some(v) => if payload != "" then payload + [LF] + v else v
  }

  function GatherAll(payload: string, lines: seq<string>): string
    decreases |lines|
  {
    if lines == [] then payload else GatherAll(Gather(payload, lines[0]), lines[1..])
  }

  function Emit(payload: string): seq<string> {
    if payload == "" || payload == DONE then [] else [payload]
  }

  /** Reference reading, line by line: an empty line ends the event gathered so far. */
  function Payloads(payload: string, lines: seq<string>): seq<string>
    decreases |lines|
  {
    if lines == [] then Emit(payload)
    else if lines[0] == "" then Emit(payload) + Payloads("", lines[1..])
    else Payloads(Gather(payload, lines[0]), lines[1..])
  }

  /** Position of the first LF LF, or the length when there is none. */
  function IndexOfBlank(s: string): (i: nat)
    ensures i <= |s|
    ensures forall k {:trigger s[k]} | 0 <= k < i && k + 1 < |s| :: s[k] != LF || s[k + 1] != LF
    ensures i < |s| ==> i + 1 < |s| && s[i] == LF && s[i + 1] == LF
  {
    if |s| < 2 then |s|
    else if s[0] == LF && s[1] == LF then 0
    else 1 + IndexOfBlank(s[1..])
  }

  /** bytes.Split(s, LF LF) */
  function Blocks(s: string): (bs: seq<string>)
    decreases |s|
  {
    var i := IndexOfBlank(s);
    if i == |s| then [s] else [s[..i]] + Blocks(s[i + 2..])
  }

  function BlockPayloads(blocks: seq<string>): seq<string> {
    if blocks == [] then [] else Emit(GatherAll("", Lines(blocks[0]))) + BlockPayloads(blocks[1..])
  }

  /** sseDataPayloads, its inner loop: the payload of one block. */
  method PayloadOf(block: string) returns (payload: string)
    ensures payload == GatherAll("", Lines(block))
  {
    hide *;
    payload := "";
    var lines := Lines(block);
    NoLines();
    for k := 0 to |lines|
      invariant payload == GatherAll("", lines[..k])
    {
      GatherNext(lines, k);
      GatherIs(payload, lines[k]);
      var line := TrimRight(lines[k], Returns);
      if DATA <= line {
        var v := TrimSpace(line[|DATA|..]);
        if payload != "" {
          payload := payload + [LF];
        }
        payload := payload + v;
      }
    }
    assert lines[..|lines|] == lines;
  }

  lemma GatherIs(payload: string, l: string)
    ensures var line := TrimRight(l, Returns);
      Gather(payload, l) ==
      if DATA <= line then (if payload != "" then payload + [LF] else payload) + TrimSpace(line[|DATA|..]) else payload
  {
    hide TrimRight, TrimSpace;
  }

  /** sseDataPayloads */
  method DataPayloads(data: string) returns (payloads: seq<string>)
    ensures payloads == Payloads("", Lines(data))
  {
    hide *;
    payloads := [];
    var blocks := Blocks(data);
    NoBlocks();
    assert blocks[0..] == blocks;
    for b := 0 to |blocks|
      invariant payloads + BlockPayloads(blocks[b..]) == BlockPayloads(blocks)
    {
      ghost var before, later := payloads, blocks[b + 1..];
      assert blocks[b..] == [blocks[b]] + later;
      var payload := PayloadOf(blocks[b]);
      BlockPayloadsOfCons(blocks[b], later);
      if payload != "" && payload != DONE {
        payloads := payloads + [payload];
      }
      EmitIs(payload);
      assert payloads == before + Emit(payload);
      ConcatIsAssociative(before, Emit(payload), BlockPayloads(later));
    }
    assert blocks[|blocks|..] == [] && payloads + [] == payloads;
    BlocksReadAsLines(data);
  }

  lemma NoBlocks()
    ensures BlockPayloads([]) == []
  {
  }

  lemma EmitIs(payload: string)
    ensures Emit(payload) == if payload != "" && payload != DONE then [payload] else []
  {
  }

  lemma GatherNext(lines: seq<string>, k: nat)
    requires k < |lines|
    ensures GatherAll("", lines[..k + 1]) == Gather(GatherAll("", lines[..k]), lines[k])
  {
    hide *;
    assert lines[..k + 1] == lines[..k] + [lines[k]];
    GatherAllAppend("", lines[..k], lines[k]);
  }

  lemma GatherEmptyLine(payload: string)
    ensures Gather(payload, "") == payload
  {
  }

  lemma PayloadsOfCons(payload: string, line: string, lines: seq<string>)
    ensures Payloads(payload, [line] + lines)
         == if line == "" then Emit(payload) + Payloads("", lines) else Payloads(Gather(payload, line), lines)
  {
    assert ([line] + lines)[1..] == lines;
  }

  lemma BlockPayloadsOfCons(block: string, blocks: seq<string>)
    ensures BlockPayloads([block] + blocks) == Emit(GatherAll("", Lines(block))) + BlockPayloads(blocks)
  {
    assert ([block] + blocks)[1..] == blocks;
  }

  lemma GatherAllOfCons(payload: string, line: string, lines: seq<string>)
    ensures GatherAll(payload, [line] + lines) == GatherAll(Gather(payload, line), lines)
  {
    assert ([line] + lines)[1..] == lines;
  }

  /** Lines that are not empty, followed by the empty line that ends their event. */
  lemma {:induction false} InnerGroup(payload: string, group: seq<string>, rest: seq<string>)
    requires "" !in group
    ensures Payloads(payload, group + ([""] + rest)) == Emit(GatherAll(payload, group)) + Payloads("", rest)
    decreases |group|
  {
    if group == [] {
      assert GatherAll(payload, group) == payload;
      assert group + ([""] + rest) == [""] + rest;
      PayloadsOfCons(payload, "", rest);
    } else {
      hide *;
      var line, later := group[0], group[1..];
      assert line in group && group == [line] + later;
      InnerGroup(Gather(payload, line), later, rest);
      ConcatIsAssociative([line], later, [""] + rest);
      PayloadsOfCons(payload, line, later + ([""] + rest));
      GatherAllOfCons(payload, line, later);
    }
  }

  lemma {:induction false} LastGroup(payload: string, group: seq<string>)
    requires "" !in group
    ensures Payloads(payload, group) == Emit(GatherAll(payload, group))
    decreases |group|
  {
    if group != [] {
      hide *;
      var line, later := group[0], group[1..];
      assert line in group && group == [line] + later;
      LastGroup(Gather(payload, line), later);
      PayloadsOfCons(payload, line, later);
      GatherAllOfCons(payload, line, later);
    }
  }

  /** Splitting at LF LF and then at LF reads the same events as going line by line. */
  lemma {:induction false} BlocksReadAsLines(data: string)
    ensures BlockPayloads(Blocks(data)) == Payloads("", Lines(data))
    decreases |data|
  {
    var i := IndexOfBlank(data);
    if i == |data| {
      LastBlock(data);
      assert Blocks(data) == [data] + [];
      BlockPayloadsOfCons(data, []);
    } else {
      var block, rest := data[..i], data[i + 2..];
      assert data == block + [LF] + ([LF] + rest);
      LinesAroundBlank(block, rest);
      InnerBlock(block, Lines(rest));
      BlocksReadAsLines(rest);
      BlockPayloadsOfCons(block, Blocks(rest));
    }
  }

  lemma LinesAroundBlank(block: string, rest: string)
    ensures Lines(block + [LF] + ([LF] + rest)) == Lines(block) + ([""] + Lines(rest))
  {
    LinesAtLf(block, [LF] + rest);
    FirstLine("", rest);
    assert "" + [LF] + rest == [LF] + rest;
  }

  lemma InnerBlock(block: string, rest: seq<string>)
    requires NoBlank(block + [LF])
    ensures Payloads("", Lines(block) + ([""] + rest)) == Emit(GatherAll("", Lines(block))) + Payloads("", rest)
  {
    LinesWithoutBlank(block + [LF]);
    LinesAtLf(block, "");
    assert block + [LF] + "" == block + [LF];
    hide *;
    var ls := Lines(block);
    assert forall k | 0 < k < |ls| :: (ls + Lines(""))[k] == ls[k];
    InnerLines(ls, rest);
  }

  /** An empty first line adds nothing to an event that has not begun. */
  lemma EmptyFirstLine(lines: seq<string>)
    ensures Payloads("", [""] + lines) == Payloads("", lines)
    ensures GatherAll("", [""] + lines) == GatherAll("", lines)
  {
    PayloadsOfCons("", "", lines);
    GatherAllOfCons("", "", lines);
    GatherEmptyLine("");
    assert Emit("") + Payloads("", lines) == Payloads("", lines);
  }

  lemma InnerLines(ls: seq<string>, rest: seq<string>)
    requires ls != [] && forall k | 0 < k < |ls| :: ls[k] != ""
    ensures Payloads("", ls + ([""] + rest)) == Emit(GatherAll("", ls)) + Payloads("", rest)
  {
    hide *;
    if ls[0] == "" {
      var later := ls[1..];
      assert ls == [""] + later;
      ConcatIsAssociative([""], later, [""] + rest);
      EmptyFirstLine(later);
      EmptyFirstLine(later + ([""] + rest));
      InnerGroup("", later, rest);
    } else {
      InnerGroup("", ls, rest);
    }
  }

  lemma LastBlock(block: string)
    requires NoBlank(block)
    ensures Payloads("", Lines(block)) == Emit(GatherAll("", Lines(block)))
  {
    LinesWithoutBlank(block);
    hide *;
    var ls := Lines(block);
    if ls[0] == "" {
      assert ls == [""] + ls[1..];
      EmptyFirstLine(ls[1..]);
      LastLines(ls[1..]);
    } else {
      LastLines(ls);
    }
  }

  lemma LastLines(ls: seq<string>)
    requires forall k | 0 <= k < |ls| - 1 :: ls[k] != ""
    ensures Payloads("", ls) == Emit(GatherAll("", ls))
  {
    hide *;
    NoLines();
    if ls != [] {
      var event, line := ls[..|ls| - 1], ls[|ls| - 1];
      assert ls == event + [line];
      LastLine("", event, line);
    }
  }

  lemma NoLines()
    ensures Payloads("", []) == Emit("") == [] && GatherAll("", []) == ""
  {
  }

  /** The last line of an event may be empty. */
  lemma LastLine(payload: string, event: seq<string>, line: string)
    requires "" !in event
    ensures Payloads(payload, event + [line]) == Emit(GatherAll(payload, event + [line]))
  {
    if line == "" {
      assert Payloads("", []) == [];
      hide *;
      InnerGroup(payload, event, []);
      assert [""] + [] == [""];
      GatherAllAppend(payload, event, "");
      GatherEmptyLine(GatherAll(payload, event));
    } else {
      LastGroup(payload, event + [line]);
    }
  }

  lemma {:induction false} GatherAllAppend(payload: string, lines: seq<string>, line: string)
    ensures GatherAll(payload, lines + [line]) == Gather(GatherAll(payload, lines), line)
    decreases |lines|
  {
    if lines == [] {
      assert lines + [line] == [line];
    } else {
      var first, later := lines[0], lines[1..];
      hide *;
      assert lines == [first] + later;
      ConcatIsAssociative([first], later, [line]);
      GatherAllAppend(Gather(payload, first), later, line);
      GatherAllOfCons(payload, first, later);
      GatherAllOfCons(payload, first, later + [line]);
    }
  }

  // ---- usage ----

  datatype Usage = Usage(input: int, output: int, cached: int)

  const NO_USAGE := Usage(0, 0, 0)

  /** What one payload reports: parsing the JSON and picking the endpoint's usage object. */
  type Extractor = string -> Option<Usage>

  /** The payloads a parser looks at: the SSE payloads, or the whole body when there are none. */
  function ParserInput(data: string): seq<string> {
    var ps := Payloads("", Lines(data));
    if ps == [] then [data] else ps
  }

  function Max(a: int, b: int): int { if a > b then a else b }

  function MaxOf(a: Usage, b: Usage): Usage {
    Usage(Max(a.input, b.input), Max(a.output, b.output), Max(a.cached, b.cached))
  }

  function Reported(extract: Extractor, p: string): Usage {
    match extract(p) case None => NO_USAGE case Some(u) => u
  }

  function MaxUsage(extract: Extractor, ps: seq<string>): Usage {
    if ps == [] then NO_USAGE else MaxOf(Reported(extract, ps[0]), MaxUsage(extract, ps[1..]))
  }

  function UsageOf(extract: Extractor, data: string): Usage {
    MaxUsage(extract, ParserInput(data))
  }

  /** ParseAnthropicUsage, ParseResponsesUsage and ParseChatUsage, up to `extract`. */
  method ParseUsage(extract: Extractor, data: string) returns (u: Usage)
    ensures u == UsageOf(extract, data)
    ensures IsPlain(data) ==> IsReported(u, extract(data))
    ensures var ps := Payloads("", Lines(data)); ps != [] ==> AreGreatest(u, extract, ps)
  {
    hide MaxUsage, Payloads, Lines, IsPlain, IsReported, AreGreatest;
    if IsPlain(data) {
      PlainBodyIsParsed(extract, data);
    }
    UsageIsGreatest(extract, data);
    var payloads := DataPayloads(data);
    if |payloads| == 0 {
      payloads := [data];
    }
    u := NO_USAGE;
    assert payloads[0..] == payloads;
    MaxUsageNotNegative(extract, payloads);
    for k := 0 to |payloads|
      invariant u.input >= 0 && u.output >= 0 && u.cached >= 0
      invariant MaxOf(u, MaxUsage(extract, payloads[k..])) == MaxUsage(extract, payloads)
    {
      MaxUsageFrom(extract, payloads, k);
      MaxUsageNotNegative(extract, payloads[k + 1..]);
      match extract(payloads[k])
      case None =>
      case Some(r) =>
        if r.input > u.input {
          u := u.(input := r.input);
        }
        if r.cached > u.cached {
          u := u.(cached := r.cached);
        }
        if r.output > u.output {
          u := u.(output := r.output);
        }
    }
    assert payloads[|payloads|..] == [];
    NothingReported(extract);
  }

  lemma MaxUsageFrom(extract: Extractor, ps: seq<string>, k: nat)
    requires k < |ps|
    ensures MaxUsage(extract, ps[k..]) == MaxOf(Reported(extract, ps[k]), MaxUsage(extract, ps[k + 1..]))
  {
    assert ps[k..][1..] == ps[k + 1..];
  }

  lemma MaxUsageNotNegative(extract: Extractor, ps: seq<string>)
    ensures var u := MaxUsage(extract, ps); u.input >= 0 && u.output >= 0 && u.cached >= 0
  {
  }

  /** `m` is the greatest value of `field` reported by `ps`, or 0 when none is positive. */
  ghost predicate IsGreatest(m: int, extract: Extractor, ps: seq<string>, field: Usage -> int) {
    && m >= 0
    && (forall p | p in ps && extract(p).Some? :: field(extract(p).value) <= m)
    && (m > 0 ==> exists p | p in ps && extract(p).Some? :: field(extract(p).value) == m)
  }

  ghost predicate AreGreatest(u: Usage, extract: Extractor, ps: seq<string>) {
    && IsGreatest(u.input, extract, ps, (r: Usage) => r.input)
    && IsGreatest(u.output, extract, ps, (r: Usage) => r.output)
    && IsGreatest(u.cached, extract, ps, (r: Usage) => r.cached)
  }

  lemma MaxUsageIsGreatest(extract: Extractor, ps: seq<string>)
    ensures AreGreatest(MaxUsage(extract, ps), extract, ps)
  {
    MaxFieldIsGreatest(extract, ps, (r: Usage) => r.input);
    MaxFieldIsGreatest(extract, ps, (r: Usage) => r.output);
    MaxFieldIsGreatest(extract, ps, (r: Usage) => r.cached);
  }

  lemma {:induction false} MaxFieldIsGreatest(extract: Extractor, ps: seq<string>, field: Usage -> int)
    requires field(NO_USAGE) == 0
    requires forall a, b :: field(MaxOf(a, b)) == Max(field(a), field(b))
    ensures IsGreatest(field(MaxUsage(extract, ps)), extract, ps, field)
  {
    hide *;
    if ps == [] {
      NothingReported(extract);
      NothingIsGreatest(extract, field);
    } else {
      var p, rest := ps[0], ps[1..];
      MaxFieldIsGreatest(extract, rest, field);
      assert ps == [p] + rest;
      GreatestOfCons(field(MaxUsage(extract, rest)), extract, p, rest, field);
      MaxUsageOfCons(extract, p, rest);
      assert field(MaxOf(Reported(extract, p), MaxUsage(extract, rest))) ==
             Max(field(Reported(extract, p)), field(MaxUsage(extract, rest)));
    }
  }

  lemma NothingReported(extract: Extractor)
    ensures MaxUsage(extract, []) == NO_USAGE == Usage(0, 0, 0)
  {
  }

  lemma NothingIsGreatest(extract: Extractor, field: Usage -> int)
    requires field(NO_USAGE) == 0
    ensures IsGreatest(0, extract, [], field)
  {
  }

  lemma MaxUsageOfCons(extract: Extractor, p: string, rest: seq<string>)
    ensures MaxUsage(extract, [p] + rest) == MaxOf(Reported(extract, p), MaxUsage(extract, rest))
  {
    assert ([p] + rest)[1..] == rest;
  }

  lemma GreatestOfCons(m: int, extract: Extractor, p: string, rest: seq<string>, field: Usage -> int)
    requires IsGreatest(m, extract, rest, field) && field(NO_USAGE) == 0
    ensures IsGreatest(Max(field(Reported(extract, p)), m), extract, [p] + rest, field)
  {
    var all := [p] + rest;
    assert p in all && forall q | q in rest :: q in all;
    if m > 0 {
      var q :| q in rest && extract(q).Some? && field(extract(q).value) == m;
      assert q in all;
    }
  }

  /** A body without a data line, as every reply that is no stream. */
  predicate IsPlain(data: string) {
    forall l | l in Lines(data) :: !("data:" <= l)
  }

  /** What one report gives, field by field: its value if that is positive. */
  predicate IsReported(u: Usage, r: Option<Usage>) {
    match r
    case None => u.input == 0 && u.output == 0 && u.cached == 0
    case Some(v) =>
      && u.input == (if v.input > 0 then v.input else 0)
      && u.output == (if v.output > 0 then v.output else 0)
      && u.cached == (if v.cached > 0 then v.cached else 0)
  }

  lemma NoDataLine(line: string)
    requires !("data:" <= line)
    ensures forall payload :: Gather(payload, line) == payload
  {
    assert TrimRight(line, Returns) <= line;
  }

  lemma {:induction false} NoDataNoPayloads(lines: seq<string>)
    requires forall l | l in lines :: !("data:" <= l)
    ensures Payloads("", lines) == []
  {
    if lines != [] {
      hide Gather;
      assert lines[0] in lines && forall l | l in lines[1..] :: l in lines;
      NoDataLine(lines[0]);
      NoDataNoPayloads(lines[1..]);
    }
  }

  /** A body without a data line is given to the extractor itself. */
  lemma PlainBodyIsParsed(extract: Extractor, data: string)
    requires IsPlain(data)
    ensures IsReported(UsageOf(extract, data), extract(data))
  {
    NoDataNoPayloads(Lines(data));
    hide *;
    UsageIs(extract, data);
    assert [data] == [data] + [];
    MaxUsageOfCons(extract, data, []);
    OneReported(extract, data);
  }

  lemma UsageIs(extract: Extractor, data: string)
    ensures var ps := Payloads("", Lines(data));
            UsageOf(extract, data) == if ps == [] then MaxUsage(extract, [data]) else MaxUsage(extract, ps)
  {
    hide Payloads, Lines, MaxUsage;
  }

  lemma OneReported(extract: Extractor, p: string)
    ensures IsReported(MaxOf(Reported(extract, p), MaxUsage(extract, [])), extract(p))
  {
  }

  /** Of a body with payloads each field is the greatest that is reported on one of them. */
  lemma UsageIsGreatest(extract: Extractor, data: string)
    ensures var ps := Payloads("", Lines(data)); ps != [] ==> AreGreatest(UsageOf(extract, data), extract, ps)
  {
    hide *;
    UsageIs(extract, data);
    MaxUsageIsGreatest(extract, Payloads("", Lines(data)));
  }
}
