/** The incremental reader of workbench/web/protocol.mjs: text arrives in chunks cut anywhere. */
module SseIncremental {
  import opened Text
  import opened SseBatch

  /** value.replace(/\r$/, '') */
  function StripCr(line: string): string {
    if line != "" && line[|line| - 1] == CR then line[..|line| - 1] else line
  }

  /** slice(5), then one leading space dropped. */
  function LooseValue(line: string): string
    requires DATA <= line
  {
    var v := line[|DATA|..];
    if v != "" && v[0] == ' ' then v[1..] else v
  }

  function Dispatch(data: seq<string>): seq<string> {
    if data == [] || Join(data) == DONE then [] else [Join(data)]
  }

  /** Reference reading, line by line, with `data` the values of the event that is open. */
  function Events(data: seq<string>, lines: seq<string>): seq<string>
    decreases |lines|
  {
    if lines == [] then Dispatch(data)
    else
      var line := StripCr(lines[0]);
      if line == "" then Dispatch(data) + Events([], lines[1..])
      else if DATA <= line then Events(data + [LooseValue(line)], lines[1..])
      else Events(data, lines[1..])
  }

  /** What reading `text` hands on while `data` is open. */
  function ReadOn(data: seq<string>, text: string): seq<string> {
    Events(data, Lines(text))
  }

  /** The closure `line` of consumeSSE. */
  method Line(value: string, data: seq<string>, events: seq<string>)
    returns (data': seq<string>, events': seq<string>)
    ensures data' == DataAfter(value, data)
    ensures events' == events + if value == "" then Dispatch(data) else []
  {
    data', events' := data, events;
    if value == "" {
      if |data| > 0 {
        var raw := Join(data);
        data' := [];
        if raw != DONE {
          events' := events + [raw];
        }
      }
    } else if DATA <= value {
      data' := data + [LooseValue(value)];
    }
  }

  /** The inner loop of consumeSSE: every complete line of the buffer is handled, whatever text follows. */
  method Drain(buffer: string, data: seq<string>, events: seq<string>, ghost later: string)
    returns (buffer': string, data': seq<string>, events': seq<string>)
    ensures IndexOf(buffer', LF) == |buffer'|
    ensures events' + ReadOn(data', buffer' + later) == events + ReadOn(data, buffer + later)
  {
    hide *;
    buffer', data', events' := buffer, data, events;
    var index := IndexOf(buffer', LF);
    while index < |buffer'|
      invariant index == IndexOf(buffer', LF)
      invariant events' + ReadOn(data', buffer' + later) == events + ReadOn(data, buffer + later)
      decreases |buffer'|
    {
      ReadLine(data', buffer', later);
      var value := StripCr(buffer'[..index]);
      ghost var handed := if value == "" then Dispatch(data') else [];
      ConcatIsAssociative(events', handed, ReadOn(DataAfter(value, data'), buffer'[index + 1..] + later));
      data', events' := Line(value, data', events');
      buffer' := buffer'[index + 1..];
      index := IndexOf(buffer', LF);
    }
  }

  /** consumeSSE, from decoded chunks to the raw payloads handed on. However the text is cut,
      the events are those of the whole text read line by line. */
  method ConsumeSse(chunks: seq<string>) returns (events: seq<string>)
    ensures events == ReadOn([], Concat(chunks))
  {
    assert Concat([]) == "" && IndexOf("", LF) == 0;
    hide *;
    events := [];
    var buffer, data := "", [];
    assert chunks[0..] == chunks && "" + Concat(chunks) == Concat(chunks);
    for c := 0 to |chunks|
      invariant events + ReadOn(data, buffer + Concat(chunks[c..])) == ReadOn([], Concat(chunks))
      invariant IndexOf(buffer, LF) == |buffer|
    {
      ghost var later := Concat(chunks[c + 1..]);
      ConcatFrom(chunks, c);
      ConcatIsAssociative(buffer, chunks[c], later);
      buffer, data, events := Drain(buffer + chunks[c], data, events, later);
    }
    assert chunks[|chunks|..] == [] && buffer + "" == buffer;
    ReadEnd(data, buffer);
    ghost var handed := if StripCr(buffer) == "" then Dispatch(data) else [];
    ConcatIsAssociative(events, handed, Dispatch(DataAfter(StripCr(buffer), data)));
    if buffer != "" {
      data, events := Line(StripCr(buffer), data, events);
    }
    data, events := Line("", data, events);
  }

  lemma ConcatFrom(chunks: seq<string>, c: nat)
    requires c < |chunks|
    ensures Concat(chunks[c..]) == chunks[c] + Concat(chunks[c + 1..])
  {
    assert chunks[c..][1..] == chunks[c + 1..];
  }

  function DataAfter(value: string, data: seq<string>): seq<string> {
    if value == "" then [] else if DATA <= value then data + [LooseValue(value)] else data
  }

  lemma EventsOfCons(data: seq<string>, line: string, lines: seq<string>)
    ensures var v := StripCr(line);
      Events(data, [line] + lines) == (if v == "" then Dispatch(data) else []) + Events(DataAfter(v, data), lines)
  {
    assert ([line] + lines)[1..] == lines;
  }

  lemma ReadLine(data: seq<string>, buffer: string, later: string)
    requires IndexOf(buffer, LF) < |buffer|
    ensures var i := IndexOf(buffer, LF);
      var v := StripCr(buffer[..i]);
      ReadOn(data, buffer + later) ==
      (if v == "" then Dispatch(data) else []) + ReadOn(DataAfter(v, data), buffer[i + 1..] + later)
  {
    hide *;
    var i := IndexOf(buffer, LF);
    TakeLine(buffer, later);
    ReadFirst(data, buffer[..i], buffer + later, buffer[i + 1..] + later);
  }

  lemma ReadFirst(data: seq<string>, line: string, text: string, rest: string)
    requires Lines(text) == [line] + Lines(rest)
    ensures var v := StripCr(line);
      ReadOn(data, text) == (if v == "" then Dispatch(data) else []) + ReadOn(DataAfter(v, data), rest)
  {
    hide *;
    EventsOfCons(data, line, Lines(rest));
    ReadOnIs(data, text);
    ReadOnIs(DataAfter(StripCr(line), data), rest);
  }

  lemma ReadOnIs(data: seq<string>, text: string)
    ensures ReadOn(data, text) == Events(data, Lines(text))
  {
  }

  lemma ReadEnd(data: seq<string>, buffer: string)
    requires IndexOf(buffer, LF) == |buffer|
    ensures StripCr("") == "" && DataAfter("", data) == [] && Dispatch([]) == []
    ensures var v := StripCr(buffer);
      ReadOn(data, buffer) == (if v == "" then Dispatch(data) else []) + Dispatch(DataAfter(v, data))
  {
    assert Lines(buffer) == [buffer] + [];
    EventsOfCons(data, buffer, []);
  }
}
