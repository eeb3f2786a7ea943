/** normalizeMessages of internal/gateway/normalize.go: system messages move to the top level, top_p is
    dropped, and for claude models an identity line is put in front and the system text is cut to 200 bytes. */
module Normalize {
  import opened Text
  import opened Utf8
  import opened Truncation

  /** A JSON value in memory; a text is the bytes of a string, `Other` a number or a boolean. `Nil` is a nil slice:
      no value is decoded to it, it has no elements, and it is written as null. */
  datatype Json =
    | Null | Nil | Str(text: Bytes) | Arr(items: seq<Json>) | Obj(fields: map<string, Json>) | Other(raw: Bytes)

  const SYSTEM_BYTE_LIMIT: nat := 200
  const FAMILY_CLAUDE := "claude"
  const STRICT := "strict"

  function Fingerprint(): (r: Bytes)
    ensures |r| == 62 && IsAscii(r)
  {
    Ascii("You are a Claude agent, built on Anthropic's Claude Agent SDK.")
  }

  function Field(m: map<string, Json>, key: string): Json {
    if key in m then m[key] else Null
  }

  function TextBlock(s: Bytes): Json {
    Obj(map["type" := Str(Ascii("text")), "text" := Str(s)])
  }

  function BlockText(v: Json): Bytes {
    if v.Obj? && Field(v.fields, "text").Str? then v.fields["text"].text else []
  }

  predicate IsSystem(msg: Json) {
    msg.Obj? && Field(msg.fields, "role") == Str(Ascii("system"))
  }

  /** A slice built by appending to a nil one. */
  function Slice(items: seq<Json>): Json {
    if items == [] then Nil else Arr(items)
  }

  function AsBlock(v: Json): Json {
    if v.Str? then TextBlock(v.text) else v
  }

  /** contentBlocks */
  function Blocks(v: Json): seq<Json> {
    match v
    case Str(s) => [TextBlock(s)]
    case Arr(items) => seq(|items|, i requires 0 <= i < |items| => AsBlock(items[i]))
    case _ => []
  }

  function Texts(blocks: seq<Json>): (r: seq<Bytes>)
    ensures |r| == |blocks|
  {
    seq(|blocks|, i requires 0 <= i < |blocks| => BlockText(blocks[i]))
  }

  function TextBlocks(texts: seq<Bytes>): (r: seq<Json>)
    ensures |r| == |texts|
  {
    seq(|texts|, i requires 0 <= i < |texts| => TextBlock(texts[i]))
  }

  predicate Holds(text: Bytes) { Contains(text, Fingerprint()) }

  /** Some text holds the identity line. */
  predicate AnyHolds(texts: seq<Bytes>) {
    exists i | 0 <= i < |texts| :: Holds(texts[i])
  }

  /** systemHasFingerprint */
  predicate HasFingerprint(system: Json) {
    match system
    case Str(s) => Holds(s)
    case Arr(items) => AnyHolds(Texts(items))
    case _ => false
  }

  /** systemLen: strings inside an array are not counted. */
  function SystemLen(system: Json): nat {
    match system
    case Str(s) => |s|
    case Arr(items) => Total(Texts(items))
    case _ => 0
  }

  /** All the text of the system prompt, strings inside an array included. */
  function AllText(system: Json): seq<Bytes> { Texts(Blocks(system)) }

  // ---- the loops ----

  method ContentBlocks(v: Json) returns (out: seq<Json>)
    ensures out == Blocks(v)
  {
    match v
    case Str(s) => out := [TextBlock(s)];
    case Arr(items) =>
      out := [];
      for i := 0 to |items|
        invariant |out| == i && forall k | 0 <= k < i :: out[k] == AsBlock(items[k])
      {
        out := out + [AsBlock(items[i])];
      }
    case _ => out := [];
  }

  method SystemHasFingerprint(system: Json) returns (found: bool)
    ensures found == HasFingerprint(system)
  {
    hide Holds, BlockText;
    match system
    case Str(s) => found := Holds(s);
    case Arr(items) =>
      for i := 0 to |items|
        invariant forall k | 0 <= k < i :: !Holds(Texts(items)[k])
      {
        if Holds(BlockText(items[i])) {
          assert Holds(Texts(items)[i]);
          return true;
        }
      }
      found := false;
    case _ => found := false;
  }

  method ComputeSystemLen(system: Json) returns (n: nat)
    ensures n == SystemLen(system)
  {
    match system
    case Str(s) => n := |s|;
    case Arr(items) =>
      n := 0;
      for i := 0 to |items|
        invariant n == Total(Texts(items)[..i])
      {
        TotalTake(Texts(items), i);
        n := n + |BlockText(items[i])|;
      }
      assert Texts(items)[..|items|] == Texts(items);
    case _ => n := 0;
  }

  lemma TotalTake(texts: seq<Bytes>, i: nat)
    requires i < |texts|
    ensures Total(texts[..i + 1]) == Total(texts[..i]) + |texts[i]|
  {
    hide *;
    assert texts[..i + 1] == texts[..i] + [texts[i]];
    TotalConcat(texts[..i], [texts[i]]);
    SumOfOne(texts[i]);
  }

  method TruncateSystemBlocks(blocks: seq<Json>, limit: nat) returns (out: seq<Json>)
    ensures out == TextBlocks(Truncated(Texts(blocks), limit))
  {
    hide *;
    var texts: seq<Bytes> := [];
    var remaining: nat := limit;
    ghost var all := Texts(blocks);
    out := [];
    EmptyBlocks();
    assert all[0..] == all;
    assert [] + Truncated(all[0..], remaining) == Truncated(all, limit);
    for i := 0 to |blocks|
      invariant out == TextBlocks(texts)
      invariant texts + Truncated(all[i..], remaining) == Truncated(all, limit)
    {
      TextAt(blocks, i);
      TruncatedFrom(all, i, remaining);
      var text := BlockText(blocks[i]);
      if |text| > remaining {
        text := BackOff(text[..remaining]);
        KeptCut(all[i], remaining);
      } else {
        KeptWhole(all[i], remaining);
      }
      ghost var rest := Truncated(all[i + 1..], remaining - |text|);
      if text != [] {
        ConcatIsAssociative(texts, [text], rest);
        TextBlocksAppend(texts, text);
        out := out + [TextBlock(text)];
        texts := texts + [text];
        remaining := remaining - |text|;
      } else {
        assert [] + rest == rest;
      }
      if remaining <= 0 {
        TruncatedNothing(all[i + 1..]);
        assert texts + [] == texts;
        return;
      }
    }
    assert all[|blocks|..] == [];
    NoTexts(remaining);
    assert texts + [] == texts;
  }

  lemma EmptyBlocks()
    ensures TextBlocks([]) == []
  {
  }

  lemma TextAt(blocks: seq<Json>, i: nat)
    requires i < |blocks|
    ensures Texts(blocks)[i] == BlockText(blocks[i])
  {
  }

  lemma TextBlocksAppend(texts: seq<Bytes>, text: Bytes)
    ensures TextBlocks(texts + [text]) == TextBlocks(texts) + [TextBlock(text)]
  {
    hide TextBlock;
  }

  lemma TruncatedFrom(all: seq<Bytes>, i: nat, room: nat)
    requires i < |all|
    ensures Truncated(all[i..], room) ==
            (if Kept(all[i], room) == [] then [] else [Kept(all[i], room)])
            + Truncated(all[i + 1..], room - |Kept(all[i], room)|)
  {
    hide *;
    TruncatedIs(all[i..], room);
    assert all[i..][0] == all[i] && all[i..][1..] == all[i + 1..];
  }

  lemma KeptCut(s: Bytes, room: nat)
    requires room < |s|
    ensures Kept(s, room) == LongestValidPrefix(s[..room])
  {
  }

  // ---- what the body becomes ----

  function KeptMessages(msgs: seq<Json>): seq<Json> {
    if msgs == [] then [] else (if IsSystem(msgs[0]) then [] else [msgs[0]]) + KeptMessages(msgs[1..])
  }

  function HoistedBlocks(msgs: seq<Json>): seq<Json> {
    if msgs == [] then []
    else (if IsSystem(msgs[0]) then Blocks(Field(msgs[0].fields, "content")) else []) + HoistedBlocks(msgs[1..])
  }

  function Messages(body: map<string, Json>): seq<Json> {
    if Field(body, "messages").Arr? then body["messages"].items else []
  }

  predicate Hoists(body: map<string, Json>) { HoistedBlocks(Messages(body)) != [] }

  function System(body: map<string, Json>): Json { Field(body, "system") }

  function HoistedSystem(body: map<string, Json>): Json {
    if Hoists(body) then Arr(Blocks(System(body)) + HoistedBlocks(Messages(body))) else System(body)
  }

  function Hoisted(body: map<string, Json>): map<string, Json> {
    if Hoists(body) then
      body["messages" := Slice(KeptMessages(Messages(body)))]["system" := HoistedSystem(body)]
    else body
  }

  predicate IsClaude(model: string) { FAMILY_CLAUDE <= model }

  function WithIdentity(system: Json): Json {
    if HasFingerprint(system) then system else Arr([TextBlock(Fingerprint())] + Blocks(system))
  }

  function Cloaked(system: Json, strict: bool): Json {
    if SystemLen(system) <= SYSTEM_BYTE_LIMIT then system
    else if strict then Arr([TextBlock(Fingerprint())])
    else Arr(TextBlocks(Truncated(AllText(system), SYSTEM_BYTE_LIMIT)))
  }

  function ClaudeSystem(system: Json, strict: bool): Json { Cloaked(WithIdentity(system), strict) }

  function Normalized(body: map<string, Json>, model: string, cloakMode: string): map<string, Json> {
    var b := Hoisted(body) - {"top_p"};
    if IsClaude(model) then b["system" := ClaudeSystem(System(b), cloakMode == STRICT)] else b
  }

  function SystemActions(system: Json, strict: bool): seq<string> {
    (if HasFingerprint(system) then [] else ["inject_fingerprint"]) +
    (if SystemLen(WithIdentity(system)) <= SYSTEM_BYTE_LIMIT then []
     else if strict then ["cloak_strict"] else ["cloak_truncate"])
  }

  function ActionsOf(body: map<string, Json>, model: string, cloakMode: string): seq<string> {
    (if Hoists(body) then ["hoist_system"] else []) +
    ((if "top_p" in body then ["strip_top_p"] else []) +
     (if IsClaude(model) then SystemActions(HoistedSystem(body), cloakMode == STRICT) else []))
  }

  // ---- the request being rewritten ----

  class Rewriting {
    var body: map<string, Json>
    var actions: seq<string>

    constructor (body: map<string, Json>)
      ensures this.body == body && actions == []
    {
      this.body, actions := body, [];
    }

    method HoistSystem()
      modifies this
      ensures body == Hoisted(old(body))
      ensures actions == old(actions) + if Hoists(old(body)) then ["hoist_system"] else []
    {
      var kept: seq<Json>, hoisted: seq<Json> := [], [];
      var msgs := Messages(body);
      PartitionOfNone();
      hide *;
      for i := 0 to |msgs|
        invariant kept == KeptMessages(msgs[..i]) && hoisted == HoistedBlocks(msgs[..i])
        invariant body == old(body) && actions == old(actions)
      {
        PartitionNext(msgs, i);
        if !IsSystem(msgs[i]) {
          kept := kept + [msgs[i]];
        } else {
          var blocks := ContentBlocks(ContentOf(msgs[i]));
          hoisted := hoisted + blocks;
        }
      }
      assert msgs[..|msgs|] == msgs;
      FinishHoist(kept, hoisted);
    }

    method FinishHoist(kept: seq<Json>, hoisted: seq<Json>)
      requires kept == KeptMessages(Messages(body)) && hoisted == HoistedBlocks(Messages(body))
      modifies this
      ensures body == Hoisted(old(body))
      ensures actions == old(actions) + if Hoists(old(body)) then ["hoist_system"] else []
    {
      hide KeptMessages, HoistedBlocks, Messages, Blocks;
      if |hoisted| > 0 {
        var blocks := ContentBlocks(System(body));
        body := body["messages" := Slice(kept)];
        body := body["system" := Arr(blocks + hoisted)];
        actions := actions + ["hoist_system"];
      }
    }

    method StripTopP()
      modifies this
      ensures body == old(body) - {"top_p"}
      ensures actions == old(actions) + if "top_p" in old(body) then ["strip_top_p"] else []
    {
      if "top_p" in body {
        body := body - {"top_p"};
        actions := actions + ["strip_top_p"];
      }
    }

    method InjectFingerprint()
      modifies this
      ensures var s := old(System(body));
              && body == (if HasFingerprint(s) then old(body) else old(body)["system" := WithIdentity(s)])
              && actions == old(actions) + if HasFingerprint(s) then [] else ["inject_fingerprint"]
    {
      hide HasFingerprint, Blocks, TextBlock, Fingerprint;
      var found := SystemHasFingerprint(System(body));
      if !found {
        var blocks := ContentBlocks(System(body));
        body := body["system" := Arr([TextBlock(Fingerprint())] + blocks)];
        actions := actions + ["inject_fingerprint"];
      }
    }

    method Cloak(strict: bool)
      requires "system" in body
      modifies this
      ensures body == old(body)["system" := Cloaked(old(System(body)), strict)]
      ensures var s := old(System(body));
              actions == old(actions) + if SystemLen(s) <= SYSTEM_BYTE_LIMIT then []
                                        else if strict then ["cloak_strict"] else ["cloak_truncate"]
    {
      hide SystemLen, Truncated, TextBlocks, TextBlock, Texts, Blocks, Fingerprint;
      var size := ComputeSystemLen(System(body));
      if size <= SYSTEM_BYTE_LIMIT {
        return;
      }
      if strict {
        body := body["system" := Arr([TextBlock(Fingerprint())])];
        actions := actions + ["cloak_strict"];
        return;
      }
      var blocks := ContentBlocks(System(body));
      var cut := TruncateSystemBlocks(blocks, SYSTEM_BYTE_LIMIT);
      body := body["system" := Arr(cut)];
      actions := actions + ["cloak_truncate"];
    }

    method NormalizeMessages(model: string, cloakMode: string)
      modifies this
      ensures body == Normalized(old(body), model, cloakMode)
      ensures actions == old(actions) + ActionsOf(old(body), model, cloakMode)
    {
      hide *;
      HoistSystem();
      StripTopP();
      ghost var h, s := body, System(body);
      AfterHoist(old(body), model, cloakMode);
      StagesAppend(old(actions), old(body), model, cloakMode);
      if !IsClaude(model) {
        return;
      }
      InjectFingerprint();
      AfterInject(h, body, Cloaked(WithIdentity(s), cloakMode == STRICT));
      Cloak(cloakMode == STRICT);
      assert body == h["system" := Cloaked(WithIdentity(s), cloakMode == STRICT)];
    }
  }

  /** How the stages of normalizeMessages make up the whole. */
  lemma AfterHoist(body: map<string, Json>, model: string, cloakMode: string)
    ensures var h := Hoisted(body) - {"top_p"};
            && ("top_p" in Hoisted(body) <==> "top_p" in body)
            && System(h) == HoistedSystem(body)
            && Normalized(body, model, cloakMode) ==
               if IsClaude(model) then h["system" := Cloaked(WithIdentity(System(h)), cloakMode == STRICT)] else h
  {
    hide HoistedBlocks, KeptMessages, Messages, Blocks, WithIdentity, Cloaked;
  }

  lemma AfterInject(h: map<string, Json>, injected: map<string, Json>, v: Json)
    requires injected == if HasFingerprint(System(h)) then h else h["system" := WithIdentity(System(h))]
    ensures "system" in injected && System(injected) == WithIdentity(System(h))
    ensures injected["system" := v] == h["system" := v]
  {
    hide *;
    IdentityOf(System(h));
    SystemIsField(h, WithIdentity(System(h)));
    Overwrite(h, "system", WithIdentity(System(h)), v);
  }

  lemma SystemIsField(m: map<string, Json>, v: Json)
    ensures System(m["system" := v]) == v
    ensures System(m) != Null ==> "system" in m
  {
  }

  lemma Overwrite<K, V>(m: map<K, V>, k: K, v: V, w: V)
    ensures m[k := v][k := w] == m[k := w]
  {
  }

  lemma IdentityOf(system: Json)
    ensures HasFingerprint(system) ==> system != Null && WithIdentity(system) == system
    ensures !HasFingerprint(system) ==> WithIdentity(system) == Arr([TextBlock(Fingerprint())] + Blocks(system))
  {
    hide AnyHolds, Holds, Blocks, TextBlock, Fingerprint;
  }

  lemma StagesAppend(o: seq<string>, body: map<string, Json>, model: string, cloakMode: string)
    ensures var a := if Hoists(body) then ["hoist_system"] else [];
            var b := if "top_p" in body then ["strip_top_p"] else [];
            var s := HoistedSystem(body);
            var c := if HasFingerprint(s) then [] else ["inject_fingerprint"];
            var d := if SystemLen(WithIdentity(s)) <= SYSTEM_BYTE_LIMIT then []
                     else if cloakMode == STRICT then ["cloak_strict"] else ["cloak_truncate"];
            o + ActionsOf(body, model, cloakMode) == if IsClaude(model) then o + a + b + c + d else o + a + b
  {
    hide Hoists, HoistedSystem, HasFingerprint, SystemLen, WithIdentity, IsClaude;
  }

  // ---- the partition ----

  function ContentOf(msg: Json): Json
    requires IsSystem(msg)
  {
    Field(msg.fields, "content")
  }

  lemma PartitionOfNone()
    ensures KeptMessages([]) == [] && HoistedBlocks([]) == []
  {
  }

  lemma PartitionStep(msgs: seq<Json>)
    requires msgs != []
    ensures KeptMessages(msgs) == (if IsSystem(msgs[0]) then [] else [msgs[0]]) + KeptMessages(msgs[1..])
    ensures HoistedBlocks(msgs) ==
            (if IsSystem(msgs[0]) then Blocks(ContentOf(msgs[0])) else []) + HoistedBlocks(msgs[1..])
  {
    hide Blocks;
  }

  lemma {:induction false} PartitionConcat(a: seq<Json>, b: seq<Json>)
    ensures KeptMessages(a + b) == KeptMessages(a) + KeptMessages(b)
    ensures HoistedBlocks(a + b) == HoistedBlocks(a) + HoistedBlocks(b)
  {
    hide *;
    if a == [] {
      assert a + b == b;
      PartitionOfNone();
    } else {
      PartitionStep(a);
      PartitionStep(a + b);
      assert (a + b)[0] == a[0] && (a + b)[1..] == a[1..] + b;
      PartitionConcat(a[1..], b);
    }
  }

  lemma PartitionOfOne(msg: Json)
    ensures KeptMessages([msg]) == if IsSystem(msg) then [] else [msg]
    ensures HoistedBlocks([msg]) == if IsSystem(msg) then Blocks(ContentOf(msg)) else []
  {
    hide *;
    PartitionStep([msg]);
    PartitionOfNone();
    assert [msg][1..] == [];
  }

  lemma PartitionNext(msgs: seq<Json>, i: nat)
    requires i < |msgs|
    ensures msgs[..i + 1] == msgs[..i] + [msgs[i]]
    ensures KeptMessages(msgs[..i + 1]) ==
            if IsSystem(msgs[i]) then KeptMessages(msgs[..i]) else KeptMessages(msgs[..i]) + [msgs[i]]
    ensures HoistedBlocks(msgs[..i + 1]) ==
            if IsSystem(msgs[i]) then HoistedBlocks(msgs[..i]) + Blocks(ContentOf(msgs[i]))
            else HoistedBlocks(msgs[..i])
  {
    hide *;
    assert msgs[..i + 1] == msgs[..i] + [msgs[i]];
    PartitionConcat(msgs[..i], [msgs[i]]);
    PartitionOfOne(msgs[i]);
  }

  /** The i-th message is kept, after the kept ones before it in the request, or its content is hoisted,
      after the content of the system messages before it. */
  lemma PartitionIsStable(msgs: seq<Json>, i: nat)
    requires i < |msgs|
    ensures KeptMessages(msgs) == KeptMessages(msgs[..i]) +
            ((if IsSystem(msgs[i]) then [] else [msgs[i]]) + KeptMessages(msgs[i + 1..]))
    ensures HoistedBlocks(msgs) == HoistedBlocks(msgs[..i]) +
            ((if IsSystem(msgs[i]) then Blocks(ContentOf(msgs[i])) else []) + HoistedBlocks(msgs[i + 1..]))
  {
    hide *;
    assert msgs == msgs[..i] + msgs[i..];
    assert msgs[i..][0] == msgs[i] && msgs[i..][1..] == msgs[i + 1..];
    PartitionConcat(msgs[..i], msgs[i..]);
    PartitionStep(msgs[i..]);
  }

  lemma {:induction false} KeptAreNotSystem(msgs: seq<Json>)
    ensures forall m | m in KeptMessages(msgs) :: !IsSystem(m)
    ensures HoistedBlocks(msgs) != [] ==> |KeptMessages(msgs)| < |msgs|
    ensures |KeptMessages(msgs)| <= |msgs|
  {
    hide IsSystem, Blocks;
    if msgs != [] {
      KeptAreNotSystem(msgs[1..]);
    }
  }

  lemma {:induction false} NothingToHoist(msgs: seq<Json>)
    requires forall m | m in msgs :: !IsSystem(m)
    ensures HoistedBlocks(msgs) == []
  {
    hide IsSystem, Blocks;
    if msgs != [] {
      assert msgs[0] in msgs;
      NothingToHoist(msgs[1..]);
    }
  }

  /** What the rewriting does to each part of the body. */
  lemma NormalizedParts(body: map<string, Json>, model: string, cloakMode: string)
    ensures var out := Normalized(body, model, cloakMode);
            && "top_p" !in out
            && Messages(out) == (if Hoists(body) then KeptMessages(Messages(body)) else Messages(body))
            && System(out) == (if IsClaude(model) then ClaudeSystem(HoistedSystem(body), cloakMode == STRICT)
                               else HoistedSystem(body))
            && forall key | key !in {"messages", "system", "top_p"} :: Field(out, key) == Field(body, key)
  {
    hide HoistedBlocks, KeptMessages, Hoists, HoistedSystem, Blocks, WithIdentity, Cloaked, HasFingerprint, SystemLen;
    AfterHoist(body, model, cloakMode);
  }

  /** Once any block is hoisted, no message of the system role is left; the system text is the top-level
      blocks followed by the hoisted ones. */
  lemma HoistLeavesNoSystem(body: map<string, Json>, model: string, cloakMode: string)
    requires Hoists(body)
    ensures forall m | m in Messages(Normalized(body, model, cloakMode)) :: !IsSystem(m)
    ensures HoistedSystem(body) == Arr(Blocks(System(body)) + HoistedBlocks(Messages(body)))
  {
    hide IsSystem, HoistedBlocks, KeptMessages, Messages, Normalized, Blocks;
    NormalizedParts(body, model, cloakMode);
    KeptAreNotSystem(Messages(body));
  }

  // ---- the identity line and the byte limit ----

  /** An occurrence of the identity line ends within the first `room` bytes of the text. */
  predicate EndsWithin(text: Bytes, room: nat) {
    exists p | 0 <= p <= |text| - |Fingerprint()| :: At(text, Fingerprint(), p) && p + |Fingerprint()| <= room
  }

  /** The same for the texts in a row, the occurrence being inside one of them. */
  predicate EndsEarly(texts: seq<Bytes>, room: nat) {
    texts != [] &&
    (EndsWithin(texts[0], room) || (|texts[0]| <= room && EndsEarly(texts[1..], room - |texts[0]|)))
  }

  lemma HoldsIsLong(text: Bytes)
    ensures Holds(text) ==> 62 <= |text|
  {
  }

  lemma AnyHoldsCons(t: Bytes, rest: seq<Bytes>)
    ensures AnyHolds([t] + rest) <==> Holds(t) || AnyHolds(rest)
  {
    hide Holds;
    var all := [t] + rest;
    assert all[0] == t && forall i | 0 <= i < |rest| :: all[i + 1] == rest[i];
  }

  lemma NoneHolds()
    ensures !AnyHolds([])
  {
  }

  lemma {:induction false} AnyHoldsIsLong(texts: seq<Bytes>)
    ensures AnyHolds(texts) ==> 62 <= Total(texts)
  {
    hide *;
    if texts == [] {
      NoneHolds();
    } else {
      assert texts == [texts[0]] + texts[1..];
      AnyHoldsCons(texts[0], texts[1..]);
      HoldsIsLong(texts[0]);
      SumStep(texts);
      AnyHoldsIsLong(texts[1..]);
    }
  }

  /** What is kept of a text holds the identity line exactly when an occurrence ends in time. */
  lemma KeptHoldsIff(text: Bytes, room: nat)
    requires Valid(text)
    ensures Holds(Kept(text, room)) <==> EndsWithin(text, room)
  {
    hide *;
    if Holds(Kept(text, room)) {
      KeptHolds(text, room);
    }
    if EndsWithin(text, room) {
      EndsInKept(text, room);
    }
  }

  lemma KeptHolds(text: Bytes, room: nat)
    requires Holds(Kept(text, room))
    ensures EndsWithin(text, room)
  {
    hide Kept, Fingerprint;
    var kept, f := Kept(text, room), Fingerprint();
    var p :| 0 <= p <= |kept| - |f| && At(kept, f, p);
    assert kept[p..p + |f|] == text[p..p + |f|];
    assert At(text, f, p);
  }

  lemma EndsInKept(text: Bytes, room: nat)
    requires Valid(text) && EndsWithin(text, room)
    ensures Holds(Kept(text, room))
  {
    hide Kept, Fingerprint, Valid;
    var kept, f := Kept(text, room), Fingerprint();
    var p :| 0 <= p <= |text| - |f| && At(text, f, p) && p + |f| <= room;
    assert text[p + |f| - 1] == text[p..p + |f|][|f| - 1];
    AsciiEndsCharacter(text, p + |f| - 1);
    KeptIsLongest(text, room, p + |f|);
    assert kept[p..p + |f|] == text[p..p + |f|];
    assert At(kept, f, p);
  }

  lemma EndsEarlyStep(texts: seq<Bytes>, room: nat)
    ensures texts == [] ==> !EndsEarly(texts, room)
    ensures texts != [] ==>
      (EndsEarly(texts, room) <==>
       EndsWithin(texts[0], room) || (|texts[0]| <= room && EndsEarly(texts[1..], room - |texts[0]|)))
  {
    hide EndsWithin;
  }

  lemma {:induction false} TruncatedHoldsIff(texts: seq<Bytes>, room: nat)
    requires AllValid(texts)
    ensures AnyHolds(Truncated(texts, room)) <==> EndsEarly(texts, room)
  {
    hide *;
    EndsEarlyStep(texts, room);
    if texts == [] {
      NoTexts(room);
      NoneHolds();
    } else {
      var t := Kept(texts[0], room);
      var rest := Truncated(texts[1..], room - |t|);
      AllValidAt(texts, 0);
      KeptHoldsIff(texts[0], room);
      TruncatedIs(texts, room);
      if t == [] {
        HoldsIsLong(t);
        assert Truncated(texts, room) == rest;
      } else {
        AnyHoldsCons(t, rest);
      }
      if |texts[0]| <= room {
        KeptWhole(texts[0], room);
        TruncatedHoldsIff(texts[1..], room - |t|);
      } else {
        KeptWastesLittle(texts[0], room);
        BudgetIsUsed(texts[1..], room - |t|);
        AnyHoldsIsLong(rest);
      }
    }
  }

  lemma TextBlockText(s: Bytes)
    ensures BlockText(TextBlock(s)) == s && AsBlock(TextBlock(s)) == TextBlock(s)
  {
    hide Ascii;
  }

  lemma TextsOfTextBlocks(texts: seq<Bytes>)
    ensures Texts(TextBlocks(texts)) == texts
    ensures AllText(Arr(TextBlocks(texts))) == texts
  {
    hide TextBlock, BlockText, AsBlock;
    forall i | 0 <= i < |texts| ensures BlockText(TextBlock(texts[i])) == texts[i]
                                ensures AsBlock(TextBlock(texts[i])) == TextBlock(texts[i]) {
      TextBlockText(texts[i]);
    }
  }

  /** A list of text blocks is measured, searched and read as its texts. */
  lemma OfTextBlocks(texts: seq<Bytes>)
    ensures SystemLen(Arr(TextBlocks(texts))) == Total(texts)
    ensures HasFingerprint(Arr(TextBlocks(texts))) <==> AnyHolds(texts)
    ensures AllText(Arr(TextBlocks(texts))) == texts
  {
    hide TextBlocks, Texts, AnyHolds, Total, AllText;
    TextsOfTextBlocks(texts);
  }

  lemma OfFingerprint()
    ensures [TextBlock(Fingerprint())] == TextBlocks([Fingerprint()])
    ensures Total([Fingerprint()]) == 62 <= SYSTEM_BYTE_LIMIT && Holds(Fingerprint())
  {
    hide TextBlock, Fingerprint, Total;
    var f := Fingerprint();
    SumOfOne(f);
    HoldsItself(f);
  }

  lemma HoldsItself(f: Bytes)
    requires f == Fingerprint()
    ensures Holds(f) && AnyHolds([f])
  {
    hide Fingerprint;
    assert f[0..0 + |f|] == f;
    assert At(f, f, 0);
    assert Holds([f][0]);
  }

  /** The whole system prompt of the strict mode. */
  lemma OfIdentityAlone()
    ensures var alone := Arr(TextBlocks([Fingerprint()]));
            HasFingerprint(alone) && SystemLen(alone) == 62 == Total(AllText(alone))
  {
    hide *;
    OfFingerprint();
    HoldsItself(Fingerprint());
    OfTextBlocks([Fingerprint()]);
  }

  /** Blocks of any value: plain strings have become text blocks, so all their text is measured and searched. */
  lemma OfBlocks(v: Json, front: seq<Bytes>)
    ensures Texts(TextBlocks(front) + Blocks(v)) == front + AllText(v)
    ensures AllText(Arr(TextBlocks(front) + Blocks(v))) == front + AllText(v)
  {
    hide TextBlock, BlockText, AsBlock;
    var blocks := TextBlocks(front) + Blocks(v);
    forall i | 0 <= i < |front| ensures BlockText(blocks[i]) == front[i] && AsBlock(blocks[i]) == blocks[i] {
      TextBlockText(front[i]);
    }
    forall i | |front| <= i < |blocks| ensures AsBlock(blocks[i]) == blocks[i] {
      BlocksAreBlocks(v, i - |front|);
    }
  }

  lemma BlocksAreBlocks(v: Json, i: nat)
    requires i < |Blocks(v)|
    ensures AsBlock(Blocks(v)[i]) == Blocks(v)[i]
  {
    hide Ascii;
  }

  /** With the identity line put in front, all text counts. */
  lemma OfInjected(system: Json)
    requires !HasFingerprint(system)
    ensures HasFingerprint(WithIdentity(system))
    ensures AllText(WithIdentity(system)) == [Fingerprint()] + AllText(system)
    ensures SystemLen(WithIdentity(system)) == Total(AllText(WithIdentity(system)))
  {
    hide *;
    var f := Fingerprint();
    IdentityOf(system);
    OfFingerprint();
    OfBlocks(system, [f]);
    AnyHoldsCons(f, AllText(system));
    OfArray(TextBlocks([f]) + Blocks(system));
  }

  lemma OfArray(items: seq<Json>)
    ensures HasFingerprint(Arr(items)) <==> AnyHolds(Texts(items))
    ensures SystemLen(Arr(items)) == Total(Texts(items))
  {
    hide AnyHolds, Texts, Total;
  }

  lemma CloakedIs(system: Json, strict: bool)
    ensures Cloaked(system, strict) ==
            if SystemLen(system) <= SYSTEM_BYTE_LIMIT then system
            else if strict then Arr(TextBlocks([Fingerprint()]))
            else Arr(TextBlocks(Truncated(AllText(system), SYSTEM_BYTE_LIMIT)))
  {
    hide SystemLen, TextBlock, TextBlocks, Fingerprint, AllText, Truncated;
    OfFingerprint();
  }

  /** The system prompt of a claude request measures at most 200 bytes. */
  lemma ClaudeSystemIsShort(system: Json, strict: bool)
    ensures SystemLen(Cloaked(system, strict)) <= SYSTEM_BYTE_LIMIT
  {
    hide *;
    CloakedIs(system, strict);
    OfFingerprint();
    OfIdentityAlone();
    OfTextBlocks(Truncated(AllText(system), SYSTEM_BYTE_LIMIT));
    BudgetIsUsed(AllText(system), SYSTEM_BYTE_LIMIT);
  }

  /** An identity line that was put in front is never cut. */
  lemma InjectedIdentityStays(system: Json, strict: bool)
    requires !HasFingerprint(system)
    ensures HasFingerprint(ClaudeSystem(system, strict))
  {
    var f, limit := Fingerprint(), SYSTEM_BYTE_LIMIT;
    ClaudeSystemIs(system, strict);
    hide *;
    OfInjected(system);
    CloakedIs(WithIdentity(system), strict);
    OfFingerprint();
    OfIdentityAlone();
    var all := AllText(WithIdentity(system));
    assert all[0] == f;
    OfTextBlocks(Truncated(all, limit));
    KeptWhole(f, limit);
    TruncatedIs(all, limit);
    AnyHoldsCons(f, Truncated(all[1..], limit - |f|));
  }

  lemma ClaudeSystemIs(system: Json, strict: bool)
    ensures ClaudeSystem(system, strict) == Cloaked(WithIdentity(system), strict)
  {
    hide Cloaked, WithIdentity;
  }

  /** The identity line is intact in the end exactly when it was injected, nothing was cut, the mode is strict,
      or an occurrence of it ends within the first 200 bytes, inside one block. */
  lemma IdentityIntactIff(system: Json, strict: bool)
    requires AllValid(AllText(system))
    ensures HasFingerprint(ClaudeSystem(system, strict)) <==>
            !HasFingerprint(system) || SystemLen(system) <= SYSTEM_BYTE_LIMIT || strict
            || EndsEarly(AllText(system), SYSTEM_BYTE_LIMIT)
  {
    hide *;
    var limit := SYSTEM_BYTE_LIMIT;
    if !HasFingerprint(system) {
      InjectedIdentityStays(system, strict);
    } else {
      IdentityOf(system);
      ClaudeSystemIs(system, strict);
      CloakedIs(system, strict);
      OfIdentityAlone();
      OfTextBlocks(Truncated(AllText(system), limit));
      TruncatedHoldsIff(AllText(system), limit);
    }
  }

  /** An identity line behind 139 or more bytes of other text is cut in the relaxed mode; no occurrence starts
      in text without its first letter. */
  lemma LateIdentityIsCut(pad: Bytes)
    requires Valid(pad) && 139 <= |pad| && Fingerprint()[0] !in pad
    ensures var system := Str(pad + Fingerprint());
            HasFingerprint(system) && !HasFingerprint(ClaudeSystem(system, false))
  {
    hide *;
    var f := Fingerprint();
    var text := pad + f;
    OfString(text);
    LateIdentity(pad);
    AsciiIsValid(f);
    ValidConcat(pad, f);
    OneIsValid(text);
    IdentityIntactIff(Str(text), false);
    EndsEarlyStep([text], SYSTEM_BYTE_LIMIT);
  }

  lemma OfString(text: Bytes)
    ensures AllText(Str(text)) == [text] && SystemLen(Str(text)) == |text|
    ensures HasFingerprint(Str(text)) <==> Holds(text)
  {
    hide TextBlock, BlockText, Holds;
    TextBlockText(text);
  }

  lemma OneIsValid(text: Bytes)
    requires Valid(text)
    ensures AllValid([text])
  {
    hide Valid;
  }

  lemma LateIdentity(pad: Bytes)
    requires 139 <= |pad| && Fingerprint()[0] !in pad
    ensures Holds(pad + Fingerprint()) && !EndsWithin(pad + Fingerprint(), SYSTEM_BYTE_LIMIT)
    ensures |pad + Fingerprint()| > SYSTEM_BYTE_LIMIT
  {
    hide Fingerprint;
    var f := Fingerprint();
    var text := pad + f;
    assert text[|pad|..|pad| + |f|] == f;
    assert At(text, f, |pad|);
    forall p | 0 <= p <= |text| - |f| && p + |f| <= SYSTEM_BYTE_LIMIT ensures !At(text, f, p) {
      assert text[p] == pad[p] && text[p..p + |f|][0] == text[p];
    }
  }

  /** Not only the measured text but all text is at most 200 bytes, unless an identity line in a block lets plain
      strings beside it, which are not measured, through. */
  lemma AllTextIsShortIff(system: Json, strict: bool)
    ensures Total(AllText(ClaudeSystem(system, strict))) <= SYSTEM_BYTE_LIMIT <==>
            !(HasFingerprint(system) && SystemLen(system) <= SYSTEM_BYTE_LIMIT < Total(AllText(system)))
  {
    hide *;
    var limit := SYSTEM_BYTE_LIMIT;
    var w := WithIdentity(system);
    ClaudeSystemIs(system, strict);
    IdentityOf(system);
    if !HasFingerprint(system) {
      OfInjected(system);
    }
    CloakedIs(w, strict);
    OfFingerprint();
    OfIdentityAlone();
    OfTextBlocks(Truncated(AllText(w), limit));
    BudgetIsUsed(AllText(w), limit);
  }

  /** Beside the identity line in a block, a plain string of any length passes in every mode. */
  lemma UnmeasuredStringPasses(s: Bytes, strict: bool)
    requires |s| > 138
    ensures var system := Arr([TextBlock(Fingerprint()), Str(s)]);
            ClaudeSystem(system, strict) == system && Total(AllText(system)) == 62 + |s| > SYSTEM_BYTE_LIMIT
  {
    hide *;
    var system := Arr([TextBlock(Fingerprint()), Str(s)]);
    IdentityBesideString(s);
    LimitIs();
    ClaudeSystemIs(system, strict);
    IdentityOf(system);
    CloakedIs(system, strict);
  }

  lemma IdentityBesideString(s: Bytes)
    ensures var system := Arr([TextBlock(Fingerprint()), Str(s)]);
            && HasFingerprint(system) && SystemLen(system) == 62
            && Total(AllText(system)) == 62 + |s|
  {
    var f := Fingerprint();
    var items := [TextBlock(f), Str(s)];
    StringBesideBlock(f, s);
    hide *;
    OfArray(items);
    HoldsItself(f);
    AnyHoldsCons(f, [[]]);
    assert [f] + [[]] == [f, []] && [f, []][1..] == [[]] && [f, s][1..] == [s];
    SumStep([f, []]);
    SumStep([f, s]);
    SumOfOne([]);
    SumOfOne(s);
  }

  lemma StringBesideBlock(f: Bytes, s: Bytes)
    ensures Texts([TextBlock(f), Str(s)]) == [f, []]
    ensures AllText(Arr([TextBlock(f), Str(s)])) == [f, s]
  {
    hide TextBlock;
    TextBlockText(f);
    TextBlockText(s);
  }

  /** A prompt of two blocks whose cut is not a prefix of its text: the identity line, 137 more ASCII bytes and
      "é" in one block, "x" in the next. */
  lemma CutPromptIsNoPrefix(fill: Bytes)
    requires IsAscii(fill) && |fill| == 137
    ensures var pad := Fingerprint() + fill;
            var system := Arr(TextBlocks([pad + E_ACUTE, X]));
            var sent := AllText(ClaudeSystem(system, false));
            sent == [pad, X] && !(Flat(sent) <= Flat(AllText(system)))
  {
    hide *;
    var pad := Fingerprint() + fill;
    AsciiConcat(Fingerprint(), fill);
    var texts := [pad + E_ACUTE, X];
    var system := Arr(TextBlocks(texts));
    CutSkipsACharacter(pad);
    AccentBytes();
    OfFingerprint();
    OfTextBlocks(texts);
    OfTextBlocks(Truncated(texts, 200));
    HoldsItself(Fingerprint());
    LongerHolds(Fingerprint(), fill);
    LongerHolds(pad, E_ACUTE);
    AnyHoldsCons(pad + E_ACUTE, [X]);
    assert [pad + E_ACUTE] + [X] == texts && texts[1..] == [X];
    SumStep(texts);
    SumOfOne(X);
    IdentityOf(system);
    ClaudeSystemIs(system, false);
    CloakedIs(system, false);
    LimitIs();
  }

  lemma AsciiConcat(a: Bytes, b: Bytes)
    requires IsAscii(a) && IsAscii(b)
    ensures IsAscii(a + b)
  {
    hide Fingerprint;
  }

  lemma LimitIs()
    ensures SYSTEM_BYTE_LIMIT == 200
  {
  }

  lemma LongerHolds(s: Bytes, t: Bytes)
    requires Holds(s)
    ensures Holds(s + t)
  {
    hide Fingerprint;
    var f := Fingerprint();
    var p :| 0 <= p <= |s| - |f| && At(s, f, p);
    assert (s + t)[p..p + |f|] == s[p..p + |f|];
    assert At(s + t, f, p);
  }

  // ---- doing it twice ----

  /** A claude system prompt that holds the identity line is left alone the second time; any other is changed. */
  lemma ClaudeSystemAgainIff(system: Json, strict: bool, strictAgain: bool)
    ensures var once := ClaudeSystem(system, strict);
            ClaudeSystem(once, strictAgain) == once <==> HasFingerprint(once)
  {
    hide *;
    var once := ClaudeSystem(system, strict);
    ClaudeSystemIs(system, strict);
    ClaudeSystemIsShort(WithIdentity(system), strict);
    if HasFingerprint(once) {
      IdentityOf(once);
      ClaudeSystemIs(once, strictAgain);
      CloakedIs(once, strictAgain);
    } else {
      InjectedIdentityStays(once, strictAgain);
    }
  }

  lemma BodyIs(body: map<string, Json>, model: string, cloakMode: string)
    requires !Hoists(body) && "top_p" !in body
    ensures Normalized(body, model, cloakMode) ==
            if IsClaude(model) then body["system" := ClaudeSystem(System(body), cloakMode == STRICT)] else body
  {
    hide Hoists, ClaudeSystem;
    assert body - {"top_p"} == body;
  }

  /** The same value written back changes nothing. */
  lemma SystemWrittenBackIff(body: map<string, Json>, v: Json)
    requires v != Null
    ensures body["system" := v] == body <==> System(body) == v
  {
    if System(body) == v {
      assert body["system" := v] == body;
    } else {
      assert System(body["system" := v]) == v;
    }
  }

  lemma ClaudeSystemIsThere(system: Json, strict: bool)
    ensures ClaudeSystem(system, strict) != Null
  {
    hide HasFingerprint, SystemLen, Truncated, TextBlocks, TextBlock, Fingerprint, Blocks, AllText;
    IdentityOf(system);
  }

  lemma SecondPassHoistsNothing(body: map<string, Json>, model: string, cloakMode: string)
    ensures !Hoists(Normalized(body, model, cloakMode))
  {
    hide Normalized, HoistedBlocks, KeptMessages, Messages, IsSystem;
    NormalizedParts(body, model, cloakMode);
    KeptAreNotSystem(Messages(body));
    if Hoists(body) {
      NothingToHoist(KeptMessages(Messages(body)));
    }
  }

  /** A body with nothing to hoist and the system prompt of an earlier rewriting. */
  lemma AgainIff(body: map<string, Json>, model: string, modeAgain: string, system: Json, strict: bool)
    requires !Hoists(body) && "top_p" !in body && (IsClaude(model) ==> System(body) == ClaudeSystem(system, strict))
    ensures Normalized(body, model, modeAgain) == body <==> !IsClaude(model) || HasFingerprint(System(body))
  {
    hide *;
    BodyIs(body, model, modeAgain);
    if IsClaude(model) {
      var again := ClaudeSystem(System(body), modeAgain == STRICT);
      ClaudeSystemIsThere(System(body), modeAgain == STRICT);
      SystemWrittenBackIff(body, again);
      ClaudeSystemAgainIff(system, strict, modeAgain == STRICT);
    }
  }

  /** Rewriting what was rewritten changes nothing, whatever the mode, exactly when the model is not a claude
      model or the identity line came through intact. */
  lemma SecondPassChangesNothingIff(body: map<string, Json>, model: string, cloakMode: string, modeAgain: string)
    ensures var once := Normalized(body, model, cloakMode);
            Normalized(once, model, modeAgain) == once <==> !IsClaude(model) || HasFingerprint(System(once))
  {
    hide *;
    var once := Normalized(body, model, cloakMode);
    NormalizedParts(body, model, cloakMode);
    SecondPassHoistsNothing(body, model, cloakMode);
    AgainIff(once, model, modeAgain, HoistedSystem(body), cloakMode == STRICT);
  }

  /** The same, told from the original body: what makes the identity line come through. */
  lemma SecondPassIff(body: map<string, Json>, model: string, cloakMode: string, modeAgain: string)
    requires AllValid(AllText(HoistedSystem(body)))
    ensures var once, system := Normalized(body, model, cloakMode), HoistedSystem(body);
            Normalized(once, model, modeAgain) == once <==>
            !IsClaude(model) || !HasFingerprint(system) || SystemLen(system) <= SYSTEM_BYTE_LIMIT
            || cloakMode == STRICT || EndsEarly(AllText(system), SYSTEM_BYTE_LIMIT)
  {
    hide *;
    SecondPassChangesNothingIff(body, model, cloakMode, modeAgain);
    NormalizedParts(body, model, cloakMode);
    IdentityIntactIff(HoistedSystem(body), cloakMode == STRICT);
  }

  /** The body as it is written out and decoded again, as far as nil slices go. */
  function Written(body: map<string, Json>): map<string, Json> {
    map key | key in body :: if body[key] == Nil then Null else body[key]
  }

  lemma WrittenParts(body: map<string, Json>)
    requires System(body) != Nil
    ensures Messages(Written(body)) == Messages(body) && System(Written(body)) == System(body)
    ensures "top_p" in Written(body) <==> "top_p" in body
  {
  }

  /** The same for what reaches a second gateway. */
  lemma SecondGatewayChangesNothingIff(body: map<string, Json>, model: string, cloakMode: string, modeAgain: string)
    requires System(body) != Nil
    ensures var sent := Written(Normalized(body, model, cloakMode));
            Normalized(sent, model, modeAgain) == sent <==> !IsClaude(model) || HasFingerprint(System(sent))
  {
    hide *;
    var once := Normalized(body, model, cloakMode);
    NormalizedParts(body, model, cloakMode);
    SecondPassHoistsNothing(body, model, cloakMode);
    SystemIsNotNil(body, cloakMode == STRICT);
    WrittenParts(once);
    HoistsByMessages(once, Written(once));
    AgainIff(Written(once), model, modeAgain, HoistedSystem(body), cloakMode == STRICT);
  }

  lemma HoistsByMessages(a: map<string, Json>, b: map<string, Json>)
    requires Messages(a) == Messages(b)
    ensures Hoists(a) <==> Hoists(b)
  {
    hide Messages, HoistedBlocks;
  }

  lemma SystemIsNotNil(body: map<string, Json>, strict: bool)
    requires System(body) != Nil
    ensures HoistedSystem(body) != Nil && ClaudeSystem(HoistedSystem(body), strict) != Nil
  {
    hide HasFingerprint, SystemLen, Truncated, TextBlocks, TextBlock, Fingerprint, Blocks, AllText, Hoists, System;
    IdentityOf(HoistedSystem(body));
  }

  /** The messages of a decoded body are sent as null exactly when all of them were hoisted. */
  lemma NoMessagesLeftIff(body: map<string, Json>, model: string, cloakMode: string)
    requires Field(body, "messages") != Nil
    ensures Field(Normalized(body, model, cloakMode), "messages") == Nil <==>
            Hoists(body) && KeptMessages(Messages(body)) == []
  {
    hide HoistedBlocks, KeptMessages, Hoists, HoistedSystem, Messages, ClaudeSystem;
  }

  lemma NoActionsIff(body: map<string, Json>, model: string, cloakMode: string)
    ensures ActionsOf(body, model, cloakMode) == [] <==>
            !Hoists(body) && "top_p" !in body &&
            (!IsClaude(model) || (HasFingerprint(HoistedSystem(body)) &&
                                  SystemLen(HoistedSystem(body)) <= SYSTEM_BYTE_LIMIT))
    ensures !Hoists(body) ==> HoistedSystem(body) == System(body)
  {
    hide Hoists, HasFingerprint, SystemLen, Blocks, TextBlock, Fingerprint;
    IdentityOf(HoistedSystem(body));
  }

  /** No action is recorded exactly when the body is left as it was. */
  lemma NoActionsIffUnchanged(body: map<string, Json>, model: string, cloakMode: string)
    ensures ActionsOf(body, model, cloakMode) == [] <==> Normalized(body, model, cloakMode) == body
  {
    hide *;
    NoActionsIff(body, model, cloakMode);
    NormalizedParts(body, model, cloakMode);
    if Hoists(body) {
      HoistShortens(body);
    } else if "top_p" !in body {
      BodyIs(body, model, cloakMode);
      if IsClaude(model) {
        var s, strict := System(body), cloakMode == STRICT;
        ClaudeSystemIsThere(s, strict);
        SystemWrittenBackIff(body, ClaudeSystem(s, strict));
        ClaudeSystemKeepsIff(s, strict);
      }
    }
  }

  lemma HoistShortens(body: map<string, Json>)
    requires Hoists(body)
    ensures KeptMessages(Messages(body)) != Messages(body)
  {
    hide KeptMessages, HoistedBlocks, Messages;
    KeptAreNotSystem(Messages(body));
  }

  lemma ClaudeSystemKeepsIff(system: Json, strict: bool)
    ensures ClaudeSystem(system, strict) == system <==>
            HasFingerprint(system) && SystemLen(system) <= SYSTEM_BYTE_LIMIT
  {
    hide *;
    ClaudeSystemIs(system, strict);
    IdentityOf(system);
    if !HasFingerprint(system) {
      InjectedIdentityStays(system, strict);
    }
    ClaudeSystemIsShort(WithIdentity(system), strict);
    CloakedIs(WithIdentity(system), strict);
  }

  // ---- one request, all the way ----

  /** A text block as it is sent. */
  function Sent(text: Bytes): Json {
    Obj(map["type" := Str(Ascii("text")), "text" := Str(text)])
  }

  /** A user message, then a system message, below a system string, with top_p. */
  function Request(top: Bytes, question: Json, late: Bytes): map<string, Json> {
    map["system" := Str(top),
        "messages" := Arr([Obj(map["role" := Str(Ascii("user")), "content" := question]),
                           Obj(map["role" := Str(Ascii("system")), "content" := Str(late)])]),
        "top_p" := Other([])]
  }

  /** What is sent on for it. */
  function SentOn(question: Json, system: seq<Json>): map<string, Json> {
    map["system" := Arr(system),
        "messages" := Arr([Obj(map["role" := Str(Ascii("user")), "content" := question])])]
  }

  lemma RequestHoists(top: Bytes, question: Json, late: Bytes)
    ensures var body := Request(top, question, late);
            && Hoists(body) && HoistedSystem(body) == Arr([Sent(top), Sent(late)]) && "top_p" in body
            && Hoisted(body) - {"top_p"} == SentOn(question, [Sent(top), Sent(late)])
  {
    var body := Request(top, question, late);
    var msgs := Messages(body);
    assert Ascii("user") != Ascii("system");
    PartitionOfTwo(msgs[0], msgs[1]);
    assert msgs == [msgs[0], msgs[1]];
    hide KeptMessages, HoistedBlocks, Ascii;
    assert KeptMessages(msgs) == [msgs[0]] && HoistedBlocks(msgs) == [Sent(late)];
  }

  lemma PartitionOfTwo(a: Json, b: Json)
    requires !IsSystem(a) && IsSystem(b)
    ensures KeptMessages([a, b]) == [a] && HoistedBlocks([a, b]) == Blocks(ContentOf(b))
  {
    hide *;
    PartitionConcat([a], [b]);
    assert [a] + [b] == [a, b];
    PartitionOfOne(a);
    PartitionOfOne(b);
  }

  function IdentityLine(): Bytes { Ascii("You are a Claude agent, built on Anthropic's Claude Agent SDK.") }

  /** The system prompt of a claude request, from the texts of a top-level and a late system prompt without the
      identity line. */
  lemma TwoTextsBecome(top: Bytes, late: Bytes, strict: bool)
    requires !Contains(top, IdentityLine()) && !Contains(late, IdentityLine())
    ensures var system := Arr([Sent(top), Sent(late)]);
            && !HasFingerprint(system)
            && SystemLen(WithIdentity(system)) == 62 + |top| + |late|
            && ClaudeSystem(system, strict) ==
               if 62 + |top| + |late| <= 200 then Arr([Sent(IdentityLine()), Sent(top), Sent(late)])
               else if strict then Arr([Sent(IdentityLine())])
               else Arr([Sent(IdentityLine())] + TextBlocks(Truncated([top, late], 138)))
  {
    hide *;
    var f, system := Fingerprint(), Arr([Sent(top), Sent(late)]);
    LineIs(top);
    LineIs(late);
    SentIsBlock(f, top, late);
    OfTextBlocks([top, late]);
    OfTextBlocks([f, top, late]);
    NeitherHolds(top, late);
    TotalOfThree(f, top, late);
    IdentityOf(system);
    TextBlocksKept(system, top, late);
    ClaudeSystemIs(system, strict);
    CloakedIs(WithIdentity(system), strict);
    LimitIs();
    TruncatedIs([f, top, late], 200);
    KeptWhole(f, 200);
    assert [f, top, late][1..] == [top, late];
    TextBlocksCons(f, Truncated([top, late], 138));
  }

  lemma LineIs(text: Bytes)
    ensures IdentityLine() == Fingerprint() != [] && |Fingerprint()| == 62
    ensures Holds(text) <==> Contains(text, IdentityLine())
  {
    hide Contains;
  }

  lemma SentIsBlock(f: Bytes, top: Bytes, late: Bytes)
    ensures [Sent(top), Sent(late)] == TextBlocks([top, late])
    ensures [Sent(f), Sent(top), Sent(late)] == TextBlocks([f, top, late])
    ensures [Sent(f)] == TextBlocks([f]) && [TextBlock(f)] == [Sent(f)]
  {
    hide Ascii;
  }

  lemma NeitherHolds(top: Bytes, late: Bytes)
    requires !Holds(top) && !Holds(late)
    ensures !AnyHolds([top, late])
  {
    hide Holds;
  }

  lemma TotalOfThree(f: Bytes, top: Bytes, late: Bytes)
    ensures Total([f, top, late]) == |f| + |top| + |late|
  {
    hide *;
    assert [f, top, late][1..] == [top, late] && [top, late][1..] == [late];
    SumStep([f, top, late]);
    SumStep([top, late]);
    SumOfOne(late);
  }

  lemma TextBlocksKept(system: Json, top: Bytes, late: Bytes)
    requires system == Arr(TextBlocks([top, late]))
    ensures Blocks(system) == TextBlocks([top, late])
    ensures [TextBlock(Fingerprint())] + TextBlocks([top, late]) == TextBlocks([Fingerprint(), top, late])
  {
    hide Fingerprint, TextBlock, AsBlock;
    TextBlockText(top);
    TextBlockText(late);
  }

  lemma TextBlocksCons(f: Bytes, rest: seq<Bytes>)
    ensures TextBlocks([f] + rest) == [Sent(f)] + TextBlocks(rest)
  {
    hide Ascii;
  }

  /** The request is rewritten like this, whatever its texts are, with an identity line in neither of them: only models
      named claude... get one, and are measured. */
  lemma RequestIsRewritten(top: Bytes, question: Json, late: Bytes, model: string, cloakMode: string)
    requires !Contains(top, IdentityLine()) && !Contains(late, IdentityLine())
    ensures var body := Request(top, question, late);
            var out, actions := Normalized(body, model, cloakMode), ActionsOf(body, model, cloakMode);
            if !("claude" <= model) then
              && out == SentOn(question, [Sent(top), Sent(late)]) && actions == ["hoist_system", "strip_top_p"]
            else if 62 + |top| + |late| <= 200 then
              && out == SentOn(question, [Sent(IdentityLine()), Sent(top), Sent(late)])
              && actions == ["hoist_system", "strip_top_p", "inject_fingerprint"]
            else if cloakMode == "strict" then
              && out == SentOn(question, [Sent(IdentityLine())])
              && actions == ["hoist_system", "strip_top_p", "inject_fingerprint", "cloak_strict"]
            else
              && out == SentOn(question, [Sent(IdentityLine())] + TextBlocks(Truncated([top, late], 138)))
              && actions == ["hoist_system", "strip_top_p", "inject_fingerprint", "cloak_truncate"]
  {
    hide *;
    var body, strict := Request(top, question, late), cloakMode == "strict";
    RequestHoists(top, question, late);
    TwoTextsBecome(top, late, strict);
    RewrittenBy(body, Arr([Sent(top), Sent(late)]), model, cloakMode);
    if "claude" <= model {
      match ClaudeSystem(Arr([Sent(top), Sent(late)]), strict) {
        case Arr(items) => SentOnWith(question, [Sent(top), Sent(late)], items);
        case _ =>
      }
    }
  }

  lemma SentOnWith(question: Json, before: seq<Json>, after: seq<Json>)
    ensures SentOn(question, before)["system" := Arr(after)] == SentOn(question, after)
    ensures System(SentOn(question, before)) == Arr(before)
  {
    hide Ascii;
  }

  /** The body and the actions of a request that is hoisted and had a top_p. */
  lemma RewrittenBy(body: map<string, Json>, system: Json, model: string, cloakMode: string)
    requires Hoists(body) && HoistedSystem(body) == system && "top_p" in body && !HasFingerprint(system)
    ensures var h := Hoisted(body) - {"top_p"};
            var strict := cloakMode == "strict";
            var cut := SystemLen(WithIdentity(system)) > 200;
            && Normalized(body, model, cloakMode) ==
               (if "claude" <= model then h["system" := ClaudeSystem(system, strict)] else h)
            && ActionsOf(body, model, cloakMode) ==
               if !("claude" <= model) then ["hoist_system", "strip_top_p"]
               else if !cut then ["hoist_system", "strip_top_p", "inject_fingerprint"]
               else if strict then ["hoist_system", "strip_top_p", "inject_fingerprint", "cloak_strict"]
               else ["hoist_system", "strip_top_p", "inject_fingerprint", "cloak_truncate"]
  {
    AfterHoist(body, model, cloakMode);
    hide Hoists, HoistedSystem, HasFingerprint, SystemLen, WithIdentity, Cloaked;
  }
}
