/** truncateSystemBlocks of internal/gateway/normalize.go on the texts of the blocks: a byte budget is
    given out from the front, and every text is cut at a character boundary. */
module Truncation {
  import opened Text
  import opened Utf8

  /** One text within `room`; the rest within what it leaves. Texts cut to nothing are dropped. */
  function Truncated(texts: seq<Bytes>, room: nat): seq<Bytes> {
    if texts == [] then []
    else
      var t := Kept(texts[0], room);
      (if t == [] then [] else [t]) + Truncated(texts[1..], room - |t|)
  }

  function Total(texts: seq<Bytes>): nat {
    if texts == [] then 0 else |texts[0]| + Total(texts[1..])
  }

  function Flat(texts: seq<Bytes>): Bytes {
    if texts == [] then [] else texts[0] + Flat(texts[1..])
  }

  predicate AllValid(texts: seq<Bytes>) {
    forall i | 0 <= i < |texts| :: Valid(texts[i])
  }

  /** Nonempty valid texts. */
  predicate Proper(texts: seq<Bytes>) {
    forall i | 0 <= i < |texts| :: Valid(texts[i]) && texts[i] != []
  }

  /** Every text starts with a character of more than `room` bytes, or is empty. */
  predicate StartWide(texts: seq<Bytes>, room: nat) {
    forall i | 0 <= i < |texts| :: texts[i] == [] || room < CharLen(texts[i])
  }

  /** How many texts fit before the first one that does not. */
  function Whole(texts: seq<Bytes>, room: nat): (k: nat)
    ensures k <= |texts| && Total(texts[..k]) <= room
    ensures k < |texts| ==> Total(texts[..k]) + |texts[k]| > room
    ensures k == |texts| <==> Total(texts) <= room
  {
    if texts == [] || |texts[0]| > room then 0
    else
      var k := Whole(texts[1..], room - |texts[0]|);
      assert texts[..k + 1][1..] == texts[1..][..k];
      k + 1
  }

  /** The bytes left when the first text that does not fit has been cut. */
  function Leftover(texts: seq<Bytes>, room: nat): (r: nat)
    requires Total(texts) > room
  {
    var k := Whole(texts, room);
    var left := room - Total(texts[..k]);
    left - |Kept(texts[k], left)|
  }

  // ---- one step of each definition ----

  lemma NoTexts(room: nat)
    ensures Truncated([], room) == [] && Total([]) == 0 && Flat([]) == [] && Proper([]) && StartWide([], room)
  {
  }

  lemma SumStep(texts: seq<Bytes>)
    requires texts != []
    ensures Total(texts) == |texts[0]| + Total(texts[1..])
    ensures Flat(texts) == texts[0] + Flat(texts[1..])
  {
  }

  lemma AllValidAt(texts: seq<Bytes>, k: nat)
    requires AllValid(texts) && k < |texts|
    ensures Valid(texts[k]) && AllValid(texts[k + 1..])
  {
    hide Valid;
  }

  lemma ProperCons(t: Bytes, rest: seq<Bytes>)
    requires Valid(t) && t != [] && Proper(rest)
    ensures Proper([t] + rest)
  {
    hide Valid;
  }

  lemma ProperAreValid(texts: seq<Bytes>)
    requires Proper(texts)
    ensures AllValid(texts)
  {
    hide Valid;
  }

  lemma StartWideStep(texts: seq<Bytes>, room: nat)
    requires texts != []
    ensures StartWide(texts, room) <==> (texts[0] == [] || room < CharLen(texts[0])) && StartWide(texts[1..], room)
  {
    hide CharLen;
    if StartWide(texts[1..], room) {
      assert forall i | 1 <= i < |texts| :: texts[i] == texts[1..][i - 1];
    }
  }

  lemma {:induction false} TotalConcat(a: seq<Bytes>, b: seq<Bytes>)
    ensures Total(a + b) == Total(a) + Total(b)
    ensures Flat(a + b) == Flat(a) + Flat(b)
  {
    if a == [] {
      assert a + b == b;
    } else {
      assert (a + b)[1..] == a[1..] + b;
      TotalConcat(a[1..], b);
    }
  }

  lemma {:induction false} FlatLength(a: seq<Bytes>)
    ensures |Flat(a)| == Total(a)
  {
    if a != [] {
      FlatLength(a[1..]);
    }
  }

  lemma {:induction false} FlatIsValid(texts: seq<Bytes>)
    requires AllValid(texts)
    ensures Valid(Flat(texts))
  {
    if texts != [] {
      FlatIsValid(texts[1..]);
      ValidConcat(texts[0], Flat(texts[1..]));
    }
  }

  lemma FlatAround(texts: seq<Bytes>, k: nat)
    requires k < |texts|
    ensures Flat(texts) == Flat(texts[..k]) + (texts[k] + Flat(texts[k + 1..]))
  {
    hide *;
    assert texts == texts[..k] + texts[k..];
    TotalConcat(texts[..k], texts[k..]);
    SumStep(texts[k..]);
    assert texts[k..][0] == texts[k] && texts[k..][1..] == texts[k + 1..];
  }

  lemma TruncatedIs(texts: seq<Bytes>, room: nat)
    requires texts != []
    ensures Truncated(texts, room) ==
            (if Kept(texts[0], room) == [] then [] else [Kept(texts[0], room)])
            + Truncated(texts[1..], room - |Kept(texts[0], room)|)
  {
  }

  lemma TruncatedStep(texts: seq<Bytes>, room: nat)
    requires texts != []
    ensures Total(Truncated(texts, room)) ==
            |Kept(texts[0], room)| + Total(Truncated(texts[1..], room - |Kept(texts[0], room)|))
    ensures Flat(Truncated(texts, room)) ==
            Kept(texts[0], room) + Flat(Truncated(texts[1..], room - |Kept(texts[0], room)|))
  {
    hide *;
    var t := Kept(texts[0], room);
    var head: seq<Bytes> := if t == [] then [] else [t];
    TruncatedIs(texts, room);
    TotalConcat(head, Truncated(texts[1..], room - |t|));
    NoTexts(room);
    SumOfOne(t);
  }

  lemma SumOfOne(t: Bytes)
    ensures Total([t]) == |t| && Flat([t]) == t
  {
  }

  lemma {:induction false} TruncatedNothing(texts: seq<Bytes>)
    ensures Truncated(texts, 0) == []
  {
    if texts != [] {
      TruncatedNothing(texts[1..]);
    }
  }

  // ---- the budget ----

  /** The budget is kept; texts that fit are kept whole; and at most three bytes of the budget are wasted
      when there is text to fill it. */
  lemma {:induction false} BudgetIsUsed(texts: seq<Bytes>, room: nat)
    ensures Total(Truncated(texts, room)) <= room
    ensures Total(texts) <= room ==> Flat(Truncated(texts, room)) == Flat(texts)
    ensures AllValid(texts) && Total(texts) > room ==> room <= Total(Truncated(texts, room)) + 3
  {
    hide *;
    if texts == [] {
      NoTexts(room);
    } else {
      var t := Kept(texts[0], room);
      TruncatedStep(texts, room);
      SumStep(texts);
      if |texts[0]| <= room {
        KeptWhole(texts[0], room);
      }
      if AllValid(texts) {
        AllValidAt(texts, 0);
        if |texts[0]| > room {
          KeptWastesLittle(texts[0], room);
        }
      }
      BudgetIsUsed(texts[1..], room - |t|);
    }
  }

  /** Every output is a nonempty valid text. */
  lemma {:induction false} OutputsAreProper(texts: seq<Bytes>, room: nat)
    requires AllValid(texts)
    ensures Proper(Truncated(texts, room))
  {
    hide *;
    if texts == [] {
      NoTexts(room);
    } else {
      var t := Kept(texts[0], room);
      var rest := Truncated(texts[1..], room - |t|);
      AllValidAt(texts, 0);
      KeptIsValid(texts[0], room);
      OutputsAreProper(texts[1..], room - |t|);
      TruncatedIs(texts, room);
      if t == [] {
        assert Truncated(texts, room) == rest;
      } else {
        ProperCons(t, rest);
      }
    }
  }

  /** The texts before the first one that does not fit are kept whole, and the budget goes on from there. */
  lemma {:induction false} FittingTextsStayWhole(before: seq<Bytes>, rest: seq<Bytes>, room: nat)
    requires Total(before) <= room
    ensures Flat(Truncated(before + rest, room)) == Flat(before) + Flat(Truncated(rest, room - Total(before)))
  {
    hide *;
    if before == [] {
      assert before + rest == rest;
      NoTexts(room);
    } else {
      var all, t, left := before + rest, before[0], room - Total(before);
      assert all[0] == t && all[1..] == before[1..] + rest;
      SumStep(before);
      KeptWhole(t, room);
      TruncatedStep(all, room);
      FittingTextsStayWhole(before[1..], rest, room - |t|);
      Regroup(t, Flat(before[1..]), Flat(Truncated(rest, left)), Flat(before), Flat(Truncated(all[1..], room - |t|)));
    }
  }

  lemma Regroup(a: Bytes, b: Bytes, c: Bytes, ab: Bytes, bc: Bytes)
    requires ab == a + b && bc == b + c
    ensures a + bc == ab + c
  {
  }

  lemma {:induction false} NothingFitsIff(texts: seq<Bytes>, room: nat)
    requires AllValid(texts)
    ensures Flat(Truncated(texts, room)) == [] <==> StartWide(texts, room)
  {
    hide *;
    if texts == [] {
      NoTexts(room);
    } else {
      AllValidAt(texts, 0);
      KeptNothingIff(texts[0], room);
      StartWideStep(texts, room);
      TruncatedStep(texts, room);
      if Kept(texts[0], room) == [] {
        NothingFitsIff(texts[1..], room);
      }
    }
  }

  /** What the code outputs: the texts that fit, the cut one, and later texts in the few bytes left over. */
  lemma CutOnce(texts: seq<Bytes>, room: nat)
    requires Total(texts) > room
    ensures var k := Whole(texts, room);
            Flat(Truncated(texts, room)) ==
            Flat(texts[..k]) + (Kept(texts[k], room - Total(texts[..k]))
                                + Flat(Truncated(texts[k + 1..], Leftover(texts, room))))
  {
    hide *;
    var k := Whole(texts, room);
    assert texts == texts[..k] + texts[k..];
    FittingTextsStayWhole(texts[..k], texts[k..], room);
    TruncatedStep(texts[k..], room - Total(texts[..k]));
    assert texts[k..][0] == texts[k] && texts[k..][1..] == texts[k + 1..];
    LeftoverIs(texts, room);
  }

  lemma LeftoverIs(texts: seq<Bytes>, room: nat)
    requires Total(texts) > room
    ensures var left := room - Total(texts[..Whole(texts, room)]);
            Leftover(texts, room) == left - |Kept(texts[Whole(texts, room)], left)|
  {
  }

  // ---- when the output is a prefix of the input ----

  /** The character after the cut is too wide for the bytes left over. */
  lemma NextIsWide(c: Bytes, room: nat)
    requires Valid(c) && room < |c|
    ensures var k := |Kept(c, room)|; room - k < CharLen(c[k..])
  {
    hide *;
    var kept := Kept(c, room);
    var rest := c[|kept|..];
    KeptIsValid(c, room);
    assert c == kept + rest;
    ValidConcat(kept, rest);
    if |kept| + CharLen(rest) <= room {
      ValidStep(rest);
      LongerIsValid(c, |kept|);
      KeptIsLongest(c, room, |kept| + CharLen(rest));
    }
  }

  lemma PrefixCancel(a: Bytes, b: Bytes, t: Bytes, w: Bytes)
    ensures a + (b + t) <= a + (b + w) <==> t <= w
  {
    var n := |a| + |b|;
    assert (a + (b + w))[n..] == w && (a + (b + t))[n..] == t;
    if a + (b + t) <= a + (b + w) {
      forall i | 0 <= i < |t| ensures t[i] == w[i] {
        assert (a + (b + t))[n + i] == (a + (b + w))[n + i];
      }
    }
  }

  lemma PrefixAround(a: Bytes, c: Bytes, kept: Bytes, t: Bytes, w: Bytes)
    requires kept <= c
    ensures a + (kept + t) <= a + (c + w) <==> t <= c[|kept|..] + w
  {
    var next := c[|kept|..];
    assert c == kept + next;
    ConcatIsAssociative(kept, next, w);
    PrefixCancel(a, kept, t, next + w);
  }

  lemma TailIsShort(rest: seq<Bytes>, room: nat)
    requires AllValid(rest)
    ensures var tail := Flat(Truncated(rest, room)); |tail| <= room && Valid(tail)
  {
    hide *;
    OutputsAreProper(rest, room);
    ProperAreValid(Truncated(rest, room));
    FlatIsValid(Truncated(rest, room));
    BudgetIsUsed(rest, room);
    FlatLength(Truncated(rest, room));
  }

  /** What fits of the rest continues `next` only if nothing does. */
  lemma TailFollowsIff(rest: seq<Bytes>, room: nat, next: Bytes)
    requires AllValid(rest) && room < CharLen(next)
    ensures Flat(Truncated(rest, room)) <= next + Flat(rest) <==> StartWide(rest, room)
  {
    hide *;
    var tail := Flat(Truncated(rest, room));
    NothingFitsIff(rest, room);
    if tail != [] && tail <= next + Flat(rest) {
      TailIsShort(rest, room);
      CharLenOfMore(next, Flat(rest));
      PrefixStartsAlike(tail, next + Flat(rest));
    }
  }

  lemma CutOutputIsPrefixIff(texts: seq<Bytes>, room: nat)
    requires AllValid(texts) && Total(texts) > room
    ensures Flat(Truncated(texts, room)) <= Flat(texts) <==>
            StartWide(texts[Whole(texts, room) + 1..], Leftover(texts, room))
  {
    hide *;
    var k := Whole(texts, room);
    var c, rest, over, left := texts[k], texts[k + 1..], Leftover(texts, room), room - Total(texts[..k]);
    var kept := Kept(c, left);
    AllValidAt(texts, k);
    CutOnce(texts, room);
    FlatAround(texts, k);
    LeftoverIs(texts, room);
    NextIsWide(c, left);
    PrefixAround(Flat(texts[..k]), c, kept, Flat(Truncated(rest, over)), Flat(rest));
    TailFollowsIff(rest, over, c[|kept|..]);
  }

  /** The output is a prefix of all the text exactly when everything fits or, after the first text that does
      not, none starts with a character that fits in the one to three bytes left over. */
  lemma OutputIsPrefixIff(texts: seq<Bytes>, room: nat)
    requires AllValid(texts)
    ensures Flat(Truncated(texts, room)) <= Flat(texts) <==>
            Total(texts) <= room || StartWide(texts[Whole(texts, room) + 1..], Leftover(texts, room))
  {
    hide *;
    if Total(texts) <= room {
      BudgetIsUsed(texts, room);
    } else {
      CutOutputIsPrefixIff(texts, room);
    }
  }

  /** "é" */
  const E_ACUTE: Bytes := [0xC3, 0xA9]
  const X: Bytes := [0x78]

  /** 199 ASCII bytes with "é" behind them, and then "x", in the 200 bytes that are asked for: "é" is cut off and
      "x" takes the byte left over. */
  lemma CutSkipsACharacter(pad: Bytes)
    requires IsAscii(pad) && |pad| == 199
    ensures AllValid([pad + E_ACUTE, X])
    ensures var texts := [pad + E_ACUTE, X];
            && Truncated(texts, 200) == [pad, X] && Flat(texts) == pad + E_ACUTE + X
            && !(Flat(Truncated(texts, 200)) <= Flat(texts))
  {
    hide *;
    AccentBytes();
    var c := pad + E_ACUTE;
    var texts := [c, X];
    CutAccent(pad);
    assert texts[1..] == [X];
    TruncatedIs(texts, 200);
    TruncatedIs([X], 1);
    assert [X][1..] == [];
    KeptWhole(X, 1);
    NoTexts(0);
    SumStep(texts);
    SumOfOne(X);
    assert [pad] + [X] == [pad, X] && [pad, X][1..] == [X];
    SumStep([pad, X]);
    assert (pad + X)[199] == 0x78 && (pad + E_ACUTE + X)[199] == 0xC3;
    AsciiIsValid(pad);
    ValidConcat(pad, E_ACUTE);
    TwoAreValid(c, X);
  }

  lemma AccentBytes()
    ensures |E_ACUTE| == 2 && E_ACUTE[0] == 0xC3 && X == [0x78] && Valid(E_ACUTE) && Valid(X) && !Valid([0xC3])
  {
    assert E_ACUTE[2..] == [] && X[1..] == [];
  }

  lemma TwoAreValid(a: Bytes, b: Bytes)
    requires Valid(a) && Valid(b)
    ensures AllValid([a, b])
  {
    hide Valid;
  }

  lemma CutAccent(pad: Bytes)
    requires IsAscii(pad) && |pad| == 199
    ensures Kept(pad + E_ACUTE, 200) == pad
  {
    hide *;
    AccentBytes();
    var c := pad + E_ACUTE;
    AsciiIsValid(pad);
    ValidConcat(pad, E_ACUTE);
    assert c[..199] == pad;
    KeptIsLongest(c, 200, 199);
    var k := Kept(c, 200);
    if |k| == 200 {
      assert k == pad + [0xC3];
      ValidConcat(pad, [0xC3]);
    }
  }
}
