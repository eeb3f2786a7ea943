/** UTF-8 by its encoder, section 3 of RFC 3629: what Utf8 takes for a character is the encoding of a scalar value,
    and a valid text is the concatenation of such encodings. */
module Utf8Encoding {
  import opened Text
  import opened Utf8
  import opened Truncation

  /** A code point that is no surrogate. */
  type Scalar = c: int | 0 <= c < 0xD800 || 0xE000 <= c <= 0x10FFFF

  /** A byte with the lowest six bits of `c`. */
  function Tail(c: nat): (b: byte)
    ensures IsTail(b) && b as int == 0x80 + c % 64
  {
    (0x80 + c % 64) as byte
  }

  function Encode(c: Scalar): (r: Bytes)
    ensures 0 < |r| <= 4
  {
    if c < 0x80 then [c as byte]
    else if c < 0x800 then [(0xC0 + c / 64) as byte, Tail(c)]
    else if c < 0x10000 then [(0xE0 + c / 4096) as byte, Tail(c / 64), Tail(c)]
    else [(0xF0 + c / 262144) as byte, Tail(c / 4096), Tail(c / 64), Tail(c)]
  }

  function EncodeAll(cs: seq<Scalar>): Bytes {
    if cs == [] then [] else Encode(cs[0]) + EncodeAll(cs[1..])
  }

  /** What follows a character does not change it. */
  lemma CharLenOfEncoded(c: Scalar, rest: Bytes)
    ensures CharLen(Encode(c) + rest) == |Encode(c)|
  {
    EncodedIsCharacter(c);
    CharLenOfMore(Encode(c), rest);
  }

  lemma EncodedIsCharacter(c: Scalar)
    ensures CharLen(Encode(c)) == |Encode(c)|
  {
  }

  /** The six bits of a continuation byte. */
  function Bits(b: byte): (n: nat)
    ensures n < 64 && (IsTail(b) ==> b as int == 0x80 + n)
  {
    b as int % 64
  }

  lemma Digits(a: nat, n: nat)
    requires n < 64
    ensures (a * 64 + n) / 64 == a && (a * 64 + n) % 64 == n
  {
  }

  lemma TailOf(a: nat, b: byte)
    requires IsTail(b)
    ensures Tail(a * 64 + Bits(b)) == b && (a * 64 + Bits(b)) / 64 == a
  {
    Digits(a, Bits(b));
  }

  lemma Encode2(x: nat, b: byte)
    requires 2 <= x < 32 && IsTail(b)
    ensures var c := x * 64 + Bits(b);
            0x80 <= c < 0x800 && Encode(c) == [(0xC0 + x) as byte, b]
  {
    TailOf(x, b);
    hide Tail, Bits;
  }

  lemma Encode3(x: nat, b: byte, d: byte)
    requires x < 16 && IsSecond((0xE0 + x) as byte, b) && IsTail(d)
    ensures var c := (x * 64 + Bits(b)) * 64 + Bits(d);
            && (0x800 <= c < 0xD800 || 0xE000 <= c < 0x10000)
            && Encode(c) == [(0xE0 + x) as byte, b, d]
  {
    TailOf(x, b);
    TailOf(x * 64 + Bits(b), d);
    hide Tail, Bits;
    assert ((x * 64 + Bits(b)) * 64 + Bits(d)) / 4096 == x;
  }

  lemma Encode4(x: nat, b: byte, d: byte, e: byte)
    requires x < 5 && IsSecond((0xF0 + x) as byte, b) && IsTail(d) && IsTail(e)
    ensures var c := ((x * 64 + Bits(b)) * 64 + Bits(d)) * 64 + Bits(e);
            0x10000 <= c <= 0x10FFFF && Encode(c) == [(0xF0 + x) as byte, b, d, e]
  {
    TailOf(x, b);
    TailOf(x * 64 + Bits(b), d);
    TailOf((x * 64 + Bits(b)) * 64 + Bits(d), e);
    hide Tail, Bits;
    var c := ((x * 64 + Bits(b)) * 64 + Bits(d)) * 64 + Bits(e);
    assert c / 4096 == x * 64 + Bits(b) && c / 262144 == x;
  }

  /** Every character is the encoding of a scalar value. */
  lemma CharacterIsEncoded(s: Bytes) returns (c: Scalar)
    requires CharLen(s) > 0
    ensures Encode(c) == s[..CharLen(s)]
  {
    var b := s[0] as int;
    match CharLen(s)
    case 1 =>
      c := b;
    case 2 =>
      Encode2(b - 0xC0, s[1]);
      c := (b - 0xC0) * 64 + Bits(s[1]);
    case 3 =>
      Encode3(b - 0xE0, s[1], s[2]);
      c := ((b - 0xE0) * 64 + Bits(s[1])) * 64 + Bits(s[2]);
    case _ =>
      Encode4(b - 0xF0, s[1], s[2], s[3]);
      c := (((b - 0xF0) * 64 + Bits(s[1])) * 64 + Bits(s[2])) * 64 + Bits(s[3]);
  }

  /** utf8.ValidString accepts exactly the concatenations of encoded scalar values. */
  lemma {:induction false} ValidIffEncoded(s: Bytes)
    ensures Valid(s) <==> exists cs :: EncodeAll(cs) == s
  {
    if Valid(s) {
      var cs := Decoded(s);
    }
    if cs :| EncodeAll(cs) == s {
      EncodedIsValid(cs);
    }
  }

  lemma {:induction false} EncodedIsValid(cs: seq<Scalar>)
    ensures Valid(EncodeAll(cs))
  {
    if cs != [] {
      EncodedIsValid(cs[1..]);
      CharLenOfEncoded(cs[0], EncodeAll(cs[1..]));
    }
  }

  lemma {:induction false} Decoded(s: Bytes) returns (cs: seq<Scalar>)
    requires Valid(s)
    ensures EncodeAll(cs) == s
  {
    if s == [] {
      cs := [];
    } else {
      hide Encode;
      var n := CharLen(s);
      var c := CharacterIsEncoded(s);
      var rest := Decoded(s[n..]);
      cs := [c] + rest;
    }
  }

  /** The boundaries of an encoded text lie between its characters. */
  lemma {:induction false} ValidPrefixIsEncoded(cs: seq<Scalar>, k: nat) returns (n: nat)
    requires k <= |EncodeAll(cs)| && Valid(EncodeAll(cs)[..k])
    ensures n <= |cs| && EncodeAll(cs)[..k] == EncodeAll(cs[..n])
  {
    hide Encode;
    var s := EncodeAll(cs);
    if k == 0 {
      n := 0;
    } else {
      var m := |Encode(cs[0])|;
      CharLenOfEncoded(cs[0], EncodeAll(cs[1..]));
      ValidTake(s, k);
      var rest := ValidPrefixIsEncoded(cs[1..], k - m);
      n := rest + 1;
      assert cs[..n][1..] == cs[1..][..rest];
    }
  }

  lemma {:induction false} LongerIsLonger(cs: seq<Scalar>, n: nat)
    requires n <= |cs|
    ensures EncodeAll(cs[..n]) <= EncodeAll(cs)
  {
    hide Encode;
    if n > 0 {
      LongerIsLonger(cs[1..], n - 1);
      assert cs[..n][1..] == cs[1..][..n - 1];
    }
  }

  /** What is kept of a text is its first characters, and as many of them as fit. */
  lemma KeptIsWholeCharacters(cs: seq<Scalar>, room: nat) returns (n: nat)
    ensures n <= |cs| && Kept(EncodeAll(cs), room) == EncodeAll(cs[..n]) && |EncodeAll(cs[..n])| <= room
    ensures n < |cs| ==> room < |EncodeAll(cs[..n + 1])|
  {
    var s := EncodeAll(cs);
    EncodedIsValid(cs);
    KeptIsValid(s, room);
    var kept := Kept(s, room);
    assert s[..|kept|] == kept;
    n := ValidPrefixIsEncoded(cs, |kept|);
    if n < |cs| {
      var more := EncodeAll(cs[..n + 1]);
      LongerIsLonger(cs, n + 1);
      EncodedIsValid(cs[..n + 1]);
      assert s[..|more|] == more;
      OneMoreCharacter(cs[..n + 1]);
      assert cs[..n + 1][..n] == cs[..n];
      if |more| <= room {
        KeptIsLongest(s, room, |more|);
      }
    }
  }

  lemma {:induction false} OneMoreCharacter(cs: seq<Scalar>)
    requires cs != []
    ensures |EncodeAll(cs[..|cs| - 1])| < |EncodeAll(cs)|
  {
    hide Encode;
    if |cs| > 1 {
      OneMoreCharacter(cs[1..]);
      assert cs[..|cs| - 1][1..] == cs[1..][..|cs| - 2];
    }
  }

  // ---- a system prompt of characters ----

  function Encoded(css: seq<seq<Scalar>>): seq<Bytes> {
    seq(|css|, i requires 0 <= i < |css| => EncodeAll(css[i]))
  }

  /** `t` is the first characters of one of the texts. */
  ghost predicate Begins(t: Bytes, css: seq<seq<Scalar>>) {
    exists i: nat, n: nat | i < |css| && n <= |css[i]| :: t == EncodeAll(css[i][..n])
  }

  lemma BeginsLater(t: Bytes, css: seq<seq<Scalar>>)
    requires css != [] && Begins(t, css[1..])
    ensures Begins(t, css)
  {
    var i: nat, n: nat :| i < |css| - 1 && n <= |css[1..][i]| && t == EncodeAll(css[1..][i][..n]);
    assert css[i + 1] == css[1..][i];
  }

  lemma BeginsFirst(css: seq<seq<Scalar>>, n: nat)
    requires css != [] && n <= |css[0]|
    ensures Begins(EncodeAll(css[0][..n]), css)
  {
  }

  /** Cutting a prompt to a number of bytes cuts its texts to whole characters. */
  lemma {:induction false} CutToCharacters(css: seq<seq<Scalar>>, room: nat)
    ensures forall t | t in Truncated(Encoded(css), room) :: Begins(t, css)
  {
    var texts := Encoded(css);
    hide *;
    if css == [] {
      NoneEncoded();
      NoTexts(room);
    } else {
      EncodedStep(css);
      TruncatedIs(texts, room);
      var n := KeptIsWholeCharacters(css[0], room);
      BeginsFirst(css, n);
      var left := room - |Kept(texts[0], room)|;
      CutToCharacters(css[1..], left);
      forall t | t in Truncated(texts[1..], left) ensures Begins(t, css) {
        BeginsLater(t, css);
      }
    }
  }

  lemma NoneEncoded()
    ensures Encoded([]) == []
  {
  }

  lemma EncodedStep(css: seq<seq<Scalar>>)
    requires css != []
    ensures Encoded(css) != [] && Encoded(css)[0] == EncodeAll(css[0]) && Encoded(css)[1..] == Encoded(css[1..])
  {
    hide EncodeAll;
  }

  lemma {:induction false} SameSize(c: Scalar, n: nat)
    ensures |EncodeAll(seq(n, _ => c))| == n * |Encode(c)|
  {
    hide Encode;
    if n > 0 {
      assert seq(n, _ => c)[1..] == seq(n - 1, _ => c);
      SameSize(c, n - 1);
    }
  }

  /** Of one character over and over as many are kept as their bytes fit. */
  lemma KeptOfSame(c: Scalar, count: nat, room: nat)
    ensures var fit := room / |Encode(c)|;
            var n := if fit < count then fit else count;
            Kept(EncodeAll(seq(count, _ => c)), room) == EncodeAll(seq(n, _ => c))
  {
    hide *;
    var cs := seq(count, _ => c);
    var n := KeptIsWholeCharacters(cs, room);
    assert cs[..n] == seq(n, _ => c);
    SameSize(c, n);
    if n < count {
      assert cs[..n + 1] == seq(n + 1, _ => c);
      SameSize(c, n + 1);
    }
    Quotient(n, |Encode(c)|, room);
  }

  lemma Quotient(n: nat, size: nat, room: nat)
    requires size > 0 && n * size <= room
    ensures n <= room / size && (room < (n + 1) * size ==> n == room / size)
  {
    var q := room / size;
    assert q * size <= room < (q + 1) * size by {
      assert room == q * size + room % size;
    }
    Grows(q + 1, n, size);
    Grows(n + 1, q, size);
  }

  lemma Grows(a: nat, b: nat, size: nat)
    ensures a <= b ==> a * size <= b * size
  {
  }

  /** In the 138 bytes beside the identity line, 46 of fifty Chinese characters are kept. */
  lemma FiftyChineseCharacters()
    ensures Encode(0x4E2D) == [0xE4, 0xB8, 0xAD]
    ensures Kept(EncodeAll(seq(50, _ => 0x4E2D)), 138) == EncodeAll(seq(46, _ => 0x4E2D))
  {
    KeptOfSame(0x4E2D, 50, 138);
  }
}
