/** UTF-8 as in section 4 of RFC 3629, and cutting a text at a character boundary. */
module Utf8 {
  import opened Text

  newtype byte = b: int | 0 <= b < 256

  type Bytes = seq<byte>

  /** Length of a character by its first byte; 0 for a byte no character starts with. */
  function LeadLen(b: byte): (n: nat)
    ensures n <= 4
  {
    if b <= 0x7F then 1
    else if 0xC2 <= b <= 0xDF then 2
    else if 0xE0 <= b <= 0xEF then 3
    else if 0xF0 <= b <= 0xF4 then 4
    else 0
  }

  predicate IsTail(b: byte) { 0x80 <= b <= 0xBF }

  /** The second byte: no overlong forms, no surrogates, nothing above U+10FFFF. */
  predicate IsSecond(lead: byte, b: byte) {
    && IsTail(b)
    && (lead == 0xE0 ==> 0xA0 <= b)
    && (lead == 0xED ==> b <= 0x9F)
    && (lead == 0xF0 ==> 0x90 <= b)
    && (lead == 0xF4 ==> b <= 0x8F)
  }

  /** Length of the character `s` starts with; 0 when it starts with none. */
  function CharLen(s: Bytes): (n: nat)
    ensures n <= |s| && n <= 4
  {
    if s == [] then 0
    else
      var n := LeadLen(s[0]);
      if n <= |s| && (n > 1 ==> IsSecond(s[0], s[1])) && (n > 2 ==> IsTail(s[2])) && (n > 3 ==> IsTail(s[3])) then n
      else 0
  }

  /** utf8.ValidString */
  predicate Valid(s: Bytes) {
    s == [] || (CharLen(s) > 0 && Valid(s[CharLen(s)..]))
  }

  /** A character is seen in its own bytes, and in no fewer. */
  lemma CharLenOfTake(s: Bytes, k: nat)
    requires k <= |s|
    ensures CharLen(s[..k]) == if CharLen(s) <= k then CharLen(s) else 0
  {
  }

  lemma CharLenOfMore(s: Bytes, t: Bytes)
    requires CharLen(s) > 0
    ensures CharLen(s + t) == CharLen(s)
  {
    CharLenOfTake(s + t, |s|);
    assert (s + t)[..|s|] == s;
  }

  lemma {:induction false} ValidConcat(s: Bytes, t: Bytes)
    requires Valid(s)
    ensures Valid(s + t) <==> Valid(t)
  {
    if s == [] {
      assert s + t == t;
    } else {
      var n := CharLen(s);
      CharLenOfMore(s, t);
      assert (s + t)[n..] == s[n..] + t;
      ValidConcat(s[n..], t);
    }
  }

  /** A cut before the end of the first character is no boundary; any later one is, if it is one of the rest. */
  lemma ValidTake(s: Bytes, k: nat)
    requires 0 < k <= |s| && CharLen(s) > 0
    ensures Valid(s[..k]) <==> CharLen(s) <= k && Valid(s[CharLen(s)..][..k - CharLen(s)])
  {
    CharLenOfTake(s, k);
    var n := CharLen(s);
    if n <= k {
      assert s[..k][n..] == s[n..][..k - n];
    }
  }

  /** From a boundary to the next. */
  lemma LongerIsValid(s: Bytes, k: nat)
    requires k <= |s| && Valid(s[..k]) && CharLen(s[k..]) > 0
    ensures Valid(s[..k + CharLen(s[k..])])
  {
    hide *;
    var rest := s[k..];
    var m := CharLen(rest);
    assert rest[m..][..0] == [];
    ValidStep([]);
    ValidTake(rest, m);
    assert s[..k + m] == s[..k] + rest[..m];
    ValidConcat(s[..k], rest[..m]);
  }

  lemma ValidStep(s: Bytes)
    ensures Valid([])
    ensures Valid(s) && s != [] ==> CharLen(s) > 0
  {
  }

  /** A valid text that is a prefix starts with the same character. */
  lemma PrefixStartsAlike(t: Bytes, w: Bytes)
    requires Valid(t) && t != [] && t <= w
    ensures CharLen(w) == CharLen(t)
  {
    assert t == w[..|t|];
    CharLenOfTake(w, |t|);
  }

  /** There is a boundary in any four consecutive positions. */
  lemma {:induction false} BoundaryNear(s: Bytes, k: nat) returns (b: nat)
    requires Valid(s) && k <= |s|
    ensures b <= k <= b + 3 && Valid(s[..b])
  {
    var n := CharLen(s);
    if s == [] || k < n {
      b := 0;
    } else {
      var rest := BoundaryNear(s[n..], k - n);
      b := n + rest;
      ValidTake(s, b);
    }
  }

  /** The end of an ASCII byte is a boundary. */
  lemma {:induction false} AsciiEndsCharacter(s: Bytes, k: nat)
    requires Valid(s) && k < |s| && s[k] <= 0x7F
    ensures Valid(s[..k + 1])
  {
    var n := CharLen(s);
    if k + 1 > n {
      AsciiEndsCharacter(s[n..], k - n);
    }
    assert n <= k + 1;
    ValidTake(s, k + 1);
  }

  /** The loop of truncateSystemBlocks that backs off to a boundary. */
  method BackOff(s: Bytes) returns (r: Bytes)
    ensures r == LongestValidPrefix(s)
  {
    r := s;
    while !Valid(r)
      invariant LongestValidPrefix(r) == LongestValidPrefix(s)
      decreases |r|
    {
      r := r[..|r| - 1];
    }
  }

  function LongestValidPrefix(s: Bytes): (r: Bytes)
    ensures r <= s && Valid(r)
    ensures forall n | |r| < n <= |s| :: !Valid(s[..n])
  {
    if Valid(s) then
      assert s[..|s|] == s;
      s
    else
      var r := LongestValidPrefix(s[..|s| - 1]);
      assert forall n | |r| < n < |s| :: s[..n] == s[..|s| - 1][..n];
      assert s[..|s|] == s;
      r
  }

  /** What is kept of `s` within `room` bytes: all of it, or the longest valid prefix. */
  function Kept(s: Bytes, room: nat): (r: Bytes)
    ensures r <= s && |r| <= room
  {
    if |s| <= room then s else LongestValidPrefix(s[..room])
  }

  lemma KeptIsLongest(s: Bytes, room: nat, n: nat)
    requires Valid(s) && n <= room && n <= |s| && Valid(s[..n])
    ensures Valid(Kept(s, room)) && n <= |Kept(s, room)|
  {
    if room < |s| {
      assert s[..room][..n] == s[..n];
    }
  }

  lemma KeptIsValid(s: Bytes, room: nat)
    requires Valid(s)
    ensures Valid(Kept(s, room))
  {
  }

  lemma KeptWhole(s: Bytes, room: nat)
    requires |s| <= room
    ensures Kept(s, room) == s
  {
  }

  lemma KeptWastesLittle(s: Bytes, room: nat)
    requires Valid(s) && room <= |s|
    ensures room <= |Kept(s, room)| + 3
  {
    var b := BoundaryNear(s, room);
    KeptIsLongest(s, room, b);
  }

  /** Nothing is kept exactly when the first character does not fit. */
  lemma KeptNothingIff(s: Bytes, room: nat)
    requires Valid(s)
    ensures Kept(s, room) == [] <==> s == [] || room < CharLen(s)
  {
    if s != [] {
      var n := CharLen(s);
      if n <= room {
        assert s[n..][..0] == [];
        ValidTake(s, n);
        KeptIsLongest(s, room, n);
      }
    }
  }

  predicate IsAscii(s: Bytes) { forall i | 0 <= i < |s| :: s[i] <= 0x7F }

  /** The bytes of an ASCII literal. */
  function Ascii(s: string): (r: Bytes)
    ensures |r| == |s| && IsAscii(r)
    ensures forall i | 0 <= i < |s| && s[i] < '\U{80}' :: r[i] as int == s[i] as int
  {
    seq(|s|, i requires 0 <= i < |s| => if s[i] < '\U{80}' then s[i] as byte else '?' as byte)
  }

  lemma {:induction false} AsciiIsValid(s: Bytes)
    requires IsAscii(s)
    ensures Valid(s)
  {
    if s != [] {
      AsciiIsValid(s[1..]);
    }
  }
}
