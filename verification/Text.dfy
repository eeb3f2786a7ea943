/** Text shared by the stream readers: lines, joining, trimming, searching.
    A character is a Unicode scalar value of the (valid UTF-8) stream. */
module Text {

  const CR: char := '\r'
  const LF: char := '\n'

  lemma ConcatIsAssociative<T>(a: seq<T>, b: seq<T>, c: seq<T>)
    ensures (a + b) + c == a + (b + c)
  {
  }

  lemma SplitAt<T>(a: seq<T>, s: seq<T>, n: nat)
    requires n <= |s|
    ensures (a + s[..n]) + s[n..] == a + s
  {
  }

  /** Position of the first `c`, or the length when there is none. */
  function IndexOf(s: string, c: char): (i: nat)
    ensures i <= |s|
    ensures forall k :: 0 <= k < i ==> s[k] != c
    ensures i < |s| ==> s[i] == c
  {
    if s == "" || s[0] == c then 0 else 1 + IndexOf(s[1..], c)
  }

  /** The lines of `s` without their terminators; the last one is what follows the last LF. */
  function Lines(s: string): (ls: seq<string>)
    ensures ls != []
    ensures forall l | l in ls :: LF !in l
    decreases |s|
  {
    var i := IndexOf(s, LF);
    if i == |s| then [s] else [s[..i]] + Lines(s[i + 1..])
  }

  ghost predicate LfFree(ls: seq<string>) {
    forall l | l in ls :: LF !in l
  }

  /** `ls`, each followed by LF. */
  function Terminated(ls: seq<string>): string {
    if ls == [] then "" else ls[0] + [LF] + Terminated(ls[1..])
  }

  /** `ls` with LF between neighbours. */
  function Join(ls: seq<string>): string {
    if ls == [] then "" else if |ls| == 1 then ls[0] else ls[0] + [LF] + Join(ls[1..])
  }

  function Concat(ss: seq<string>): string {
    if ss == [] then "" else ss[0] + Concat(ss[1..])
  }

  lemma {:induction false} LinesOfTerminated(ls: seq<string>, t: string)
    requires LfFree(ls)
    ensures Lines(Terminated(ls) + t) == ls + Lines(t)
  {
    if ls == [] {
      assert Terminated(ls) + t == t;
    } else {
      var l, later := ls[0], ls[1..];
      assert l in ls && LfFree(later) && Terminated(ls) == l + [LF] + Terminated(later);
      hide *;
      LinesOfTerminated(later, t);
      FirstLine(l, Terminated(later) + t);
      ConcatIsAssociative(l + [LF], Terminated(later), t);
      ConcatIsAssociative([l], later, Lines(t));
      assert ls == [l] + later;
    }
  }

  lemma FirstLine(l: string, rest: string)
    requires LF !in l
    ensures Lines(l + [LF] + rest) == [l] + Lines(rest)
  {
    var s := l + [LF] + rest;
    var i := IndexOf(s, LF);
    assert s[|l|] == LF;
    assert forall k | 0 <= k < |l| :: s[k] == l[k] && l[k] in l;
    assert s[..i] == l && s[i + 1..] == rest;
  }

  /** No LF follows an LF. */
  ghost predicate NoBlank(s: string) {
    forall k {:trigger s[k]} | 0 <= k && k + 1 < |s| :: s[k] != LF || s[k + 1] != LF
  }

  /** Without LF LF only the first and the last line can be empty. */
  lemma {:induction false} LinesWithoutBlank(s: string)
    requires NoBlank(s)
    ensures forall k | 0 < k < |Lines(s)| - 1 :: Lines(s)[k] != ""
    decreases |s|
  {
    var i := IndexOf(s, LF);
    if i < |s| {
      var tail := s[i + 1..];
      LinesWithoutBlank(tail);
      var ls := Lines(tail);
      assert Lines(s) == [s[..i]] + ls;
      assert s[i] == LF;
      assert tail != "" ==> tail[0] == s[i + 1] != LF;
    }
  }

  /** The first complete line of `s`, whatever follows `s`. */
  lemma TakeLine(s: string, later: string)
    requires IndexOf(s, LF) < |s|
    ensures var i := IndexOf(s, LF); Lines(s + later) == [s[..i]] + Lines(s[i + 1..] + later)
  {
    hide *;
    var i := IndexOf(s, LF);
    FirstLine(s[..i], s[i + 1..] + later);
    assert s == s[..i] + [LF] + s[i + 1..];
    ConcatIsAssociative(s[..i] + [LF], s[i + 1..], later);
  }

  lemma {:induction false} LinesOfJoin(ls: seq<string>)
    requires ls != [] && LfFree(ls)
    ensures Lines(Join(ls)) == ls
  {
    assert ls[0] in ls;
    if |ls| == 1 {
      assert IndexOf(ls[0], LF) == |ls[0]|;
    } else {
      assert LfFree(ls[1..]);
      FirstLine(ls[0], Join(ls[1..]));
      LinesOfJoin(ls[1..]);
    }
  }

  lemma {:induction false} JoinOfLines(s: string)
    ensures Join(Lines(s)) == s
    decreases |s|
  {
    hide *;
    var i := IndexOf(s, LF);
    LinesAre(s);
    if i < |s| {
      JoinOfLines(s[i + 1..]);
      JoinOfCons(s[..i], Lines(s[i + 1..]));
      assert s == s[..i] + [LF] + s[i + 1..];
    } else {
      JoinOfOne(s);
    }
  }

  lemma LinesAre(s: string)
    ensures var i := IndexOf(s, LF); Lines(s) == if i == |s| then [s] else [s[..i]] + Lines(s[i + 1..])
  {
    hide IndexOf;
  }

  lemma JoinOfOne(l: string)
    ensures Join([l]) == l
  {
  }

  lemma JoinOfCons(l: string, ls: seq<string>)
    requires ls != []
    ensures Join([l] + ls) == l + [LF] + Join(ls)
  {
    assert ([l] + ls)[1..] == ls;
  }

  lemma {:induction false} JoinThenLf(ls: seq<string>)
    requires ls != []
    ensures Join(ls) + [LF] == Terminated(ls)
  {
    if |ls| > 1 {
      JoinThenLf(ls[1..]);
      assert Join(ls) + [LF] == ls[0] + [LF] + (Join(ls[1..]) + [LF]);
    }
  }

  lemma LinesAtLf(a: string, b: string)
    ensures Lines(a + [LF] + b) == Lines(a) + Lines(b)
  {
    JoinOfLines(a);
    JoinThenLf(Lines(a));
    LinesOfTerminated(Lines(a), b);
  }

  lemma {:induction false} JoinAppend(ls: seq<string>, l: string)
    ensures Join(ls + [l]) == if ls == [] then l else Join(ls) + [LF] + l
  {
    if |ls| > 1 {
      assert (ls + [l])[1..] == ls[1..] + [l];
      JoinAppend(ls[1..], l);
    } else if |ls| == 1 {
      assert (ls + [l])[1..] == [l];
    } else {
      assert ls + [l] == [l];
    }
  }

  lemma {:induction false} TerminatedAppend(a: seq<string>, b: seq<string>)
    ensures Terminated(a + b) == Terminated(a) + Terminated(b)
  {
    if a == [] {
      assert a + b == b;
    } else {
      assert (a + b)[1..] == a[1..] + b;
      TerminatedAppend(a[1..], b);
    }
  }

  /** The sets of characters that are trimmed. */
  datatype Cutset = Returns | LineEnds | Spaces

  predicate Cuts(cut: Cutset, c: char) {
    match cut
    case Returns => c == CR
    case LineEnds => c == CR || c == LF
    case Spaces => IsSpace(c)
  }

  /** unicode.IsSpace: the White_Space characters. */
  predicate IsSpace(c: char) {
    || '\U{9}' <= c <= '\U{D}' || c == ' ' || c == '\U{85}' || c == '\U{A0}' || c == '\U{1680}'
    || '\U{2000}' <= c <= '\U{200A}' || c == '\U{2028}' || c == '\U{2029}' || c == '\U{202F}'
    || c == '\U{205F}' || c == '\U{3000}'
  }

  /** bytes.TrimRight */
  function TrimRight(s: string, cut: Cutset): (r: string)
    ensures r <= s
    ensures r != "" ==> !Cuts(cut, r[|r| - 1])
    ensures forall k | |r| <= k < |s| :: Cuts(cut, s[k])
  {
    if s != "" && Cuts(cut, s[|s| - 1]) then TrimRight(s[..|s| - 1], cut) else s
  }

  /** bytes.TrimLeft */
  function TrimLeft(s: string, cut: Cutset): (r: string)
    ensures |r| <= |s| && r == s[|s| - |r|..]
    ensures r != "" ==> !Cuts(cut, r[0])
    ensures forall k | 0 <= k < |s| - |r| :: Cuts(cut, s[k])
  {
    if s != "" && Cuts(cut, s[0]) then TrimLeft(s[1..], cut) else s
  }

  /** bytes.TrimSpace */
  function TrimSpace(s: string): string {
    TrimRight(TrimLeft(s, Spaces), Spaces)
  }

  /** No space at either end. */
  predicate IsTrimmed(s: string) {
    s != "" ==> !IsSpace(s[0]) && !IsSpace(s[|s| - 1])
  }

  lemma TrimSpaceOf(s: string)
    ensures |TrimSpace(s)| <= |s|
    ensures if IsTrimmed(s) then TrimSpace(s) == s else |TrimSpace(s)| < |s|
  {
    var left := TrimLeft(s, Spaces);
    if IsTrimmed(s) {
      assert left == s;
    } else if left == s {
      assert TrimRight(s, Spaces) != s;
    }
  }

  /** bytes.Contains */
  predicate Contains<T(==)>(s: seq<T>, u: seq<T>) {
    exists i | 0 <= i <= |s| - |u| :: At(s, u, i)
  }

  predicate At<T(==)>(s: seq<T>, u: seq<T>, i: nat)
    requires i <= |s| - |u|
  {
    s[i..i + |u|] == u
  }

  /** Padding that holds neither the first nor the last character of `u` hides no occurrence of `u`. */
  lemma ContainsInPadding(a: string, m: string, b: string, u: string)
    requires u != "" && u[0] !in a && u[|u| - 1] !in b
    ensures Contains(a + m + b, u) <==> Contains(m, u)
  {
    var s := a + m + b;
    if Contains(s, u) {
      var i :| 0 <= i <= |s| - |u| && At(s, u, i);
      assert s[i] == u[0] && s[i + |u| - 1] == u[|u| - 1] by {
        assert s[i..i + |u|][0] == s[i] && s[i..i + |u|][|u| - 1] == s[i + |u| - 1];
      }
      assert i >= |a|;
      assert i + |u| <= |a| + |m|;
      assert m[i - |a|..i - |a| + |u|] == u;
      assert At(m, u, i - |a|);
    }
    if Contains(m, u) {
      var i :| 0 <= i <= |m| - |u| && At(m, u, i);
      assert s[|a| + i..|a| + i + |u|] == u;
      assert At(s, u, |a| + i);
    }
  }

  lemma ContainsInTrimRight(s: string, cut: Cutset, u: string)
    requires u != "" && !Cuts(cut, u[|u| - 1])
    ensures Contains(TrimRight(s, cut), u) <==> Contains(s, u)
  {
    var r := TrimRight(s, cut);
    var tail := s[|r|..];
    assert s == "" + r + tail;
    assert forall k | 0 <= k < |tail| :: tail[k] == s[|r| + k];
    ContainsInPadding("", r, tail, u);
  }

  lemma ContainsInTrimSpace(s: string, u: string)
    requires u != "" && !IsSpace(u[0]) && !IsSpace(u[|u| - 1])
    ensures Contains(TrimSpace(s), u) <==> Contains(s, u)
  {
    var r := TrimLeft(s, Spaces);
    var head := s[..|s| - |r|];
    assert s == head + r + "";
    ContainsInPadding(head, r, "", u);
    ContainsInTrimRight(r, Spaces, u);
  }

  lemma SliceOfSlice(s: string, lo: nat, hi: nat, i: nat, n: nat)
    requires lo <= hi <= |s| && i + n <= hi - lo
    ensures s[lo..hi][i..i + n] == s[lo + i..lo + i + n]
  {
    var a, b := s[lo..hi][i..i + n], s[lo + i..lo + i + n];
    assert |a| == n && |b| == n;
    forall k | 0 <= k < n ensures a[k] == b[k] {
      assert a[k] == s[lo..hi][i + k];
    }
  }

  /** An occurrence in a part is one in the whole. */
  lemma PartHolds(s: string, lo: nat, hi: nat, u: string)
    requires lo <= hi <= |s| && Contains(s[lo..hi], u)
    ensures Contains(s, u)
  {
    var i :| 0 <= i <= hi - lo - |u| && At(s[lo..hi], u, i);
    SliceOfSlice(s, lo, hi, i, |u|);
    assert At(s, u, lo + i);
  }

  /** An occurrence that lies in a part is one of the part. */
  lemma HoldsInPart(s: string, lo: nat, hi: nat, u: string, i: nat)
    requires lo <= i && i + |u| <= hi <= |s| && At(s, u, i)
    ensures Contains(s[lo..hi], u)
  {
    SliceOfSlice(s, lo, hi, i - lo, |u|);
    assert At(s[lo..hi], u, i - lo);
  }

  lemma NotAtLf(s: string, u: string, i: nat, k: nat)
    requires k < |s| && s[k] == LF && LF !in u && i + |u| <= |s| && At(s, u, i) && u != ""
    ensures k < i || i + |u| <= k
  {
    var part := s[i..i + |u|];
    assert forall j | i <= j < i + |u| :: s[j] == part[j - i] && part[j - i] in u;
  }

  /** Text without LF occurs in `a`, LF, `b` only inside `a` or inside `b`. */
  lemma ContainsAcrossLf(a: string, b: string, u: string)
    requires u != "" && LF !in u
    ensures Contains(a + [LF] + b, u) <==> Contains(a, u) || Contains(b, u)
  {
    var s, n := a + [LF] + b, |a|;
    assert s[0..n] == a && s[n + 1..|s|] == b && s[n] == LF;
    if Contains(a, u) {
      hide *;
      PartHolds(s, 0, n, u);
    }
    if Contains(b, u) {
      hide *;
      PartHolds(s, n + 1, |s|, u);
    }
    if Contains(s, u) {
      var i: nat :| i <= |s| - |u| && At(s, u, i);
      hide *;
      NotAtLf(s, u, i, n);
      if i + |u| <= n {
        HoldsInPart(s, 0, n, u, i);
      } else {
        HoldsInPart(s, n + 1, |s|, u, i);
      }
    }
  }

  lemma {:induction false} ContainsInTerminated(ls: seq<string>, t: string, u: string)
    requires u != "" && LF !in u
    ensures Contains(Terminated(ls) + t, u) <==> (exists l | l in ls :: Contains(l, u)) || Contains(t, u)
  {
    if ls == [] {
      assert Terminated(ls) + t == t;
    } else {
      var rest := Terminated(ls[1..]) + t;
      assert Terminated(ls) + t == ls[0] + [LF] + rest;
      ContainsAcrossLf(ls[0], rest, u);
      ContainsInTerminated(ls[1..], t, u);
      assert ls == [ls[0]] + ls[1..];
      assert forall l :: l in ls <==> l == ls[0] || l in ls[1..];
    }
  }
}
