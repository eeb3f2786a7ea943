/** The sliding-window limiter of internal/gateway/auth.go. Times are nanoseconds. */
module RateLimiter {

  const WINDOW := 60_000_000_000

  /** The hits after `cutoff`, in order. */
  function Recent(hits: seq<int>, cutoff: int): (r: seq<int>)
    ensures |r| <= |hits|
    ensures forall t | t in r :: t > cutoff
  {
    if hits == [] then []
    else if hits[0] > cutoff then [hits[0]] + Recent(hits[1..], cutoff)
    else Recent(hits[1..], cutoff)
  }

  /** A Go slice: the first `len` cells of its backing array. */
  datatype Slice = Slice(data: array<int>, len: nat)

  class RateLimiter {
    var hits: map<string, Slice>

    /** Slices fit their arrays, and no two keys share an array. */
    ghost predicate Valid()
      reads this
    {
      && (forall k | k in hits :: hits[k].len <= hits[k].data.Length)
      && (forall k, l | k in hits && l in hits && k != l :: hits[k].data != hits[l].data)
    }

    ghost function Arrays(): set<object>
      reads this
    {
      set k | k in hits :: hits[k].data
    }

    ghost function View(key: string): seq<int>
      requires Valid()
      reads this, Arrays()
    {
      if key in hits then
        assert hits[key].data in Arrays();
        hits[key].data[..hits[key].len]
      else []
    }

    constructor ()
      ensures Valid() && hits == map[]
    {
      hits := map[];
    }

    /** The in-place filter of `allow`: kept := hits[:0], then append to it while ranging over hits. */
    method Compact(s: Slice, cutoff: int) returns (kept: Slice)
      requires s.len <= s.data.Length
      modifies s.data
      ensures kept.data == s.data && kept.len <= s.len
      ensures kept.data[..kept.len] == Recent(old(s.data[..s.len]), cutoff)
    {
      hide *;
      RecentOfNone(cutoff);
      kept := Slice(s.data, 0);
      ghost var was := s.data[..s.len];
      assert was[..0] == [];
      for i := 0 to s.len
        invariant kept.data == s.data && kept.len <= i
        invariant s.data[..kept.len] == Recent(was[..i], cutoff)
        invariant s.data[i..s.len] == was[i..]
      {
        var t := s.data[i];
        assert t == s.data[i..s.len][0] == was[i..][0];
        RecentAppend(was[..i], was[i], cutoff);
        assert was[..i + 1] == was[..i] + [was[i]];
        ghost var tail := s.data[i + 1..s.len];
        assert tail == s.data[i..s.len][1..] == was[i + 1..];
        if t > cutoff {
          ghost var head := s.data[..kept.len];
          s.data[kept.len] := t;
          kept := Slice(s.data, kept.len + 1);
          assert s.data[..kept.len] == head + [t];
          assert s.data[i + 1..s.len] == tail;
        }
      }
      assert was[..s.len] == was;
    }

    /** append: in place while there is room, otherwise into a larger new array. */
    method Append(s: Slice, t: int) returns (r: Slice)
      requires s.len <= s.data.Length
      modifies s.data
      ensures r.data == s.data || fresh(r.data)
      ensures r.len <= r.data.Length && r.data[..r.len] == old(s.data[..s.len]) + [t]
    {
      var target := s.data;
      if s.len == s.data.Length {
        target := new int[2 * s.len + 1];
        for i := 0 to s.len
          invariant forall k | 0 <= k < i :: target[k] == s.data[k]
          invariant s.data[..] == old(s.data[..])
        {
          target[i] := s.data[i];
        }
      }
      assert target[..s.len] == old(s.data[..s.len]);
      target[s.len] := t;
      r := Slice(target, s.len + 1);
    }

    method Allow(key: string, rpm: int, now: int) returns (retryAfter: int, ok: bool)
      requires Valid() && rpm > 0
      modifies this, Arrays()
      ensures Valid()
      ensures View(key) == HitsAfter(old(View(key)), rpm, now)
      ensures forall k | k != key :: View(k) == old(View(k))
      ensures ok == Admits(old(View(key)), rpm, now)
      ensures retryAfter == if ok then 0 else RetryAfter(old(View(key)), now)
    {
      hide Recent;
      RecentOfNone(now - WINDOW);
      var cutoff := now - WINDOW;
      var s: Slice;
      if key in hits {
        s := hits[key];
        assert s.data in Arrays();
      } else {
        var empty := new int[0];
        s := Slice(empty, 0);
      }
      assert s.data[..s.len] == old(View(key));
      var kept := Compact(s, cutoff);
      if kept.len >= rpm {
        assert kept.data[..kept.len][0] == kept.data[0];
        retryAfter := WINDOW - (now - kept.data[0]);
        ok := false;
        hits := hits[key := kept];
      } else {
        var more := Append(kept, now);
        hits := hits[key := more];
        retryAfter, ok := 0, true;
      }
    }
  }

  // ---- what one call does to the hits of its key ----

  function Admits(hits: seq<int>, rpm: int, now: int): bool {
    |Recent(hits, now - WINDOW)| < rpm
  }

  function HitsAfter(hits: seq<int>, rpm: int, now: int): seq<int> {
    var kept := Recent(hits, now - WINDOW);
    if |kept| < rpm then kept + [now] else kept
  }

  function RetryAfter(hits: seq<int>, now: int): int
    requires Recent(hits, now - WINDOW) != []
  {
    WINDOW - (now - Recent(hits, now - WINDOW)[0])
  }

  lemma RecentOfNone(cutoff: int)
    ensures Recent([], cutoff) == []
  {
  }

  lemma {:induction false} RecentAppend(hits: seq<int>, t: int, cutoff: int)
    ensures Recent(hits + [t], cutoff) == Recent(hits, cutoff) + if t > cutoff then [t] else []
  {
    if hits == [] {
      assert hits + [t] == [t];
    } else {
      assert (hits + [t])[1..] == hits[1..] + [t];
      RecentAppend(hits[1..], t, cutoff);
    }
  }

  lemma {:induction false} RecentOfRecent(hits: seq<int>, early: int, late: int)
    requires early <= late
    ensures Recent(Recent(hits, early), late) == Recent(hits, late)
  {
    if hits != [] {
      RecentOfRecent(hits[1..], early, late);
      if hits[0] > early {
        assert Recent(hits, early)[1..] == Recent(hits[1..], early);
      }
    }
  }

  // ---- whole runs of calls for one key ----

  /** A call, with the clock reading it brings; readings are taken before the lock and may come out of order. */
  datatype Call = Call(now: int, rpm: int)

  predicate NoLaterThan(calls: seq<Call>, t: int) {
    forall i | 0 <= i < |calls| :: calls[i].now <= t
  }

  /** No reading is more than `skew` behind one that came before it. */
  predicate Skewed(calls: seq<Call>, skew: nat) {
    calls != [] ==>
      var before, last := calls[..|calls| - 1], calls[|calls| - 1];
      Skewed(before, skew) && NoLaterThan(before, last.now + skew)
  }

  /** The hits of the key after the calls. */
  function Hits(calls: seq<Call>): seq<int> {
    if calls == [] then []
    else
      var last := calls[|calls| - 1];
      HitsAfter(Hits(calls[..|calls| - 1]), last.rpm, last.now)
  }

  /** Does the limiter admit `c` after `calls`? */
  predicate AdmitsNext(calls: seq<Call>, c: Call) {
    Admits(Hits(calls), c.rpm, c.now)
  }

  /** The times of all admitted calls, never forgotten. */
  function Admissions(calls: seq<Call>): seq<int> {
    if calls == [] then []
    else
      var before, last := calls[..|calls| - 1], calls[|calls| - 1];
      if AdmitsNext(before, last) then Admissions(before) + [last.now] else Admissions(before)
  }

  /** How many of `times` lie in (lo, hi]. */
  function CountIn(times: seq<int>, lo: int, hi: int): nat {
    if times == [] then 0 else (if lo < times[0] <= hi then 1 else 0) + CountIn(times[1..], lo, hi)
  }

  lemma {:induction false} CountInAppend(times: seq<int>, t: int, lo: int, hi: int)
    ensures CountIn(times + [t], lo, hi) == CountIn(times, lo, hi) + if lo < t <= hi then 1 else 0
  {
    if times == [] {
      assert times + [t] == [t];
    } else {
      assert (times + [t])[1..] == times[1..] + [t];
      CountInAppend(times[1..], t, lo, hi);
    }
  }

  lemma {:induction false} RecentCounts(times: seq<int>, lo: int, hi: int)
    requires forall t | t in times :: t <= hi
    ensures |Recent(times, lo)| == CountIn(times, lo, hi)
  {
    if times != [] {
      assert times[0] in times;
      assert forall t | t in times[1..] :: t in times;
      RecentCounts(times[1..], lo, hi);
    }
  }

  lemma {:induction false} CountInGrows(times: seq<int>, lo: int, hi: int, lo': int, hi': int)
    requires lo' <= lo && forall t | t in times && lo < t <= hi :: t <= hi'
    ensures CountIn(times, lo, hi) <= CountIn(times, lo', hi')
  {
    if times != [] {
      assert times[0] in times;
      assert forall t | t in times[1..] :: t in times;
      CountInGrows(times[1..], lo, hi, lo', hi');
    }
  }

  lemma RunStep(calls: seq<Call>, c: Call)
    ensures Hits(calls + [c]) == HitsAfter(Hits(calls), c.rpm, c.now)
    ensures Admissions(calls + [c]) ==
      if AdmitsNext(calls, c) then Admissions(calls) + [c.now] else Admissions(calls)
  {
    assert (calls + [c])[..|calls|] == calls;
  }

  lemma NoCalls()
    ensures Hits([]) == [] && Admissions([]) == []
  {
  }

  /** A later filter hides what an earlier one has dropped. */
  lemma HitsStep(hits: seq<int>, times: seq<int>, rpm: int, now: int, cutoff: int)
    requires now - WINDOW <= cutoff && Recent(hits, cutoff) == Recent(times, cutoff)
    ensures Recent(HitsAfter(hits, rpm, now), cutoff)
         == Recent(if Admits(hits, rpm, now) then times + [now] else times, cutoff)
  {
    RecentOfRecent(hits, now - WINDOW, cutoff);
    RecentAppend(Recent(hits, now - WINDOW), now, cutoff);
    RecentAppend(times, now, cutoff);
  }

  lemma AdmitsIs(calls: seq<Call>, c: Call)
    ensures AdmitsNext(calls, c) == Admits(Hits(calls), c.rpm, c.now)
    ensures AdmitsNext(calls, c) <==> |Recent(Hits(calls), c.now - WINDOW)| < c.rpm
  {
  }

  lemma NoLaterPrefix(calls: seq<Call>, c: Call, t: int)
    requires NoLaterThan(calls + [c], t)
    ensures NoLaterThan(calls, t) && c.now <= t
  {
    var all := calls + [c];
    assert all[|calls|] == c && forall i | 0 <= i < |calls| :: all[i] == calls[i];
  }

  /** Seen from the latest reading so far or any later moment, the hits and all admissions have the same recent
      part. */
  lemma {:induction false} HitsSeenAt(calls: seq<Call>, now: int)
    requires NoLaterThan(calls, now)
    ensures Recent(Hits(calls), now - WINDOW) == Recent(Admissions(calls), now - WINDOW)
    ensures forall t | t in Admissions(calls) :: t <= now
  {
    hide *;
    NoCalls();
    if calls != [] {
      var before, last := calls[..|calls| - 1], calls[|calls| - 1];
      assert calls == before + [last];
      NoLaterPrefix(before, last, now);
      HitsSeenAt(before, now);
      RunStep(before, last);
      AdmitsIs(before, last);
      HitsStep(Hits(before), Admissions(before), last.rpm, last.now, now - WINDOW);
    }
  }

  lemma OwnCutoff(hits: seq<int>, rpm: int, now: int)
    ensures Recent(HitsAfter(hits, rpm, now), now - WINDOW) == HitsAfter(hits, rpm, now)
  {
    RecentOfRecent(hits, now - WINDOW, now - WINDOW);
    RecentAppend(Recent(hits, now - WINDOW), now, now - WINDOW);
  }

  /** After a call with the latest reading, the kept hits are the admissions of its window. */
  lemma HitsAreRecentAdmissions(calls: seq<Call>)
    requires calls != [] && NoLaterThan(calls, calls[|calls| - 1].now)
    ensures Hits(calls) == Recent(Admissions(calls), calls[|calls| - 1].now - WINDOW)
  {
    hide *;
    var before, last := calls[..|calls| - 1], calls[|calls| - 1];
    assert calls == before + [last];
    HitsSeenAt(calls, last.now);
    RunStep(before, last);
    OwnCutoff(Hits(before), last.rpm, last.now);
  }

  /** A call with the latest reading is admitted exactly when fewer than rpm earlier admissions lie in
      (now - 60s, now]. */
  lemma AdmitsIffWindowNotFull(calls: seq<Call>, c: Call)
    requires NoLaterThan(calls, c.now)
    ensures AdmitsNext(calls, c) <==> CountIn(Admissions(calls), c.now - 60_000_000_000, c.now) < c.rpm
  {
    hide *;
    WindowIs();
    AdmitsIs(calls, c);
    HitsSeenAt(calls, c.now);
    RecentCounts(Admissions(calls), c.now - WINDOW, c.now);
  }

  lemma {:induction false} RecentShrinks(hits: seq<int>, early: int, late: int)
    ensures |Recent(Recent(hits, early), late)| <= |Recent(hits, late)|
    ensures early <= late ==> |Recent(hits, late)| <= |Recent(hits, early)|
  {
    if hits != [] {
      RecentShrinks(hits[1..], early, late);
      if hits[0] > early {
        assert Recent(hits, early)[1..] == Recent(hits[1..], early);
      }
    }
  }

  /** The hits never hold more than the admissions. */
  lemma {:induction false} HitsWithinAdmissions(calls: seq<Call>, cutoff: int)
    ensures |Recent(Hits(calls), cutoff)| <= |Recent(Admissions(calls), cutoff)|
  {
    hide *;
    NoCalls();
    if calls != [] {
      var before, last := calls[..|calls| - 1], calls[|calls| - 1];
      assert calls == before + [last];
      HitsWithinAdmissions(before, cutoff);
      RunStep(before, last);
      AdmitsIs(before, last);
      HitsAfterIs(Hits(before), last.rpm, last.now);
      RecentShrinks(Hits(before), last.now - WINDOW, cutoff);
      RecentAppend(Recent(Hits(before), last.now - WINDOW), last.now, cutoff);
      RecentAppend(Admissions(before), last.now, cutoff);
      assert Recent(Hits(before), last.now - WINDOW) + [] == Recent(Hits(before), last.now - WINDOW);
    }
  }

  lemma HitsAfterIs(hits: seq<int>, rpm: int, now: int)
    ensures HitsAfter(hits, rpm, now) ==
      Recent(hits, now - WINDOW) + if Admits(hits, rpm, now) then [now] else []
  {
  }

  /** A call whose reading came late: it is refused if the window of the latest reading is full, and admitted if the
      admissions since the beginning of its own window are fewer than rpm. */
  lemma LateCallIsBetween(calls: seq<Call>, c: Call, latest: int)
    requires NoLaterThan(calls, latest) && c.now <= latest
    ensures AdmitsNext(calls, c) ==> CountIn(Admissions(calls), latest - WINDOW, latest) < c.rpm
    ensures CountIn(Admissions(calls), c.now - WINDOW, latest) < c.rpm ==> AdmitsNext(calls, c)
  {
    hide *;
    AdmitsIs(calls, c);
    HitsSeenAt(calls, latest);
    RecentShrinks(Hits(calls), c.now - WINDOW, latest - WINDOW);
    HitsWithinAdmissions(calls, c.now - WINDOW);
    RecentCounts(Admissions(calls), c.now - WINDOW, latest);
    RecentCounts(Admissions(calls), latest - WINDOW, latest);
  }

  predicate LimitedTo(calls: seq<Call>, limit: nat) {
    forall i | 0 <= i < |calls| :: calls[i].rpm <= limit
  }

  lemma LimitedPrefix(calls: seq<Call>, c: Call, limit: nat)
    requires LimitedTo(calls + [c], limit)
    ensures LimitedTo(calls, limit) && c.rpm <= limit
  {
    var all := calls + [c];
    assert all[|calls|] == c && forall i | 0 <= i < |calls| :: all[i] == calls[i];
  }

  lemma SkewedPrefix(calls: seq<Call>, c: Call, skew: nat)
    requires Skewed(calls + [c], skew)
    ensures Skewed(calls, skew) && NoLaterThan(calls, c.now + skew)
  {
    assert (calls + [c])[..|calls|] == calls;
  }

  /** Readings at most `skew` behind: no 60 seconds less `skew`, wherever they lie, hold more than `limit`
      admissions. */
  lemma {:induction false} SkewedWindowIsBounded(calls: seq<Call>, skew: nat, limit: nat, end: int)
    requires Skewed(calls, skew) && LimitedTo(calls, limit)
    ensures CountIn(Admissions(calls), end - WINDOW + skew, end) <= limit
  {
    hide *;
    NoCalls();
    if calls == [] {
      CountOfNone(end - WINDOW + skew, end);
    } else {
      var before, c := calls[..|calls| - 1], calls[|calls| - 1];
      assert calls == before + [c];
      LimitedPrefix(before, c, limit);
      SkewedPrefix(before, c, skew);
      SkewedWindowIsBounded(before, skew, limit, end);
      RunStep(before, c);
      CountInAppend(Admissions(before), c.now, end - WINDOW + skew, end);
      if AdmitsNext(before, c) && c.now <= end {
        var latest := c.now + skew;
        LateCallIsBetween(before, c, latest);
        HitsSeenAt(before, latest);
        CountInGrows(Admissions(before), end - WINDOW + skew, end, latest - WINDOW, latest);
      }
    }
  }

  lemma CountOfNone(lo: int, hi: int)
    ensures CountIn([], lo, hi) == 0
  {
  }

  /** Readings in order: no window of 60 seconds, wherever it lies, holds more than `limit` admissions. */
  lemma EveryWindowIsBounded(calls: seq<Call>, limit: nat, end: int)
    requires Skewed(calls, 0) && LimitedTo(calls, limit)
    ensures CountIn(Admissions(calls), end - WINDOW, end) <= limit
  {
    hide *;
    SkewedWindowIsBounded(calls, 0, limit, end);
  }

  // ---- exactly which windows are bounded ----

  predicate ConstantLimit(calls: seq<Call>, limit: int) {
    forall i | 0 <= i < |calls| :: calls[i].rpm == limit
  }

  lemma ConstantPrefix(calls: seq<Call>, c: Call, limit: int)
    ensures ConstantLimit(calls + [c], limit) <==> ConstantLimit(calls, limit) && c.rpm == limit
  {
    var all := calls + [c];
    assert all[|calls|] == c && forall i | 0 <= i < |calls| :: all[i] == calls[i];
  }

  lemma {:induction false} CountOfEarlier(times: seq<int>, lo: int, hi: int)
    requires forall t | t in times :: t <= lo
    ensures CountIn(times, lo, hi) == 0
  {
    if times != [] {
      assert times[0] in times;
      assert forall t | t in times[1..] :: t in times;
      CountOfEarlier(times[1..], lo, hi);
    }
  }

  /** A limit of one: what is admitted stays the only hit until a call 60 seconds later takes its place. */
  lemma {:induction false} OneAtATime(calls: seq<Call>, end: int)
    requires ConstantLimit(calls, 1)
    ensures var times := Admissions(calls);
      && Hits(calls) == (if times == [] then [] else [times[|times| - 1]])
      && (forall t | t in times :: t <= times[|times| - 1])
      && CountIn(times, end - WINDOW, end) <= 1
  {
    hide *;
    WindowIs();
    NoCalls();
    CountOfNone(end - WINDOW, end);
    if calls != [] {
      var before, c := calls[..|calls| - 1], calls[|calls| - 1];
      assert calls == before + [c];
      ConstantPrefix(before, c, 1);
      OneAtATime(before, end);
      RunStep(before, c);
      AdmitsIs(before, c);
      HitsAfterIs(Hits(before), c.rpm, c.now);
      var times := Admissions(before);
      CountInAppend(times, c.now, end - WINDOW, end);
      if times == [] {
        RecentOfNone(c.now - WINDOW);
        assert [] + [c.now] == [c.now];
      } else {
        RecentOfOne(times[|times| - 1], c.now - WINDOW);
        assert [] + [c.now] == [c.now] && [times[|times| - 1]] + [] == [times[|times| - 1]];
        if AdmitsNext(before, c) && c.now <= end {
          CountOfEarlier(times, end - WINDOW, end);
        }
      }
    }
  }

  function Zeros(n: nat): seq<int> { if n == 0 then [] else Zeros(n - 1) + [0] }

  /** As many calls at time 0 as the limit admits. */
  function Burst(limit: int, n: nat): seq<Call> { if n == 0 then [] else Burst(limit, n - 1) + [Call(0, limit)] }

  lemma {:induction false} ZerosFacts(n: nat, cutoff: int, hi: int)
    ensures |Zeros(n)| == n && Recent(Zeros(n), cutoff) == if cutoff < 0 then Zeros(n) else []
    ensures hi >= 0 ==> CountIn(Zeros(n), -1, hi) == n
  {
    if n > 0 {
      ZerosFacts(n - 1, cutoff, hi);
      RecentAppend(Zeros(n - 1), 0, cutoff);
      CountInAppend(Zeros(n - 1), 0, -1, hi);
    }
  }

  lemma {:induction false} BurstRuns(limit: nat, n: nat, skew: nat)
    requires n <= limit
    ensures var calls := Burst(limit, n);
      && Hits(calls) == Admissions(calls) == Zeros(n)
      && Skewed(calls, skew) && ConstantLimit(calls, limit) && NoLaterThan(calls, 0)
  {
    NoCalls();
    if n > 0 {
      var before, c := Burst(limit, n - 1), Call(0, limit);
      assert Burst(limit, n) == before + [c] && Zeros(n) == Zeros(n - 1) + [0];
      hide *;
      WindowIs();
      BurstRuns(limit, n - 1, skew);
      ZerosFacts(n - 1, -WINDOW, 0);
      AdmittedNext(before, c, Zeros(n - 1), Zeros(n - 1));
      NoLaterTo(before, 0, c.now + skew);
      SkewedAppend(before, c, skew);
      ConstantPrefix(before, c, limit);
      NoLaterAppend(before, c, 0);
    }
  }

  lemma NoLaterTo(calls: seq<Call>, t: int, later: int)
    requires NoLaterThan(calls, t) && t <= later
    ensures NoLaterThan(calls, later)
  {
  }

  lemma NoLaterAppend(calls: seq<Call>, c: Call, t: int)
    requires NoLaterThan(calls, t) && c.now <= t
    ensures NoLaterThan(calls + [c], t)
  {
  }

  /** The calls at 0, one at 60s that drops them, and one whose reading is `skew` older than that. */
  function Late(limit: nat, skew: nat): seq<Call> {
    Burst(limit, limit) + [Call(WINDOW, limit)] + [Call(WINDOW - skew, limit)]
  }

  /** A late reading puts one admission more than the limit into 60 seconds less `skew` and one nanosecond more. */
  lemma LateReadingExceeds(limit: nat, skew: nat)
    requires limit >= 2 && skew <= WINDOW
    ensures Skewed(Late(limit, skew), skew) && ConstantLimit(Late(limit, skew), limit)
    ensures CountIn(Admissions(Late(limit, skew)), -1, WINDOW - skew) > limit
  {
    var burst, d, e := Burst(limit, limit), Call(WINDOW, limit), Call(WINDOW - skew, limit);
    assert Late(limit, skew) == burst + [d] + [e];
    hide *;
    WindowIs();
    BurstRuns(limit, limit, skew);
    ZerosFacts(limit, 0, WINDOW - skew);
    AdmittedNext(burst, d, Zeros(limit), []);
    assert [] + [WINDOW] == [WINDOW];
    RecentOfOne(WINDOW, e.now - WINDOW);
    AdmittedNext(burst + [d], e, [WINDOW], [WINDOW]);
    CountInAppend(Zeros(limit), WINDOW, -1, WINDOW - skew);
    CountInAppend(Zeros(limit) + [WINDOW], WINDOW - skew, -1, WINDOW - skew);
    NoLaterTo(burst, 0, WINDOW + skew);
    SkewedAppend(burst, d, skew);
    NoLaterTo(burst, 0, WINDOW);
    NoLaterAppend(burst, d, WINDOW);
    SkewedAppend(burst + [d], e, skew);
    ConstantPrefix(burst, d, limit);
    ConstantPrefix(burst + [d], e, limit);
  }

  /** A run that puts more admissions than the limit into a window of the given length. */
  ghost predicate Exceeds(calls: seq<Call>, end: int, limit: nat, skew: nat, length: nat) {
    Skewed(calls, skew) && ConstantLimit(calls, limit) && CountIn(Admissions(calls), end - length, end) > limit
  }

  lemma OneLimitExceeds(skew: nat)
    ensures Exceeds([Call(0, 1), Call(WINDOW, 1)], WINDOW, 1, skew, WINDOW + 1)
  {
    var c, d := Call(0, 1), Call(WINDOW, 1);
    var calls := [c] + [d];
    assert calls == [Call(0, 1), Call(WINDOW, 1)] && [] + [c] == [c];
    assert ConstantLimit(calls, 1);
    assert NoLaterThan([c], 0) && NoLaterThan([], 0);
    hide Hits, Admissions, Recent, CountIn, NoLaterThan;
    NoCalls();
    WindowIs();
    RecentOfOne(0, 0);
    AdmittedNext([], c, [], []);
    assert [] + [0] == [0];
    AdmittedNext([c], d, [0], []);
    CountOfNone(-1, WINDOW);
    CountInAppend([], 0, -1, WINDOW);
    CountInAppend([0], WINDOW, -1, WINDOW);
    NoLaterTo([], 0, skew);
    SkewedAppend([], c, skew);
    NoLaterTo([c], 0, WINDOW + skew);
    SkewedAppend([c], d, skew);
  }

  lemma LongerExceeds(calls: seq<Call>, end: int, limit: nat, skew: nat, length: nat, longer: nat)
    requires Exceeds(calls, end, limit, skew, length) && length <= longer
    ensures Exceeds(calls, end, limit, skew, longer)
  {
    CountInGrows(Admissions(calls), end - length, end, end - longer, end);
  }

  lemma ConstantIsLimited(calls: seq<Call>, limit: nat)
    requires ConstantLimit(calls, limit)
    ensures LimitedTo(calls, limit)
  {
  }

  lemma ExceedsIs(calls: seq<Call>, end: int, limit: nat, skew: nat, length: nat)
    ensures Exceeds(calls, end, limit, skew, length) <==>
      Skewed(calls, skew) && ConstantLimit(calls, limit) && CountIn(Admissions(calls), end - length, end) > limit
  {
    hide Skewed, ConstantLimit, CountIn, Admissions;
  }

  /** Under a constant limit, with readings at most `skew` behind, exactly these windows never hold more admissions
      than the limit: those of up to 60 seconds less `skew`, and for a limit of one all of up to 60 seconds. */
  lemma WindowIsBoundedIff(limit: nat, skew: nat, length: nat)
    requires limit > 0 && skew <= 60_000_000_000
    ensures (forall calls, end :: !Exceeds(calls, end, limit, skew, length))
      <==> length <= 60_000_000_000 - skew || (limit == 1 && length <= 60_000_000_000)
  {
    hide *;
    WindowIs();
    if length <= WINDOW - skew || (limit == 1 && length <= WINDOW) {
      forall calls, end ensures !Exceeds(calls, end, limit, skew, length) {
        ExceedsIs(calls, end, limit, skew, length);
        if Skewed(calls, skew) && ConstantLimit(calls, limit) {
          var times := Admissions(calls);
          if length <= WINDOW - skew {
            ConstantIsLimited(calls, limit);
            SkewedWindowIsBounded(calls, skew, limit, end);
            CountInGrows(times, end - length, end, end - WINDOW + skew, end);
          } else {
            OneAtATime(calls, end);
            CountInGrows(times, end - length, end, end - WINDOW, end);
          }
        }
      }
    } else if limit == 1 {
      OneLimitExceeds(skew);
      LongerExceeds([Call(0, 1), Call(WINDOW, 1)], WINDOW, 1, skew, WINDOW + 1, length);
    } else {
      var calls, end := Late(limit, skew), WINDOW - skew;
      LateReadingExceeds(limit, skew);
      ExceedsIs(calls, end, limit, skew, end + 1);
      LongerExceeds(calls, end, limit, skew, end + 1, length);
    }
  }

  lemma WindowIs()
    ensures WINDOW == 60_000_000_000
    ensures forall skew: nat :: Skewed([], skew)
    ensures forall t :: NoLaterThan([], t)
    ensures forall cutoff :: Recent([], cutoff) == []
  {
  }

  lemma RecentOfOne(t: int, cutoff: int)
    ensures Recent([t], cutoff) == if t > cutoff then [t] else []
  {
  }

  lemma SkewedAppend(calls: seq<Call>, c: Call, skew: nat)
    requires Skewed(calls, skew) && NoLaterThan(calls, c.now + skew)
    ensures Skewed(calls + [c], skew)
  {
    assert (calls + [c])[..|calls|] == calls;
  }

  /** A call for which there is room. */
  lemma AdmittedNext(calls: seq<Call>, c: Call, hits: seq<int>, kept: seq<int>)
    requires Hits(calls) == hits && Recent(hits, c.now - WINDOW) == kept && |kept| < c.rpm
    ensures Hits(calls + [c]) == kept + [c.now] && Admissions(calls + [c]) == Admissions(calls) + [c.now]
    ensures AdmitsNext(calls, c)
  {
    hide *;
    RunStep(calls, c);
    AdmitsIs(calls, c);
    HitsAfterIs(hits, c.rpm, c.now);
  }

  // ---- retrying, in whatever order the readings come ----

  /** A refused call leaves the hits of its window, and there are some. */
  lemma RefusedHasHits(calls: seq<Call>, c: Call)
    requires c.rpm > 0 && !AdmitsNext(calls, c)
    ensures Recent(Hits(calls), c.now - WINDOW) != [] && Hits(calls + [c]) == Recent(Hits(calls), c.now - WINDOW)
    ensures Admissions(calls + [c]) == Admissions(calls)
  {
    hide *;
    AdmitsIs(calls, c);
    RunStep(calls, c);
    HitsAfterIs(Hits(calls), c.rpm, c.now);
    assert Recent(Hits(calls), c.now - WINDOW) + [] == Recent(Hits(calls), c.now - WINDOW);
  }

  lemma {:induction false} AdmissionsGrow(calls: seq<Call>, more: seq<Call>)
    ensures |Admissions(calls)| <= |Admissions(calls + more)|
    ensures |Admissions(calls)| == |Admissions(calls + more)| ==> Admissions(calls) == Admissions(calls + more)
  {
    hide *;
    if more == [] {
      assert calls + more == calls;
    } else {
      var most, last := more[..|more| - 1], more[|more| - 1];
      assert calls + more == (calls + most) + [last];
      RunStep(calls + most, last);
      AdmissionsGrow(calls, most);
    }
  }

  /** While nobody is admitted the hits can only be dropped. */
  lemma {:induction false} HitsOnlyAge(calls: seq<Call>, more: seq<Call>, cutoff: int)
    requires Admissions(calls + more) == Admissions(calls)
    ensures |Recent(Hits(calls + more), cutoff)| <= |Recent(Hits(calls), cutoff)|
  {
    hide *;
    if more == [] {
      assert calls + more == calls;
    } else {
      var most, last := more[..|more| - 1], more[|more| - 1];
      var all := calls + most;
      assert calls + more == all + [last];
      RunStep(all, last);
      AdmissionsGrow(calls, most);
      HitsOnlyAge(calls, most, cutoff);
      AdmitsIs(all, last);
      HitsAfterIs(Hits(all), last.rpm, last.now);
      assert Recent(Hits(all), last.now - WINDOW) + [] == Recent(Hits(all), last.now - WINDOW);
      RecentShrinks(Hits(all), last.now - WINDOW, cutoff);
    }
  }

  /** `retry` comes at or after the time the refused `c` was told, with its limit, nobody admitted in between. */
  ghost predicate IsRetry(calls: seq<Call>, c: Call, between: seq<Call>, retry: Call)
    requires Recent(Hits(calls), c.now - WINDOW) != []
  {
    && retry.rpm == c.rpm && Admissions(calls + [c] + between) == Admissions(calls + [c])
    && retry.now >= c.now + RetryAfter(Hits(calls), c.now)
  }

  /** How many hits of the window of `c` are younger than the first one, which the wait is counted from. */
  function Younger(calls: seq<Call>, c: Call): nat
    requires Recent(Hits(calls), c.now - WINDOW) != []
  {
    var kept := Recent(Hits(calls), c.now - WINDOW);
    |Recent(kept, kept[0])|
  }

  /** For a call with the latest reading these are the admissions younger than the oldest of its window. */
  lemma YoungerAreAdmissions(calls: seq<Call>, c: Call)
    requires NoLaterThan(calls, c.now) && Recent(Hits(calls), c.now - WINDOW) != []
    ensures var window := Recent(Admissions(calls), c.now - WINDOW);
      window != [] && Younger(calls, c) == CountIn(Admissions(calls), window[0], c.now)
  {
    hide *;
    var window := Recent(Admissions(calls), c.now - WINDOW);
    HitsSeenAt(calls, c.now);
    YoungerIs(calls, c);
    assert window[0] in window;
    RecentOfRecent(Admissions(calls), c.now - WINDOW, window[0]);
    RecentCounts(Admissions(calls), window[0], c.now);
  }

  lemma YoungerIs(calls: seq<Call>, c: Call)
    requires Recent(Hits(calls), c.now - WINDOW) != []
    ensures var kept := Recent(Hits(calls), c.now - WINDOW); Younger(calls, c) == |Recent(kept, kept[0])|
  {
    hide Recent, Hits;
  }

  lemma RetryUnfolds(calls: seq<Call>, c: Call, between: seq<Call>, retry: Call)
    requires Recent(Hits(calls), c.now - WINDOW) != [] && IsRetry(calls, c, between, retry)
    ensures retry.rpm == c.rpm && Admissions(calls + [c] + between) == Admissions(calls + [c])
    ensures var kept := Recent(Hits(calls), c.now - WINDOW);
      && retry.now - WINDOW >= kept[0] && Younger(calls, c) == |Recent(kept, kept[0])|
      && (retry.now == c.now + RetryAfter(Hits(calls), c.now) ==> retry.now - WINDOW == kept[0])
  {
    hide Recent, Hits, Admissions;
  }

  /** Enough room is there for every retry, and needed by one made at once when the wait is over. */
  lemma RetryWindow(calls: seq<Call>, c: Call, between: seq<Call>, retry: Call)
    requires c.rpm > 0 && !AdmitsNext(calls, c)
    requires Recent(Hits(calls), c.now - WINDOW) != [] && IsRetry(calls, c, between, retry)
    ensures Younger(calls, c) < c.rpm ==> AdmitsNext(calls + [c] + between, retry)
    ensures between == [] && retry.now == c.now + RetryAfter(Hits(calls), c.now) ==>
      (AdmitsNext(calls + [c] + between, retry) <==> Younger(calls, c) < c.rpm)
  {
    hide *;
    var first, kept := calls + [c], Recent(Hits(calls), c.now - WINDOW);
    RefusedHasHits(calls, c);
    RetryUnfolds(calls, c, between, retry);
    AdmitsIs(first + between, retry);
    HitsOnlyAge(first, between, retry.now - WINDOW);
    RecentShrinks(kept, kept[0], retry.now - WINDOW);
    if between == [] {
      assert first + between == first;
    }
  }

  /** Whatever limits were in force before and however the clock readings come: all retries at or after the announced
      time, while nobody is admitted in between, are admitted exactly when the limit exceeds the number of hits
      younger than the one the wait is counted from. */
  lemma RetriesAreAdmittedIff(calls: seq<Call>, c: Call)
    requires c.rpm > 0 && !AdmitsNext(calls, c)
    ensures Recent(Hits(calls), c.now - WINDOW) != []
    ensures (forall between, retry | IsRetry(calls, c, between, retry) :: AdmitsNext(calls + [c] + between, retry))
      <==> Younger(calls, c) < c.rpm
  {
    hide *;
    RefusedHasHits(calls, c);
    var earliest := EarliestRetry(calls, c);
    RetryWindow(calls, c, [], earliest);
    if Younger(calls, c) < c.rpm {
      forall between, retry | IsRetry(calls, c, between, retry)
        ensures AdmitsNext(calls + [c] + between, retry)
      {
        RetryWindow(calls, c, between, retry);
      }
    }
  }

  /** The retry made at once when the wait is over. */
  lemma EarliestRetry(calls: seq<Call>, c: Call) returns (retry: Call)
    requires Recent(Hits(calls), c.now - WINDOW) != []
    ensures IsRetry(calls, c, [], retry) && retry.now == c.now + RetryAfter(Hits(calls), c.now)
  {
    hide *;
    retry := Call(c.now + RetryAfter(Hits(calls), c.now), c.rpm);
    RetryWhen(calls, c, retry);
  }

  lemma {:induction false} HitsBounded(calls: seq<Call>, rpm: int)
    requires rpm > 0 && forall c | c in calls :: c.rpm == rpm
    ensures |Hits(calls)| <= rpm
  {
    hide *;
    NoCalls();
    if calls != [] {
      var before, last := calls[..|calls| - 1], calls[|calls| - 1];
      assert calls == before + [last] && last in calls && forall c | c in before :: c in calls;
      HitsBounded(before, rpm);
      RunStep(before, last);
      AdmitsIs(before, last);
      HitsAfterIs(Hits(before), last.rpm, last.now);
    }
  }

  lemma YoungerIsFewer(kept: seq<int>)
    requires kept != []
    ensures |Recent(kept, kept[0])| < |kept|
  {
    assert |Recent(kept[1..], kept[0])| <= |kept[1..]|;
  }

  /** A caller refused by `c` who retries once the announced wait has passed is admitted, when the limit is constant
      and nobody was admitted in between. */
  lemma RetryIsAdmitted(calls: seq<Call>, c: Call, between: seq<Call>, retry: Call)
    requires c.rpm > 0 && !AdmitsNext(calls, c) && forall x | x in calls :: x.rpm == c.rpm
    requires Recent(Hits(calls), c.now - WINDOW) != [] && IsRetry(calls, c, between, retry)
    ensures AdmitsNext(calls + [c] + between, retry)
  {
    hide *;
    var kept := Recent(Hits(calls), c.now - WINDOW);
    RetryUnfolds(calls, c, between, retry);
    HitsBounded(calls, c.rpm);
    YoungerIsFewer(kept);
    RetryWindow(calls, c, between, retry);
  }

  /** Admitted at 0 and at 1 under a limit of 2, refused at 2 under a limit of 1, told to come back at 60s, and
      refused again then. */
  lemma RetryIsRefusedAgain()
    ensures var calls, c, retry := [Call(0, 2), Call(1, 2)], Call(2, 1), Call(WINDOW, 1);
      && Skewed(calls + [c] + [retry], 0) && !AdmitsNext(calls, c)
      && Recent(Hits(calls), c.now - WINDOW) != [] && IsRetry(calls, c, [], retry)
      && !AdmitsNext(calls + [c] + [], retry)
  {
    hide *;
    WindowIs();
    NoCalls();
    var a, b, c, retry := Call(0, 2), Call(1, 2), Call(2, 1), Call(WINDOW, 1);
    var calls := [a, b];
    assert [] + [a] == [a] && [a] + [b] == calls && [] + [0] == [0] && [0] + [1] == [0, 1];
    RecentOfOne(0, 1 - WINDOW);
    RecentOfOne(0, 2 - WINDOW);
    RecentOfOne(0, 0);
    RecentAppend([0], 1, 2 - WINDOW);
    RecentAppend([0], 1, 0);
    AdmittedNext([], a, [], []);
    AdmittedNext([a], b, [0], [0]);
    AdmitsIs(calls, c);
    RefusedHasHits(calls, c);
    RetryAfterIs([0, 1], 2);
    RetryWhen(calls, c, retry);
    AdmitsIs(calls + [c], retry);
    assert calls + [c] + [] == calls + [c];
    NoLaterAppend([], a, 1);
    NoLaterAppend([a], b, 1);
    NoLaterTo([a, b], 1, 2);
    NoLaterAppend([a, b], c, 2);
    NoLaterTo([a, b, c], 2, WINDOW);
    SkewedAppend([], a, 0);
    SkewedAppend([a], b, 0);
    SkewedAppend(calls, c, 0);
    SkewedAppend(calls + [c], retry, 0);
  }

  lemma RetryAfterIs(hits: seq<int>, now: int)
    requires Recent(hits, now - WINDOW) != []
    ensures RetryAfter(hits, now) == WINDOW - (now - Recent(hits, now - WINDOW)[0])
  {
    hide Recent;
  }

  lemma RetryWhen(calls: seq<Call>, c: Call, retry: Call)
    requires Recent(Hits(calls), c.now - WINDOW) != [] && retry.rpm == c.rpm
    requires retry.now >= c.now + RetryAfter(Hits(calls), c.now)
    ensures IsRetry(calls, c, [], retry)
  {
    hide Recent, Hits, Admissions;
    assert calls + [c] + [] == calls + [c];
  }

  lemma {:induction false} RecentIsSubset(hits: seq<int>, cutoff: int)
    ensures forall t | t in Recent(hits, cutoff) :: t in hits
  {
    if hits != [] {
      RecentIsSubset(hits[1..], cutoff);
    }
  }

  lemma {:induction false} HitsNoLater(calls: seq<Call>, t: int)
    requires NoLaterThan(calls, t)
    ensures forall x | x in Hits(calls) :: x <= t
  {
    hide *;
    NoCalls();
    if calls != [] {
      var before, last := calls[..|calls| - 1], calls[|calls| - 1];
      assert calls == before + [last];
      NoLaterPrefix(before, last, t);
      HitsNoLater(before, t);
      RunStep(before, last);
      HitsAfterIs(Hits(before), last.rpm, last.now);
      RecentIsSubset(Hits(before), last.now - WINDOW);
    }
  }

  /** The announced wait is positive, and longer than the window at most by what the reading was behind. */
  lemma WaitIsWithinWindow(calls: seq<Call>, c: Call, skew: nat)
    requires c.rpm > 0 && !AdmitsNext(calls, c) && NoLaterThan(calls, c.now + skew)
    ensures Recent(Hits(calls), c.now - WINDOW) != []
    ensures 0 < RetryAfter(Hits(calls), c.now) <= WINDOW + skew
  {
    hide *;
    RefusedHasHits(calls, c);
    HitsNoLater(calls, c.now + skew);
    RecentIsSubset(Hits(calls), c.now - WINDOW);
    RetryAfterIs(Hits(calls), c.now);
    var kept := Recent(Hits(calls), c.now - WINDOW);
    assert kept[0] in kept;
  }

  const SECOND := 1_000_000_000

  /** The Retry-After header: whole seconds, rounded up past the wait. */
  function RetryAfterHeader(retryAfter: int): (seconds: int)
    requires retryAfter >= 0
    ensures seconds * 1_000_000_000 > retryAfter >= (seconds - 1) * 1_000_000_000
  {
    retryAfter / SECOND + 1
  }
}
