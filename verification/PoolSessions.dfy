/** Session stickiness of internal/pool/pool.go on values: the map, the LRU list, and
    what they remember of the history of Pick calls. Times are nanoseconds. */
module PoolSessions {
  import opened Options

  const STICKY_TTL := 600_000_000_000
  const STICKY_MAX := 1000

  datatype Session = Session(account: string, expiresAt: int)

  /** `lru` is oldest first. */
  datatype Sessions = Sessions(sticky: map<string, Session>, lru: seq<string>)

  const NO_SESSIONS := Sessions(map[], [])

  /** The list without the first `key`. */
  function Without(list: seq<string>, key: string): seq<string> {
    if list == [] then []
    else if list[0] == key then list[1..]
    else [list[0]] + Without(list[1..], key)
  }

  /** removeSticky */
  function Remove(s: Sessions, key: string): Sessions {
    if key in s.sticky then Sessions(s.sticky - {key}, Without(s.lru, key)) else s
  }

  /** The cap: drop the front while the map is full. */
  function Evict(s: Sessions): Sessions
    decreases |s.lru|, |s.sticky|
  {
    if |s.sticky| >= STICKY_MAX && s.lru != [] && s.lru[0] in s.sticky then
      WithoutFirst(s.lru);
      Evict(Remove(s, s.lru[0]))
    else s
  }

  lemma WithoutFirst(list: seq<string>)
    requires list != []
    ensures Without(list, list[0]) == list[1..]
  {
  }

  /** setSticky; also what a hit does, with the session's own account. */
  function Put(s: Sessions, key: string, account: string, now: int): Sessions {
    var session := Session(account, now + STICKY_TTL);
    if key in s.sticky then Sessions(s.sticky[key := session], Without(s.lru, key) + [key])
    else
      var t := Evict(s);
      Sessions(t.sticky[key := session], t.lru + [key])
  }

  /** A Pick call: the affinity key, the clock, the usable and not excluded accounts, and the
      account the weighted draw would give. */
  datatype Call = Call(key: string, now: int, usable: set<string>, drawn: Option<string>)

  predicate IsHit(s: Sessions, c: Call) {
    && c.key != "" && c.key in s.sticky
    && c.now <= s.sticky[c.key].expiresAt && s.sticky[c.key].account in c.usable
  }

  function Expire(s: Sessions, c: Call): Sessions {
    if c.key != "" && c.key in s.sticky && c.now > s.sticky[c.key].expiresAt then Remove(s, c.key) else s
  }

  function Picked(s: Sessions, c: Call): Option<string> {
    if IsHit(s, c) then Some(s.sticky[c.key].account) else c.drawn
  }

  /** Pick */
  function Step(s: Sessions, c: Call): Sessions {
    var p := Picked(s, c);
    if c.key != "" && p.Some? then Put(Expire(s, c), c.key, p.value, c.now) else Expire(s, c)
  }

  // ---- invariant ----

  predicate NoDuplicates(list: seq<string>) {
    forall i, j | 0 <= i < j < |list| :: list[i] != list[j]
  }

  /** `x` stands somewhere before `y`. */
  ghost predicate Before(list: seq<string>, x: string, y: string) {
    exists i, j :: 0 <= i < j < |list| && list[i] == x && list[j] == y
  }

  ghost predicate Valid(s: Sessions, now: int) {
    && (forall k :: k in s.lru <==> k in s.sticky)
    && NoDuplicates(s.lru)
    && |s.lru| <= STICKY_MAX
    && (forall k | k in s.sticky :: s.sticky[k].expiresAt <= now + STICKY_TTL)
    && (forall x, y | Before(s.lru, x, y) :: x in s.sticky && y in s.sticky
          && s.sticky[x].expiresAt <= s.sticky[y].expiresAt)
  }

  lemma {:induction false} WithoutIsCut(list: seq<string>, key: string) returns (i: nat)
    requires key in list
    ensures i < |list| && list[i] == key && Without(list, key) == list[..i] + list[i + 1..]
  {
    if list[0] == key {
      i := 0;
    } else {
      assert key in list[1..];
      var j := WithoutIsCut(list[1..], key);
      i := j + 1;
      assert list[..i] == [list[0]] + list[1..][..j];
    }
  }

  lemma CutMembers(list: seq<string>, i: nat)
    requires i < |list| && NoDuplicates(list)
    ensures var w := list[..i] + list[i + 1..];
      NoDuplicates(w) && forall k :: k in w <==> k in list && k != list[i]
  {
    var w := list[..i] + list[i + 1..];
    assert forall n | 0 <= n < |w| :: w[n] == list[if n < i then n else n + 1];
    forall k ensures k in w <==> k in list && k != list[i] {
      if k in list && k != list[i] {
        var n :| 0 <= n < |list| && list[n] == k;
        assert w[if n < i then n else n - 1] == k;
      }
    }
  }

  lemma CutOrder(list: seq<string>, i: nat, x: string, y: string)
    requires i < |list| && Before(list[..i] + list[i + 1..], x, y)
    ensures Before(list, x, y)
  {
    var w := list[..i] + list[i + 1..];
    var a, b :| 0 <= a < b < |w| && w[a] == x && w[b] == y;
    assert list[if a < i then a else a + 1] == x && list[if b < i then b else b + 1] == y;
  }

  lemma WithoutKeeps(list: seq<string>, key: string)
    requires NoDuplicates(list) && key in list
    ensures var w := Without(list, key);
      && |w| == |list| - 1 && NoDuplicates(w)
      && (forall k :: k in w <==> k in list && k != key)
      && (forall x, y | Before(w, x, y) :: Before(list, x, y))
  {
    var i := WithoutIsCut(list, key);
    CutMembers(list, i);
    hide *;
    forall x, y | Before(Without(list, key), x, y) ensures Before(list, x, y) {
      CutOrder(list, i, x, y);
    }
  }

  lemma AppendKeeps(list: seq<string>, key: string)
    requires NoDuplicates(list) && key !in list
    ensures NoDuplicates(list + [key])
    ensures forall k :: k in list + [key] <==> k in list || k == key
    ensures forall x, y | Before(list + [key], x, y) :: x in list && (y == key || Before(list, x, y))
  {
    var all := list + [key];
    forall x, y | Before(all, x, y) ensures x in list && (y == key || Before(list, x, y)) {
      var a, b :| 0 <= a < b < |all| && all[a] == x && all[b] == y;
      assert list[a] == x;
      if b < |list| {
        assert list[b] == y;
      }
    }
  }

  lemma {:induction false} SizeOfList(list: seq<string>, keys: set<string>)
    requires NoDuplicates(list) && forall k :: k in list <==> k in keys
    ensures |keys| == |list|
  {
    if list == [] {
      assert keys == {};
    } else {
      var rest := list[1..];
      forall k ensures k in rest <==> k in keys - {list[0]} {
        if k in keys - {list[0]} {
          var n :| 0 <= n < |list| && list[n] == k;
          assert rest[n - 1] == k;
        }
      }
      SizeOfList(rest, keys - {list[0]});
      assert list[0] in keys;
    }
  }

  lemma RemoveKeeps(s: Sessions, key: string, now: int)
    requires Valid(s, now) && key in s.sticky
    ensures var t := Remove(s, key);
      && Valid(t, now) && t.sticky == s.sticky - {key} && |t.lru| == |s.lru| - 1
      && (forall x, y | Before(t.lru, x, y) :: Before(s.lru, x, y))
  {
    WithoutKeeps(s.lru, key);
    var t := Remove(s, key);
    forall x, y | Before(t.lru, x, y)
      ensures x in t.sticky && y in t.sticky && t.sticky[x].expiresAt <= t.sticky[y].expiresAt
    {
      assert Before(s.lru, x, y);
      assert x in t.lru && y in t.lru;
    }
  }

  /** With the invariant the cap drops at most the front. */
  lemma EvictDropsFront(s: Sessions, now: int)
    requires Valid(s, now)
    ensures Evict(s) == if |s.lru| < STICKY_MAX then s else Remove(s, s.lru[0])
  {
    SizeOfList(s.lru, s.sticky.Keys);
    if |s.lru| == STICKY_MAX {
      var front := s.lru[0];
      assert front in s.lru;
      RemoveKeeps(s, front, now);
      var t := Remove(s, front);
      SizeOfList(t.lru, t.sticky.Keys);
    }
  }

  /** What Put does to a valid state. */
  lemma PutKeeps(s: Sessions, key: string, account: string, now: int)
    requires Valid(s, now)
    ensures var t := Put(s, key, account, now);
      && Valid(t, now) && key in t.sticky && t.sticky[key] == Session(account, now + STICKY_TTL)
      && (forall k | k in t.sticky && k != key :: k in s.sticky && t.sticky[k] == s.sticky[k])
      && (forall k | k in s.sticky && k !in t.sticky ::
            |s.lru| == STICKY_MAX && k == s.lru[0] && key !in s.sticky)
      && (forall x, y | Before(t.lru, x, y) :: x != key && (y == key || Before(s.lru, x, y)))
  {
    var base: Sessions;
    if key in s.sticky {
      base := Remove(s, key);
      RemoveKeeps(s, key, now);
    } else {
      base := Evict(s);
      EvictDropsFront(s, now);
      if |s.lru| == STICKY_MAX {
        assert s.lru[0] in s.lru;
        RemoveKeeps(s, s.lru[0], now);
      }
    }
    PushKeeps(base, key, account, now);
    var t := Put(s, key, account, now);
    assert t.lru == base.lru + [key];
    assert t.sticky == base.sticky[key := Session(account, now + STICKY_TTL)];
  }

  lemma PushKeeps(s: Sessions, key: string, account: string, now: int)
    requires Valid(s, now) && key !in s.sticky && |s.lru| < STICKY_MAX
    ensures var t := Sessions(s.sticky[key := Session(account, now + STICKY_TTL)], s.lru + [key]);
      && Valid(t, now)
      && (forall x, y | Before(t.lru, x, y) :: x != key && (y == key || Before(s.lru, x, y)))
  {
    AppendKeeps(s.lru, key);
  }

  lemma LaterIsValid(s: Sessions, now: int, later: int)
    requires Valid(s, now) && now <= later
    ensures Valid(s, later)
  {
  }

  lemma ExpireKeeps(s: Sessions, c: Call)
    requires Valid(s, c.now)
    ensures var t := Expire(s, c);
      && Valid(t, c.now)
      && t.sticky == (if c.key in s.sticky && t != s then s.sticky - {c.key} else s.sticky)
      && (t != s ==> c.key in s.sticky && c.now > s.sticky[c.key].expiresAt && c.key != "")
      && (forall x, y | Before(t.lru, x, y) :: Before(s.lru, x, y))
  {
    if Expire(s, c) != s {
      RemoveKeeps(s, c.key, c.now);
    }
  }

  // ---- whole runs ----

  ghost predicate Timed(calls: seq<Call>) {
    calls != [] ==>
      var before, last := calls[..|calls| - 1], calls[|calls| - 1];
      Timed(before) && (before != [] ==> before[|before| - 1].now <= last.now)
  }

  function Run(calls: seq<Call>): Sessions {
    if calls == [] then NO_SESSIONS else Step(Run(calls[..|calls| - 1]), calls[|calls| - 1])
  }

  /** The last account the history gave to `key`, and when. */
  function LastPick(calls: seq<Call>, key: string): Option<(string, int)> {
    if calls == [] then None
    else
      var before, last := calls[..|calls| - 1], calls[|calls| - 1];
      var p := Picked(Run(before), last);
      if last.key == key && p.Some? then Some((p.value, last.now)) else LastPick(before, key)
  }

  /** The distinct other keys that were given an account since `key` last was. */
  function PickedSince(calls: seq<Call>, key: string): set<string> {
    if calls == [] then {}
    else
      var before, last := calls[..|calls| - 1], calls[|calls| - 1];
      if last.key == "" || Picked(Run(before), last).None? then PickedSince(before, key)
      else if last.key == key then {}
      else PickedSince(before, key) + {last.key}
  }

  /** Every session is the last account its key was given. */
  ghost predicate Current(s: Sessions, calls: seq<Call>) {
    forall k | k in s.sticky :: LastPick(calls, k) == Some((s.sticky[k].account, s.sticky[k].expiresAt - STICKY_TTL))
  }

  /** The list is in order of the last pick. */
  ghost predicate Recency(s: Sessions, calls: seq<Call>) {
    forall x, y | Before(s.lru, x, y) :: y in PickedSince(calls, x)
  }

  /** A key that is missing was passed by enough others, or is too old. */
  ghost predicate Complete(s: Sessions, calls: seq<Call>, now: int) {
    forall k | k != "" && LastPick(calls, k).Some? && k !in s.sticky ::
      |PickedSince(calls, k)| >= STICKY_MAX || now > LastPick(calls, k).value.1 + STICKY_TTL
  }

  /** What the sessions remember of the history, seen at time `now`. */
  ghost predicate Remembers(s: Sessions, calls: seq<Call>, now: int) {
    Valid(s, now) && "" !in s.sticky && Current(s, calls) && Recency(s, calls) && Complete(s, calls, now)
  }

  /** How the history functions grow by one call. */
  lemma HistoryStep(calls: seq<Call>, c: Call)
    ensures Run(calls + [c]) == Step(Run(calls), c)
    ensures var p := Picked(Run(calls), c);
      && (forall k :: LastPick(calls + [c], k) ==
            (if c.key == k && p.Some? then Some((p.value, c.now)) else LastPick(calls, k)))
      && (forall k :: PickedSince(calls + [c], k) ==
            (if c.key == "" || p.None? then PickedSince(calls, k)
             else if c.key == k then {}
             else PickedSince(calls, k) + {c.key}))
  {
    assert (calls + [c])[..|calls|] == calls;
  }

  lemma TimedPrefix(calls: seq<Call>, c: Call)
    requires Timed(calls + [c])
    ensures Timed(calls) && (calls != [] ==> calls[|calls| - 1].now <= c.now)
  {
    assert (calls + [c])[..|calls|] == calls;
  }

  lemma RemembersLater(s: Sessions, calls: seq<Call>, now: int, later: int)
    requires Remembers(s, calls, now) && now <= later
    ensures Remembers(s, calls, later)
  {
    LaterIsValid(s, now, later);
  }

  /** A cap eviction needs a full list, all of it picked since the front. */
  lemma FrontWasPassed(s: Sessions, calls: seq<Call>, now: int, key: string)
    requires Remembers(s, calls, now) && |s.lru| == STICKY_MAX && key !in s.sticky
    ensures |PickedSince(calls, s.lru[0]) + {key}| >= STICKY_MAX == 1000
  {
    var front, rest := s.lru[0], s.lru[1..];
    var others := set k | k in rest;
    SizeOfList(rest, others);
    forall y | y in others ensures y in PickedSince(calls, front) {
      var j :| 0 <= j < |rest| && rest[j] == y;
      assert s.lru[0] == front && s.lru[j + 1] == y;
      assert Before(s.lru, front, y);
    }
    assert key !in others by {
      assert forall k | k in others :: k in s.lru;
    }
    Subset(others + {key}, PickedSince(calls, front) + {key});
  }

  lemma Subset(a: set<string>, b: set<string>)
    requires a <= b
    ensures |a| <= |b|
  {
    if a != {} {
      var x :| x in a;
      Subset(a - {x}, b - {x});
    }
  }

  /** Expiry forgets only what is too old. */
  lemma RemembersExpire(s: Sessions, calls: seq<Call>, c: Call)
    requires Remembers(s, calls, c.now)
    ensures Remembers(Expire(s, c), calls, c.now)
  {
    hide *;
    RemembersIs(s, calls, c.now);
    ExpireKeeps(s, c);
    ExpireCurrent(s, calls, c);
    ExpireRecency(s, calls, c);
    ExpireComplete(s, calls, c);
    RemembersWhen(Expire(s, c), calls, c.now);
  }

  lemma RemembersIs(s: Sessions, calls: seq<Call>, now: int)
    requires Remembers(s, calls, now)
    ensures Valid(s, now) && "" !in s.sticky && Current(s, calls) && Recency(s, calls) && Complete(s, calls, now)
  {
    hide Valid, Current, Recency, Complete;
  }

  lemma RemembersWhen(s: Sessions, calls: seq<Call>, now: int)
    requires Valid(s, now) && "" !in s.sticky && Current(s, calls) && Recency(s, calls) && Complete(s, calls, now)
    ensures Remembers(s, calls, now)
  {
    hide Valid, Current, Recency, Complete;
  }

  lemma ExpireCurrent(s: Sessions, calls: seq<Call>, c: Call)
    requires Valid(s, c.now) && Current(s, calls)
    ensures Current(Expire(s, c), calls)
  {
    hide Valid, LastPick, Expire, Before, PickedSince;
    ExpireKeeps(s, c);
    assert forall k | k in Expire(s, c).sticky :: k in s.sticky && Expire(s, c).sticky[k] == s.sticky[k];
  }

  lemma ExpireRecency(s: Sessions, calls: seq<Call>, c: Call)
    requires Valid(s, c.now) && Recency(s, calls)
    ensures Recency(Expire(s, c), calls)
  {
    hide Valid, LastPick, Expire, Before, PickedSince;
    ExpireKeeps(s, c);
  }

  lemma ExpireComplete(s: Sessions, calls: seq<Call>, c: Call)
    requires Valid(s, c.now) && Current(s, calls) && Complete(s, calls, c.now)
    ensures Complete(Expire(s, c), calls, c.now)
  {
    hide Valid, LastPick, Expire, Before, PickedSince;
    ExpireKeeps(s, c);
  }

  lemma PutCurrent(s: Sessions, calls: seq<Call>, c: Call, account: string)
    requires Valid(s, c.now) && Current(s, calls)
    requires Picked(Run(calls), c) == Some(account)
    ensures Current(Put(s, c.key, account, c.now), calls + [c])
  {
    PutKeeps(s, c.key, account, c.now);
    HistoryStep(calls, c);
    hide Valid, LastPick, PickedSince, Put, Before, Picked, Run;
  }

  lemma PutRecency(s: Sessions, calls: seq<Call>, c: Call, account: string)
    requires Valid(s, c.now) && Recency(s, calls) && c.key != ""
    requires Picked(Run(calls), c) == Some(account)
    ensures Recency(Put(s, c.key, account, c.now), calls + [c])
  {
    PutKeeps(s, c.key, account, c.now);
    HistoryStep(calls, c);
    hide Valid, LastPick, PickedSince, Put, Before, Picked, Run;
  }

  lemma PutComplete(s: Sessions, calls: seq<Call>, c: Call, account: string)
    requires Remembers(s, calls, c.now) && c.key != ""
    requires Picked(Run(calls), c) == Some(account)
    ensures Complete(Put(s, c.key, account, c.now), calls + [c], c.now)
  {
    PutKeeps(s, c.key, account, c.now);
    HistoryStep(calls, c);
    if |s.lru| == STICKY_MAX && c.key !in s.sticky {
      FrontWasPassed(s, calls, c.now, c.key);
    }
    hide Valid, LastPick, PickedSince, Put, Before, Picked, Run, Current, Recency;
    forall k | k != "" && LastPick(calls + [c], k).Some? && k !in Put(s, c.key, account, c.now).sticky
      ensures |PickedSince(calls + [c], k)| >= STICKY_MAX || c.now > LastPick(calls + [c], k).value.1 + STICKY_TTL
    {
      Subset(PickedSince(calls, k), PickedSince(calls, k) + {c.key});
    }
  }

  lemma RemembersPut(s: Sessions, calls: seq<Call>, c: Call, account: string)
    requires Remembers(s, calls, c.now) && c.key != ""
    requires Picked(Run(calls), c) == Some(account)
    ensures Remembers(Put(s, c.key, account, c.now), calls + [c], c.now)
  {
    PutKeeps(s, c.key, account, c.now);
    PutCurrent(s, calls, c, account);
    PutRecency(s, calls, c, account);
    PutComplete(s, calls, c, account);
    hide Valid, Put, Current, Recency, Complete;
  }

  lemma {:induction false} RunRemembers(calls: seq<Call>, now: int)
    requires Timed(calls) && (calls != [] ==> calls[|calls| - 1].now <= now)
    ensures Remembers(Run(calls), calls, now)
  {
    if calls != [] {
      var before, c := calls[..|calls| - 1], calls[|calls| - 1];
      assert calls == before + [c];
      TimedPrefix(before, c);
      RunRemembers(before, c.now);
      StepRemembers(before, c);
      RemembersLater(Run(calls), calls, c.now, now);
    }
  }

  lemma StepRemembers(calls: seq<Call>, c: Call)
    requires Remembers(Run(calls), calls, c.now)
    ensures Remembers(Run(calls + [c]), calls + [c], c.now)
  {
    var s := Run(calls);
    HistoryStep(calls, c);
    RemembersExpire(s, calls, c);
    var p := Picked(s, c);
    if c.key != "" && p.Some? {
      RemembersPut(Expire(s, c), calls, c, p.value);
    } else {
      RemembersQuiet(Expire(s, c), calls, c);
    }
  }

  /** A call that gives no account, or has no key, leaves the memory as it was. */
  lemma RemembersQuiet(s: Sessions, calls: seq<Call>, c: Call)
    requires Remembers(s, calls, c.now)
    requires c.key == "" || Picked(Run(calls), c).None?
    ensures Remembers(s, calls + [c], c.now)
  {
    HistoryStep(calls, c);
    assert forall k | k != "" :: LastPick(calls + [c], k) == LastPick(calls, k);
    assert forall k :: PickedSince(calls + [c], k) == PickedSince(calls, k);
    assert forall x, y | Before(s.lru, x, y) :: x in s.sticky;
  }

  /** After any run of calls the map and the list hold the same keys once each, at most 1000,
      ordered by expiry, and each session is the last account its key was given. */
  lemma SessionsAreSound(calls: seq<Call>)
    requires Timed(calls) && calls != []
    ensures var s := Run(calls);
      && (forall k :: k in s.lru <==> k in s.sticky) && NoDuplicates(s.lru)
      && |s.lru| == |s.sticky| <= 1000
      && (forall i, j | 0 <= i < j < |s.lru| ::
            s.lru[i] in s.sticky && s.lru[j] in s.sticky
            && s.sticky[s.lru[i]].expiresAt <= s.sticky[s.lru[j]].expiresAt)
      && (forall k | k in s.sticky ::
            LastPick(calls, k) == Some((s.sticky[k].account, s.sticky[k].expiresAt - 600_000_000_000)))
  {
    hide Run, LastPick, PickedSince, NoDuplicates, Complete, Recency;
    var s := Run(calls);
    RunRemembers(calls, calls[|calls| - 1].now);
    SizeOfList(s.lru, s.sticky.Keys);
    forall i, j | 0 <= i < j < |s.lru|
      ensures s.lru[i] in s.sticky && s.lru[j] in s.sticky
           && s.sticky[s.lru[i]].expiresAt <= s.sticky[s.lru[j]].expiresAt
    {
      assert Before(s.lru, s.lru[i], s.lru[j]);
    }
  }

  /** A session picked within the TTL, with fewer than 1000 other keys picked since, is still
      there; if its account is usable and not excluded, the next call gets it again. */
  lemma FreshSessionKeepsItsAccount(calls: seq<Call>, c: Call, account: string, at: int)
    requires Timed(calls + [c]) && c.key != ""
    requires LastPick(calls, c.key) == Some((account, at))
    requires c.now <= at + 600_000_000_000 && |PickedSince(calls, c.key)| < 1000
    ensures c.key in Run(calls).sticky
    ensures account in c.usable ==> Picked(Run(calls), c) == Some(account)
  {
    TimedPrefix(calls, c);
    RunRemembers(calls, c.now);
  }

  /** Conversely, an account given without a draw is the one the key had last, within the TTL. */
  lemma HitIsLastPick(calls: seq<Call>, c: Call)
    requires Timed(calls + [c]) && IsHit(Run(calls), c)
    ensures LastPick(calls, c.key).Some?
    ensures var (account, at) := LastPick(calls, c.key).value;
      Picked(Run(calls), c) == Some(account) && c.now <= at + 600_000_000_000 && account in c.usable
  {
    TimedPrefix(calls, c);
    RunRemembers(calls, c.now);
  }
}
