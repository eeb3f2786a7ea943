/** Pick of internal/pool/pool.go: a sticky session first, else a draw weighted by quota. */
module Pool {
  import opened Options
  import opened PoolEntry
  import opened PoolSessions

  // ---- the weighted draw, over reals ----

  /** The sum of the first `n` weights. */
  function Prefix(ws: seq<real>, n: nat): real
    requires n <= |ws|
  {
    if n == 0 then 0.0 else Prefix(ws, n - 1) + ws[n - 1]
  }

  function Total(ws: seq<real>): real { Prefix(ws, |ws|) }

  ghost predicate Weights(ws: seq<real>) {
    ws != [] && forall w | w in ws :: MIN_WEIGHT <= w <= 1.0
  }

  /** Candidate `i` is the first whose running sum reaches `target`. */
  predicate Reaches(ws: seq<real>, target: real, i: nat)
    requires i < |ws|
  {
    (i == 0 || Prefix(ws, i) < target) && target <= Prefix(ws, i + 1)
  }

  predicate Drawn(ws: seq<real>, u: real, i: nat)
    requires i < |ws|
  {
    Reaches(ws, u * Total(ws), i)
  }

  /** The second half of Pick: subtract weights until nothing is left; the fallback to the
      last candidate is there, and Drawn says it is never taken. */
  method Draw(ws: seq<real>, total: real, u: real) returns (picked: int)
    requires Weights(ws) && total == Total(ws) && 0.0 <= u < 1.0
    ensures 0 <= picked < |ws| && Drawn(ws, u, picked)
  {
    var r := u * total;
    PrefixGrows(ws, 0, |ws|);
    DrawReachesTotal(u, total);
    picked := Subtract(ws, r);
    if picked < 0 {
      picked := |ws| - 1;
    }
  }

  /** The loop of the draw. */
  method Subtract(ws: seq<real>, target: real) returns (picked: int)
    requires ws != [] && target <= Total(ws)
    ensures 0 <= picked < |ws| && Reaches(ws, target, picked)
  {
    var r := target;
    picked := -1;
    var i := 0;
    while i < |ws| && picked < 0
      invariant 0 <= i <= |ws|
      invariant r == target - Prefix(ws, i)
      invariant picked < 0 ==> i == 0 || r > 0.0
      invariant picked >= 0 ==> picked == i - 1 && Reaches(ws, target, picked)
    {
      r := r - ws[i];
      if r <= 0.0 {
        picked := i;
      }
      i := i + 1;
    }
  }

  lemma DrawReachesTotal(u: real, total: real)
    requires 0.0 <= u < 1.0 && total >= 0.0
    ensures u * total <= total
  {
  }

  lemma {:induction false} PrefixGrows(ws: seq<real>, i: nat, j: nat)
    requires Weights(ws) && i <= j <= |ws|
    ensures Prefix(ws, i) + (j - i) as real * MIN_WEIGHT <= Prefix(ws, j)
  {
    if i < j {
      assert ws[j - 1] in ws;
      PrefixGrows(ws, i, j - 1);
    }
  }

  /** Where the draws that select candidate `i` begin and end. */
  function Lower(ws: seq<real>, i: nat): real
    requires i <= |ws| && Total(ws) > 0.0
  {
    Prefix(ws, i) / Total(ws)
  }

  lemma TotalIsPositive(ws: seq<real>)
    requires Weights(ws)
    ensures Total(ws) > 0.0
  {
    PrefixGrows(ws, 0, |ws|);
  }

  lemma ScaleByTotal(u: real, p: real, total: real)
    requires total > 0.0
    ensures u * total <= p <==> u <= p / total
  {
    var q := p / total;
    assert q * total == p;
    if u <= q {
      assert (q - u) * total >= 0.0;
    } else {
      assert (u - q) * total > 0.0;
    }
  }

  /** The draws that select candidate `i` are the interval (Lower(i), Lower(i+1)], closed at 0
      for the first one; its length is the candidate's share of the total weight, the intervals
      meet without gap, and together they cover [0, 1]. */
  lemma DrawsAreAnInterval(ws: seq<real>, i: nat, u: real)
    requires Weights(ws) && i < |ws| && 0.0 <= u < 1.0
    ensures Total(ws) > 0.0
    ensures Drawn(ws, u, i) <==> (i == 0 || Lower(ws, i) < u) && u <= Lower(ws, i + 1)
    ensures Lower(ws, i + 1) - Lower(ws, i) == ws[i] / Total(ws) > 0.0
    ensures Lower(ws, 0) == 0.0 && Lower(ws, |ws|) == 1.0
  {
    TotalIsPositive(ws);
    ScaleByTotal(u, Prefix(ws, i), Total(ws));
    ScaleByTotal(u, Prefix(ws, i + 1), Total(ws));
    assert ws[i] in ws;
  }

  /** A draw selects one candidate only. */
  lemma DrawIsUnique(ws: seq<real>, u: real, i: nat, j: nat)
    requires Weights(ws) && i < j < |ws| && Drawn(ws, u, i)
    ensures !Drawn(ws, u, j)
  {
    PrefixGrows(ws, i + 1, j);
  }

  /** How much of [0, 1] the draws that select candidate `i` take up. */
  function Share(ws: seq<real>, i: nat): real
    requires i < |ws| && Total(ws) > 0.0
  {
    Lower(ws, i + 1) - Lower(ws, i)
  }

  lemma ShareIsWeight(ws: seq<real>, i: nat, j: nat)
    requires Weights(ws) && i < |ws| && j < |ws|
    ensures Total(ws) > 0.0
    ensures Share(ws, i) > Share(ws, j) <==> ws[i] > ws[j]
  {
    DrawsAreAnInterval(ws, i, 0.0);
    DrawsAreAnInterval(ws, j, 0.0);
    hide *;
    ShareIs(ws, i);
    ShareIs(ws, j);
    Scale(ws[i], ws[j], Total(ws));
  }

  lemma ShareIs(ws: seq<real>, i: nat)
    requires i < |ws| && Total(ws) > 0.0
    ensures Share(ws, i) == Lower(ws, i + 1) - Lower(ws, i)
  {
  }

  lemma Scale(a: real, b: real, total: real)
    requires total > 0.0
    ensures a / total > b / total <==> a > b
  {
    assert (a / total) * total == a && (b / total) * total == b;
    ScaleByTotal(a / total, b, total);
  }

  // ---- the pool ----

  class Pool {
    var entries: map<string, Entry>
    var sticky: map<string, Session>
    var lru: seq<string>
    ghost var clock: int

    constructor (entries: map<string, Entry>)
      requires forall id | id in entries :: entries[id].id == id
      ensures this.entries == entries && Valid() && State() == NO_SESSIONS
    {
      this.entries := entries;
      sticky, lru, clock := map[], [], 0;
    }

    function State(): Sessions
      reads this`sticky, this`lru
    {
      Sessions(sticky, lru)
    }

    ghost predicate Valid()
      reads this
    {
      && PoolSessions.Valid(State(), clock)
      && forall id | id in entries :: entries[id].id == id
    }

    function Candidates(exclude: set<string>, now: int): set<string>
      reads this`entries, entries.Values
    {
      set id | id in entries && id !in exclude && entries[id].Usable(now)
    }

    function WeightOf(id: string): real
      requires id in entries
      reads this`entries, entries.Values
    {
      Weight(entries[id].limits)
    }

    method RemoveSticky(key: string)
      modifies this`sticky, this`lru
      ensures State() == Remove(old(State()), key)
    {
      if key in sticky {
        lru := Without(lru, key);
        sticky := sticky - {key};
      }
    }

    method SetSticky(key: string, account: string, now: int)
      requires PoolSessions.Valid(State(), now)
      modifies this`sticky, this`lru
      ensures State() == Put(old(State()), key, account, now) && PoolSessions.Valid(State(), now)
    {
      PutKeeps(State(), key, account, now);
      var session := Session(account, now + STICKY_TTL);
      if key in sticky {
        sticky := sticky[key := session];
        lru := Without(lru, key) + [key];
        return;
      }
      while |sticky| >= STICKY_MAX
        invariant PoolSessions.Valid(State(), now) && key !in sticky
        invariant Evict(State()) == Evict(old(State()))
        decreases |lru|
      {
        if lru == [] {
          break;
        }
        var front := lru[0];
        assert front in lru;
        RemoveKeeps(State(), front, now);
        RemoveSticky(front);
      }
      lru := lru + [key];
      sticky := sticky[key := session];
    }

    /** The accounts that may be drawn, in some order, and their weights. */
    method Collect(exclude: set<string>, now: int) returns (ids: seq<string>, ws: seq<real>, total: real)
      ensures NoDuplicates(ids) && forall id :: id in ids <==> id in Candidates(exclude, now)
      ensures |ws| == |ids| && forall i | 0 <= i < |ids| :: ids[i] in entries && ws[i] == WeightOf(ids[i])
      ensures total == Total(ws)
    {
      ids, ws, total := [], [], 0.0;
      var rest := entries.Keys;
      while rest != {}
        invariant rest <= entries.Keys && total == Total(ws)
        invariant NoDuplicates(ids) && forall id :: id in ids <==> id in Candidates(exclude, now) && id !in rest
        invariant |ws| == |ids| && forall i | 0 <= i < |ids| :: ids[i] in entries && ws[i] == WeightOf(ids[i])
        decreases |rest|
      {
        var id :| id in rest;
        rest := rest - {id};
        var e := entries[id];
        if id !in exclude && e.Usable(now) {
          PrefixOfAppend(ws, Weight(e.limits), |ws|);
          ids := ids + [id];
          ws := ws + [Weight(e.limits)];
          total := total + Weight(e.limits);
        }
      }
    }

    /** The call Pick makes, as the history of sessions sees it. */
    function CallOf(exclude: set<string>, key: string, now: int, picked: Entry?): Call
      reads this`entries, entries.Values
    {
      Call(key, now, Candidates(exclude, now), if picked == null then None else Some(picked.id))
    }

    /** Pick, first half: the session's account if it may be used; an expired session goes. */
    method PickSticky(exclude: set<string>, key: string, now: int) returns (picked: Entry?)
      requires Valid() && clock == now
      modifies this`sticky, this`lru
      ensures Valid()
      ensures var c := Call(key, now, Candidates(exclude, now), None);
        if IsHit(old(State()), c) then
          && picked != null && picked.id == old(sticky)[key].account && picked.id in Candidates(exclude, now)
          && entries[picked.id] == picked
          && State() == Put(old(State()), key, picked.id, now)
        else picked == null && State() == Expire(old(State()), c)
    {
      picked := null;
      if key != "" && key in sticky {
        var se := sticky[key];
        if now > se.expiresAt {
          RemoveKeeps(State(), key, now);
          RemoveSticky(key);
        } else if se.account in entries && se.account !in exclude && entries[se.account].Usable(now) {
          PutKeeps(State(), key, se.account, now);
          lru := Without(lru, key) + [key];
          sticky := sticky[key := Session(se.account, now + STICKY_TTL)];
          picked := entries[se.account];
        }
      }
    }

    /** The order and the weights of the candidates a draw used. */
    ghost predicate IsDraw(exclude: set<string>, now: int, u: real, id: string, ids: seq<string>, ws: seq<real>)
      reads this`entries, entries.Values
    {
      && NoDuplicates(ids) && (forall x :: x in ids <==> x in Candidates(exclude, now))
      && |ws| == |ids| && (forall i | 0 <= i < |ids| :: ids[i] in entries && ws[i] == WeightOf(ids[i]))
      && Weights(ws) && exists i: nat | i < |ids| :: ids[i] == id && Drawn(ws, u, i)
    }

    /** Pick, second half: a draw weighted by quota. */
    method PickWeighted(exclude: set<string>, now: int, u: real)
      returns (picked: Entry?, ghost ids: seq<string>, ghost ws: seq<real>)
      requires Valid() && 0.0 <= u < 1.0
      ensures picked == null <==> Candidates(exclude, now) == {}
      ensures picked != null ==> IsDraw(exclude, now, u, picked.id, ids, ws) && entries[picked.id] == picked
      ensures picked != null ==> picked.id in Candidates(exclude, now)
    {
      var order, weights, total := Collect(exclude, now);
      ids, ws := order, weights;
      if |order| == 0 {
        picked := null;
        assert forall id :: id !in Candidates(exclude, now);
        return;
      }
      forall w | w in weights ensures MIN_WEIGHT <= w <= 1.0 {
        var i :| 0 <= i < |weights| && weights[i] == w;
        WeightBounds(entries[order[i]].limits);
      }
      var i := Draw(weights, total, u);
      assert order[i] in order;
      picked := entries[order[i]];
    }

    /** An account is returned exactly when a usable, not excluded one exists, and is such a one;
        the sessions change as in the history; without a hit the account was drawn by weight. */
    method Pick(exclude: set<string>, affinityKey: string, now: int, u: real)
      returns (picked: Entry?, ghost ids: seq<string>, ghost ws: seq<real>)
      requires Valid() && clock <= now && 0.0 <= u < 1.0
      modifies this`sticky, this`lru, this`clock
      ensures Valid() && clock == now
      ensures picked == null <==> Candidates(exclude, now) == {}
      ensures picked != null ==> picked.id in Candidates(exclude, now) && entries[picked.id] == picked
      ensures var c := CallOf(exclude, affinityKey, now, picked);
        && State() == Step(old(State()), c)
        && Picked(old(State()), c) == c.drawn
        && (picked != null && !IsHit(old(State()), c) ==> IsDraw(exclude, now, u, picked.id, ids, ws))
    {
      hide PoolSessions.Valid, Candidates, IsDraw, Put, Remove;
      ids, ws := [], [];
      LaterIsValid(State(), clock, now);
      clock := now;
      picked := PickSticky(exclude, affinityKey, now);
      if picked == null {
        picked, ids, ws := PickWeighted(exclude, now, u);
        if picked != null && affinityKey != "" {
          SetSticky(affinityKey, picked.id, now);
        }
      }
    }
  }

  /** Of two candidates the one that is less used is never drawn more rarely; it is drawn more often exactly when it has
      more than 0.05 of every window left. */
  lemma LessUsedIsDrawnMoreOften(pool: Pool, exclude: set<string>, now: int, u: real, id: string,
                                 ids: seq<string>, ws: seq<real>, i: nat, j: nat)
    requires pool.IsDraw(exclude, now, u, id, ids, ws) && i < |ws| && j < |ws|
    ensures Total(ws) > 0.0
    ensures forall v | 0.0 <= v < 1.0 :: Drawn(ws, v, i) <==> (i == 0 || Lower(ws, i) < v) && v <= Lower(ws, i + 1)
    ensures var a, b := pool.entries[ids[i]].limits, pool.entries[ids[j]].limits;
            && (NoMoreUsed(a, b) ==> Share(ws, i) >= Share(ws, j))
            && (Share(ws, i) > Share(ws, j) <==> !NoMoreUsed(b, a) && !UsedAtLeast(Windows(a), 0.95))
  {
    hide Drawn, Lower, Share, Total, NoMoreUsed, UsedAtLeast, Weight, Pool.Candidates, Windows;
    var a, b := pool.entries[ids[i]].limits, pool.entries[ids[j]].limits;
    assert ws[i] == Weight(a) && ws[j] == Weight(b);
    LessUsedWeighsMore(a, b);
    ShareIsWeight(ws, i, j);
    ShareIsWeight(ws, j, i);
    forall v | 0.0 <= v < 1.0
      ensures Drawn(ws, v, i) <==> (i == 0 || Lower(ws, i) < v) && v <= Lower(ws, i + 1)
    {
      DrawsAreAnInterval(ws, i, v);
    }
  }

  lemma {:induction false} PrefixOfAppend(ws: seq<real>, w: real, n: nat)
    requires n <= |ws|
    ensures Prefix(ws + [w], n) == Prefix(ws, n)
    ensures Total(ws + [w]) == Total(ws) + w
    decreases n
  {
    if n > 0 {
      PrefixOfAppend(ws, w, n - 1);
    }
    if n < |ws| {
      PrefixSame(ws, w, |ws|);
    }
  }

  lemma {:induction false} PrefixSame(ws: seq<real>, w: real, n: nat)
    requires n <= |ws|
    ensures Prefix(ws + [w], n) == Prefix(ws, n)
  {
    if n > 0 {
      PrefixSame(ws, w, n - 1);
    }
  }
}
