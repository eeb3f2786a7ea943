/** The dashboard of internal/admin/summary.go: usage per model with the ten top models, and the
    classification of the accounts. */
module Summary {
  import opened Options
  import opened PoolEntry

  datatype Totals = Totals(requests: int, input: int, output: int, cached: int, cost: real)

  const ZERO := Totals(0, 0, 0, 0, 0.0)
  const TOP: nat := 10

  function Plus(a: Totals, b: Totals): Totals {
    Totals(a.requests + b.requests, a.input + b.input, a.output + b.output, a.cached + b.cached, a.cost + b.cost)
  }

  /** A row of the store: usage by model and key. `Agg` is a line of the list of models. */
  datatype Row = Row(model: string, usage: Totals)

  datatype Agg = Agg(model: string, usage: Totals)

  function Sum(rows: seq<Row>): Totals {
    if rows == [] then ZERO else Plus(Sum(rows[..|rows| - 1]), rows[|rows| - 1].usage)
  }

  /** The usage of one model. */
  function SumOf(rows: seq<Row>, model: string): Totals {
    if rows == [] then ZERO
    else
      var rest, last := SumOf(rows[..|rows| - 1], model), rows[|rows| - 1];
      if last.model == model then Plus(rest, last.usage) else rest
  }

  function SumAgg(top: seq<Agg>): Totals {
    if top == [] then ZERO else Plus(top[0].usage, SumAgg(top[1..]))
  }

  /** `b` belongs before `a`. */
  predicate Better(b: Agg, a: Agg) {
    b.usage.cost > a.usage.cost || (b.usage.cost == a.usage.cost && b.usage.requests > a.usage.requests)
  }

  predicate Sorted(top: seq<Agg>) {
    forall i, j | 0 <= i < j < |top| :: !Better(top[j], top[i])
  }

  /** The list holds each model of the rows once, with its usage, and no other. */
  ghost predicate Lists(top: seq<Agg>, rows: seq<Row>) {
    && (forall i, j | 0 <= i < j < |top| :: top[i].model != top[j].model)
    && (forall i | 0 <= i < |top| :: top[i].usage == SumOf(rows, top[i].model) && Occurs(top[i].model, rows))
    && (forall k | 0 <= k < |rows| :: Listed(rows[k].model, top))
  }

  predicate Listed(model: string, top: seq<Agg>) {
    exists i | 0 <= i < |top| :: top[i].model == model
  }

  predicate Occurs(model: string, rows: seq<Row>) {
    exists k | 0 <= k < |rows| :: rows[k].model == model
  }

  // ---- the first loop ----

  method Aggregate(rows: seq<Row>) returns (t: Totals, byModel: map<string, Totals>)
    ensures t == Sum(rows)
    ensures forall m :: m in byModel <==> Occurs(m, rows)
    ensures forall m | m in byModel :: byModel[m] == SumOf(rows, m)
  {
    t, byModel := ZERO, map[];
    for i := 0 to |rows|
      invariant t == Sum(rows[..i])
      invariant forall m :: m in byModel <==> Occurs(m, rows[..i])
      invariant forall m :: SumOf(rows[..i], m) == if m in byModel then byModel[m] else ZERO
    {
      var r := rows[i];
      t := Plus(t, r.usage);
      RowsGrow(rows, i);
      var m := if r.model in byModel then byModel[r.model] else ZERO;
      byModel := byModel[r.model := Plus(m, r.usage)];
    }
    assert rows[..|rows|] == rows;
  }

  lemma RowsGrow(rows: seq<Row>, i: nat)
    requires i < |rows|
    ensures Sum(rows[..i + 1]) == Plus(Sum(rows[..i]), rows[i].usage)
    ensures forall m :: SumOf(rows[..i + 1], m) ==
                        if rows[i].model == m then Plus(SumOf(rows[..i], m), rows[i].usage) else SumOf(rows[..i], m)
    ensures forall m :: Occurs(m, rows[..i + 1]) <==> Occurs(m, rows[..i]) || m == rows[i].model
  {
    assert rows[..i + 1][..i] == rows[..i];
    assert rows[..i + 1][i] == rows[i];
    forall m ensures Occurs(m, rows[..i + 1]) <==> Occurs(m, rows[..i]) || m == rows[i].model {
      OccursMore(rows, i, m);
    }
  }

  lemma OccursMore(rows: seq<Row>, i: nat, m: string)
    requires i < |rows|
    ensures Occurs(m, rows[..i + 1]) <==> Occurs(m, rows[..i]) || m == rows[i].model
  {
    assert rows[..i + 1][i] == rows[i];
    if Occurs(m, rows[..i]) {
      var k :| 0 <= k < i && rows[..i][k].model == m;
      assert rows[..i + 1][k].model == m;
    }
    if Occurs(m, rows[..i + 1]) && m != rows[i].model {
      var k :| 0 <= k < i + 1 && rows[..i + 1][k].model == m;
      assert rows[..i][k].model == m;
    }
  }

  /** The second loop, over the map in any order. */
  method Collect(byModel: map<string, Totals>) returns (top: seq<Agg>)
    ensures forall i, j | 0 <= i < j < |top| :: top[i].model != top[j].model
    ensures forall i | 0 <= i < |top| :: top[i].model in byModel && top[i].usage == byModel[top[i].model]
    ensures forall m | m in byModel :: Listed(m, top)
  {
    top := [];
    var left := byModel.Keys;
    while left != {}
      invariant left <= byModel.Keys
      invariant forall i, j | 0 <= i < j < |top| :: top[i].model != top[j].model
      invariant forall i | 0 <= i < |top| ::
        top[i].model in byModel.Keys - left && top[i].usage == byModel[top[i].model]
      invariant forall m | m in byModel.Keys - left :: Listed(m, top)
      decreases |left|
    {
      var m :| m in left;
      left := left - {m};
      ListedMore(top, Agg(m, byModel[m]));
      top := top + [Agg(m, byModel[m])];
    }
  }

  lemma ListedMore(top: seq<Agg>, a: Agg)
    ensures forall m :: Listed(m, top) ==> Listed(m, top + [a])
    ensures Listed(a.model, top + [a])
  {
    var more := top + [a];
    assert more[|top|] == a;
    forall m | Listed(m, top) ensures Listed(m, more) {
      var i :| 0 <= i < |top| && top[i].model == m;
      assert more[i].model == m;
    }
  }

  // ---- the exchange sort ----

  lemma SwapPermutes<T>(s: seq<T>, i: nat, j: nat)
    requires i < j < |s|
    ensures multiset(s[i := s[j]][j := s[i]]) == multiset(s)
  {
  }

  /** Everything before `i` is in its place. */
  ghost predicate Placed(s: seq<Agg>, i: nat) {
    forall k, l | 0 <= k < i && k < l < |s| :: !Better(s[l], s[k])
  }

  /** The inner loop: the best of the rest comes to position `i`. */
  method PlaceBest(top: array<Agg>, i: nat)
    requires i < top.Length && Placed(top[..], i)
    modifies top
    ensures Placed(top[..], i + 1)
    ensures multiset(top[..]) == multiset(old(top[..]))
  {
    var j := i + 1;
    while j < top.Length
      invariant i < j <= top.Length && Placed(top[..], i)
      invariant forall l | i < l < j :: !Better(top[l], top[i])
      invariant multiset(top[..]) == multiset(old(top[..]))
    {
      var a, b := top[i], top[j];
      if b.usage.cost > a.usage.cost || (b.usage.cost == a.usage.cost && b.usage.requests > a.usage.requests) {
        Exchange(top, i, j);
      }
      j := j + 1;
    }
  }

  method Exchange(top: array<Agg>, i: nat, j: nat)
    requires i < j < top.Length
    modifies top
    ensures top[i] == old(top[j]) && top[j] == old(top[i])
    ensures forall k | 0 <= k < top.Length && k != i && k != j :: top[k] == old(top[k])
    ensures Placed(old(top[..]), i) ==> Placed(top[..], i)
    ensures multiset(top[..]) == multiset(old(top[..]))
  {
    ghost var was := top[..];
    top[i], top[j] := top[j], top[i];
    assert top[..] == was[i := was[j]][j := was[i]];
    SwapPermutes(was, i, j);
    if Placed(was, i) {
      SwapKeepsPlaced(was, i, j);
    }
  }

  lemma SwapKeepsPlaced(s: seq<Agg>, i: nat, j: nat)
    requires i < j < |s| && Placed(s, i)
    ensures Placed(s[i := s[j]][j := s[i]], i)
  {
  }

  method ExchangeSort(top: array<Agg>)
    modifies top
    ensures Sorted(top[..])
    ensures multiset(top[..]) == multiset(old(top[..]))
  {
    for i := 0 to top.Length
      invariant Placed(top[..], i)
      invariant multiset(top[..]) == multiset(old(top[..]))
    {
      PlaceBest(top, i);
    }
  }

  // ---- a permutation lists the same ----

  lemma TwiceIsTwo<T>(s: seq<T>, i: nat, j: nat)
    requires i < j < |s| && s[i] == s[j]
    ensures multiset(s)[s[i]] >= 2
  {
    assert s == s[..j] + [s[j]] + s[j + 1..];
    assert s[i] == s[..j][i];
    assert multiset(s) == multiset(s[..j]) + multiset([s[j]]) + multiset(s[j + 1..]);
    assert s[i] in multiset(s[..j]);
  }

  lemma {:induction false} OnceIsOne(s: seq<Agg>, x: Agg)
    requires forall i, j | 0 <= i < j < |s| :: s[i].model != s[j].model
    ensures multiset(s)[x] <= 1
  {
    if s != [] {
      var rest := s[1..];
      assert s == [s[0]] + rest;
      forall i, j | 0 <= i < j < |rest| ensures rest[i].model != rest[j].model {
        assert rest[i] == s[i + 1] && rest[j] == s[j + 1];
      }
      OnceIsOne(rest, x);
      assert forall k | 0 <= k < |rest| :: rest[k] == s[k + 1];
    }
  }

  lemma PermutationLists(a: seq<Agg>, b: seq<Agg>, rows: seq<Row>)
    requires Lists(a, rows) && multiset(a) == multiset(b)
    ensures Lists(b, rows)
  {
    forall i | 0 <= i < |b| ensures b[i].usage == SumOf(rows, b[i].model) && Occurs(b[i].model, rows) {
      assert b[i] in multiset(a);
    }
    forall i, j | 0 <= i < j < |b| ensures b[i].model != b[j].model {
      if b[i].model == b[j].model {
        assert b[i] == b[j];
        TwiceIsTwo(b, i, j);
        OnceIsOne(a, b[i]);
      }
    }
    forall k | 0 <= k < |rows| ensures Listed(rows[k].model, b) {
      assert Listed(rows[k].model, a);
      var i :| 0 <= i < |a| && a[i].model == rows[k].model;
      assert a[i] in multiset(b);
    }
  }

  // ---- the groups add up ----

  lemma {:induction false} SumAggUpdate(top: seq<Agg>, i: nat, usage: Totals)
    requires i < |top|
    ensures Plus(SumAgg(top[i := Agg(top[i].model, usage)]), top[i].usage) == Plus(SumAgg(top), usage)
  {
    var x := Agg(top[i].model, usage);
    if i == 0 {
      assert top[i := x][1..] == top[1..];
    } else {
      assert top[i := x][1..] == top[1..][i - 1 := x];
      SumAggUpdate(top[1..], i - 1, usage);
    }
  }

  predicate AllZero(top: seq<Agg>) {
    forall i | 0 <= i < |top| :: top[i].usage == ZERO
  }

  lemma AllZeroRest(top: seq<Agg>)
    requires AllZero(top) && top != []
    ensures top[0].usage == ZERO && AllZero(top[1..])
  {
  }

  lemma {:induction false} SumAggZero(top: seq<Agg>)
    requires AllZero(top)
    ensures SumAgg(top) == ZERO
  {
    hide *;
    SumAggStep(top);
    PlusZero(ZERO);
    if top != [] {
      AllZeroRest(top);
      SumAggZero(top[1..]);
    }
  }

  lemma PlusZero(a: Totals)
    ensures Plus(a, ZERO) == a
  {
  }

  lemma SumAggStep(top: seq<Agg>)
    ensures SumAgg(top) == if top == [] then ZERO else Plus(top[0].usage, SumAgg(top[1..]))
  {
  }

  /** The five totals over all rows are the sums over the models. */
  lemma {:induction false} GroupsAddUp(top: seq<Agg>, rows: seq<Row>)
    requires forall i, j | 0 <= i < j < |top| :: top[i].model != top[j].model
    requires forall i | 0 <= i < |top| :: top[i].usage == SumOf(rows, top[i].model)
    requires forall k | 0 <= k < |rows| :: Listed(rows[k].model, top)
    ensures SumAgg(top) == Sum(rows)
    decreases |rows|
  {
    if rows == [] {
      SumAggZero(top);
    } else {
      var n := |rows| - 1;
      var last := rows[n];
      assert Listed(last.model, top);
      var i :| 0 <= i < |top| && top[i].model == last.model;
      var was := SumOf(rows[..n], last.model);
      var less := top[i := Agg(last.model, was)];
      assert top[i].usage == Plus(was, last.usage);
      FewerRows(top, rows, i);
      GroupsAddUp(less, rows[..n]);
      hide *;
      SumAggUpdate(top, i, was);
      SumStep(rows);
      Rearrange(SumAgg(less), was, last.usage, SumAgg(top));
    }
  }

  lemma SumStep(rows: seq<Row>)
    requires rows != []
    ensures Sum(rows) == Plus(Sum(rows[..|rows| - 1]), rows[|rows| - 1].usage)
  {
  }

  lemma Rearrange(less: Totals, was: Totals, more: Totals, all: Totals)
    requires Plus(less, Plus(was, more)) == Plus(all, was)
    ensures all == Plus(less, more)
  {
  }

  /** Without the last row, the line of its model shrinks, and every other line stays right. */
  lemma FewerRows(top: seq<Agg>, rows: seq<Row>, i: nat)
    requires rows != [] && i < |top| && top[i].model == rows[|rows| - 1].model
    requires forall i, j | 0 <= i < j < |top| :: top[i].model != top[j].model
    requires forall i | 0 <= i < |top| :: top[i].usage == SumOf(rows, top[i].model)
    requires forall k | 0 <= k < |rows| :: Listed(rows[k].model, top)
    ensures var before := rows[..|rows| - 1];
            var less := top[i := Agg(top[i].model, SumOf(before, top[i].model))];
            && (forall i, j | 0 <= i < j < |less| :: less[i].model != less[j].model)
            && (forall i | 0 <= i < |less| :: less[i].usage == SumOf(before, less[i].model))
            && (forall k | 0 <= k < |before| :: Listed(before[k].model, less))
  {
    var before := rows[..|rows| - 1];
    var less := top[i := Agg(top[i].model, SumOf(before, top[i].model))];
    forall k | 0 <= k < |before| ensures Listed(before[k].model, less) {
      assert before[k] == rows[k];
      assert Listed(before[k].model, top);
      var n :| 0 <= n < |top| && top[n].model == before[k].model;
      assert less[n].model == before[k].model;
    }
  }

  lemma ListsAddUp(top: seq<Agg>, rows: seq<Row>)
    requires Lists(top, rows)
    ensures SumAgg(top) == Sum(rows)
  {
    hide SumAgg, Sum, SumOf, Listed;
    GroupsAddUp(top, rows);
  }

  /** The first two loops of sumRows: every model once, the totals conserved. */
  method Group(rows: seq<Row>) returns (t: Totals, list: seq<Agg>)
    ensures t == Sum(rows) == SumAgg(list) && Lists(list, rows)
  {
    hide Sum, SumOf, SumAgg, Listed;
    var byModel;
    t, byModel := Aggregate(rows);
    list := Collect(byModel);
    forall k | 0 <= k < |rows| ensures Listed(rows[k].model, list) {
      assert Occurs(rows[k].model, rows);
    }
    ListsAddUp(list, rows);
  }

  /** The ranking shown: models of the rows with their usage, once each, best first; it is short of ten only when
      every model is in it, and no model that is missing ranks above one that is shown. */
  ghost predicate IsRanking(top: seq<Agg>, rows: seq<Row>) {
    && Sorted(top) && |top| <= TOP
    && (forall i, j | 0 <= i < j < |top| :: top[i].model != top[j].model)
    && (forall i | 0 <= i < |top| :: top[i].usage == SumOf(rows, top[i].model) && Occurs(top[i].model, rows))
    && (forall k | 0 <= k < |rows| && !Listed(rows[k].model, top) ::
          |top| == TOP && RanksBelow(Agg(rows[k].model, SumOf(rows, rows[k].model)), top))
  }

  predicate RanksBelow(a: Agg, top: seq<Agg>) {
    forall i | 0 <= i < |top| :: !Better(a, top[i])
  }

  /** Cutting the sorted list of all models leaves such a ranking. */
  lemma CutIsRanking(all: seq<Agg>, rows: seq<Row>)
    requires Lists(all, rows) && Sorted(all)
    ensures IsRanking(all[..if |all| > TOP then TOP else |all|], rows)
  {
    hide SumOf, Occurs, Better;
    var top := all[..if |all| > TOP then TOP else |all|];
    forall k | 0 <= k < |rows| && !Listed(rows[k].model, top)
      ensures |top| == TOP && RanksBelow(Agg(rows[k].model, SumOf(rows, rows[k].model)), top)
    {
      assert Listed(rows[k].model, all);
      var n :| 0 <= n < |all| && all[n].model == rows[k].model;
      assert all[n] == Agg(rows[k].model, SumOf(rows, rows[k].model));
    }
  }

  /** sumRows */
  method SumRows(rows: seq<Row>) returns (t: Totals, top: seq<Agg>)
    ensures t == Sum(rows) && IsFieldwise(t, rows) && IsRanking(top, rows)
  {
    hide *;
    SumIsFieldwise(rows);
    var list;
    t, list := Group(rows);
    var a := new Agg[|list|](i requires 0 <= i < |list| => list[i]);
    assert a[..] == list;
    ExchangeSort(a);
    PermutationLists(list, a[..], rows);
    CutIsRanking(a[..], rows);
    top := a[..];
    assert top[..|top|] == top;
    if |top| > TOP {
      top := top[..TOP];
    }
  }

  // ---- the ranking, in terms of the rows ----

  function RowsOf(rows: seq<Row>, model: string): seq<Row> {
    if rows == [] then []
    else
      var rest, last := RowsOf(rows[..|rows| - 1], model), rows[|rows| - 1];
      if last.model == model then rest + [last] else rest
  }

  /** The sum of one field. */
  function IntSum(rows: seq<Row>, field: Totals -> int): int {
    if rows == [] then 0 else IntSum(rows[..|rows| - 1], field) + field(rows[|rows| - 1].usage)
  }

  function CostSum(rows: seq<Row>): real {
    if rows == [] then 0.0 else CostSum(rows[..|rows| - 1]) + rows[|rows| - 1].usage.cost
  }

  lemma {:induction false} SumOfIsSum(rows: seq<Row>, model: string)
    ensures SumOf(rows, model) == Sum(RowsOf(rows, model))
  {
    if rows != [] {
      var before, last := rows[..|rows| - 1], rows[|rows| - 1];
      SumOfIsSum(before, model);
      var rest := RowsOf(before, model);
      assert (rest + [last])[..|rest|] == rest;
    }
  }

  lemma {:induction false} FieldOfSum(rows: seq<Row>, field: Totals -> int)
    requires field(ZERO) == 0 && forall a, b :: field(Plus(a, b)) == field(a) + field(b)
    ensures field(Sum(rows)) == IntSum(rows, field)
  {
    hide Plus;
    if rows != [] {
      FieldOfSum(rows[..|rows| - 1], field);
    }
  }

  lemma {:induction false} CostOfSum(rows: seq<Row>)
    ensures Sum(rows).cost == CostSum(rows)
  {
    if rows != [] {
      CostOfSum(rows[..|rows| - 1]);
    }
  }

  /** Each of the five totals is the sum of its own field. */
  ghost predicate IsFieldwise(t: Totals, rows: seq<Row>) {
    && t.requests == IntSum(rows, (u: Totals) => u.requests)
    && t.input == IntSum(rows, (u: Totals) => u.input)
    && t.output == IntSum(rows, (u: Totals) => u.output)
    && t.cached == IntSum(rows, (u: Totals) => u.cached)
    && t.cost == CostSum(rows)
  }

  lemma SumIsFieldwise(rows: seq<Row>)
    ensures IsFieldwise(Sum(rows), rows)
  {
    FieldOfSum(rows, (u: Totals) => u.requests);
    FieldOfSum(rows, (u: Totals) => u.input);
    FieldOfSum(rows, (u: Totals) => u.output);
    FieldOfSum(rows, (u: Totals) => u.cached);
    CostOfSum(rows);
    hide Sum, IntSum, CostSum;
  }

  /** Every line shows the sums of its model's rows. A line is at least as costly as the next, and with the same cost
      has at least as many requests; so it is with a shown line and a model that is missing. */
  lemma RankingIsByCost(top: seq<Agg>, rows: seq<Row>)
    requires IsRanking(top, rows)
    ensures |top| <= 10
    ensures forall i | 0 <= i < |top| :: IsFieldwise(top[i].usage, RowsOf(rows, top[i].model))
    ensures forall i, j | 0 <= i < j < |top| ::
      && top[i].usage.cost >= top[j].usage.cost
      && (top[i].usage.cost == top[j].usage.cost ==> top[i].usage.requests >= top[j].usage.requests)
    ensures forall i, k | 0 <= i < |top| && 0 <= k < |rows| && !Listed(rows[k].model, top) ::
      var missing := RowsOf(rows, rows[k].model);
      && |top| == 10 && top[i].usage.cost >= CostSum(missing)
      && (top[i].usage.cost == CostSum(missing) ==>
            top[i].usage.requests >= IntSum(missing, (u: Totals) => u.requests))
  {
    hide SumOf, Occurs, Listed, RowsOf, Sum, IntSum, CostSum;
    forall i | 0 <= i < |top| ensures IsFieldwise(top[i].usage, RowsOf(rows, top[i].model)) {
      SumOfIsSum(rows, top[i].model);
      SumIsFieldwise(RowsOf(rows, top[i].model));
    }
    forall k | 0 <= k < |rows| ensures IsFieldwise(SumOf(rows, rows[k].model), RowsOf(rows, rows[k].model)) {
      SumOfIsSum(rows, rows[k].model);
      SumIsFieldwise(RowsOf(rows, rows[k].model));
    }
  }

  // ---- the accounts ----

  /** What Pool.Stats says of an account. */
  datatype AccountStat = AccountStat(enabled: bool, cooldownUntil: int, suspended: bool, worstUsedRatio: real)

  function StatOf(e: Entry): AccountStat
    reads e
  {
    if e.limits.Some? then AccountStat(e.enabled, e.cooldownUntil, e.limits.value.suspended, WorstUsedRatio(e.limits))
    else AccountStat(e.enabled, e.cooldownUntil, false, 0.0)
  }

  method Stats(entries: seq<Entry>) returns (out: seq<AccountStat>)
    ensures |out| == |entries| && forall i | 0 <= i < |entries| :: out[i] == StatOf(entries[i])
  {
    out := [];
    for i := 0 to |entries|
      invariant |out| == i && forall k | 0 <= k < i :: out[k] == StatOf(entries[k])
    {
      var limits := entries[i].limits;
      var worst := ComputeWorstUsedRatio(limits);
      var suspended := limits.Some? && limits.value.suspended;
      out := out + [AccountStat(entries[i].enabled, entries[i].cooldownUntil, suspended, worst)];
    }
  }

  datatype Class = Disabled | Cooldown | Suspended | Exhausted | Usable

  function ClassOf(s: AccountStat, now: int): Class {
    if !s.enabled then Disabled
    else if now < s.cooldownUntil then Cooldown
    else if s.suspended then Suspended
    else if s.worstUsedRatio >= 1.0 then Exhausted
    else Usable
  }

  datatype Accounts = Accounts(total: int, enabled: int, usable: int, cooldown: int, exhausted: int, suspended: int,
                               disabled: int)

  function CountClass(stats: seq<AccountStat>, now: int, class_: Class): nat {
    if stats == [] then 0
    else CountClass(stats[..|stats| - 1], now, class_) +
         if ClassOf(stats[|stats| - 1], now) == class_ then 1 else 0
  }

  lemma CountMore(stats: seq<AccountStat>, now: int, i: nat, class_: Class)
    requires i < |stats|
    ensures CountClass(stats[..i + 1], now, class_) ==
            CountClass(stats[..i], now, class_) + if ClassOf(stats[i], now) == class_ then 1 else 0
  {
    hide ClassOf;
    assert stats[..i + 1][..i] == stats[..i];
  }

  /** What makes an account one of a class, each by its own facts. */
  predicate Shows(s: AccountStat, now: int, class_: Class) {
    match class_
    case Disabled => !s.enabled
    case Cooldown => s.enabled && now < s.cooldownUntil
    case Suspended => s.enabled && s.cooldownUntil <= now && s.suspended
    case Exhausted => s.enabled && s.cooldownUntil <= now && !s.suspended && s.worstUsedRatio >= 1.0
    case Usable => s.enabled && s.cooldownUntil <= now && !s.suspended && s.worstUsedRatio < 1.0
  }

  function Showing(stats: seq<AccountStat>, now: int, class_: Class): set<nat> {
    set i: nat | i < |stats| && Shows(stats[i], now, class_)
  }

  function Enabled(stats: seq<AccountStat>): set<nat> {
    set i: nat | i < |stats| && stats[i].enabled
  }

  lemma ClassIff(s: AccountStat, now: int, class_: Class)
    ensures ClassOf(s, now) == class_ <==> Shows(s, now, class_)
  {
  }

  lemma ShowingMore(stats: seq<AccountStat>, now: int, class_: Class)
    requires stats != []
    ensures var n := |stats| - 1;
            var before := Showing(stats[..n], now, class_);
            n !in before && Showing(stats, now, class_) == before + if Shows(stats[n], now, class_) then {n} else {}
  {
    hide Shows;
  }

  lemma {:induction false} CountIsSize(stats: seq<AccountStat>, now: int, class_: Class)
    ensures CountClass(stats, now, class_) == |Showing(stats, now, class_)|
  {
    hide *;
    if stats == [] {
      NoneShows(now, class_);
    } else {
      var n := |stats| - 1;
      assert stats == stats[..n + 1];
      CountMore(stats, now, n, class_);
      CountIsSize(stats[..n], now, class_);
      ClassIff(stats[n], now, class_);
      ShowingMore(stats, now, class_);
    }
  }

  lemma NoneShows(now: int, class_: Class)
    ensures CountClass([], now, class_) == 0 && Showing([], now, class_) == {}
  {
  }

  /** The enabled accounts are those that are not disabled. */
  lemma {:induction false} EnabledCount(stats: seq<AccountStat>, now: int)
    ensures |Enabled(stats)| + |Showing(stats, now, Disabled)| == |stats|
  {
    hide *;
    NoneShows(now, Disabled);
    NoneEnabled();
    if stats != [] {
      EnabledCount(stats[..|stats| - 1], now);
      ShowingMore(stats, now, Disabled);
      EnabledMore(stats, now);
    }
  }

  lemma NoneEnabled()
    ensures Enabled([]) == {}
  {
  }

  lemma EnabledMore(stats: seq<AccountStat>, now: int)
    requires stats != []
    ensures var n := |stats| - 1;
            var before := Enabled(stats[..n]);
            && n !in before && Enabled(stats) == before + (if stats[n].enabled then {n} else {})
            && (Shows(stats[n], now, Disabled) <==> !stats[n].enabled)
  {
  }

  /** The loop of handleSummary. */
  method Classify(stats: seq<AccountStat>, now: int) returns (accts: Accounts)
    ensures accts.total == |stats|
    ensures accts.usable == CountClass(stats, now, Usable) && accts.cooldown == CountClass(stats, now, Cooldown)
    ensures accts.exhausted == CountClass(stats, now, Exhausted) && accts.suspended == CountClass(stats, now, Suspended)
    ensures accts.disabled == CountClass(stats, now, Disabled)
    ensures accts.enabled == |Enabled(stats)| && accts.disabled == |Showing(stats, now, Disabled)|
    ensures accts.cooldown == |Showing(stats, now, Cooldown)| && accts.suspended == |Showing(stats, now, Suspended)|
    ensures accts.exhausted == |Showing(stats, now, Exhausted)| && accts.usable == |Showing(stats, now, Usable)|
    ensures accts.usable + accts.cooldown + accts.exhausted + accts.suspended == accts.enabled
    ensures accts.enabled + accts.disabled == accts.total
  {
    hide CountClass, Showing, Enabled;
    ClassSizes(stats, now);
    accts := Accounts(|stats|, 0, 0, 0, 0, 0, 0);
    NoStats(now);
    for i := 0 to |stats|
      invariant accts.total == |stats| && accts.enabled + accts.disabled == i
      invariant accts.usable == CountClass(stats[..i], now, Usable)
      invariant accts.cooldown == CountClass(stats[..i], now, Cooldown)
      invariant accts.exhausted == CountClass(stats[..i], now, Exhausted)
      invariant accts.suspended == CountClass(stats[..i], now, Suspended)
      invariant accts.disabled == CountClass(stats[..i], now, Disabled)
      invariant accts.usable + accts.cooldown + accts.exhausted + accts.suspended == accts.enabled
    {
      CountMore(stats, now, i, Usable);
      CountMore(stats, now, i, Cooldown);
      CountMore(stats, now, i, Exhausted);
      CountMore(stats, now, i, Suspended);
      CountMore(stats, now, i, Disabled);
      var s := stats[i];
      if !s.enabled {
        accts := accts.(disabled := accts.disabled + 1);
        continue;
      }
      accts := accts.(enabled := accts.enabled + 1);
      if now < s.cooldownUntil {
        accts := accts.(cooldown := accts.cooldown + 1);
        continue;
      }
      if s.suspended {
        accts := accts.(suspended := accts.suspended + 1);
        continue;
      }
      if s.worstUsedRatio >= 1.0 {
        accts := accts.(exhausted := accts.exhausted + 1);
        continue;
      }
      accts := accts.(usable := accts.usable + 1);
    }
    assert stats[..|stats|] == stats;
  }

  lemma ClassSizes(stats: seq<AccountStat>, now: int)
    ensures forall c :: CountClass(stats, now, c) == |Showing(stats, now, c)|
    ensures |Enabled(stats)| + CountClass(stats, now, Disabled) == |stats|
  {
    hide *;
    forall c ensures CountClass(stats, now, c) == |Showing(stats, now, c)| {
      CountIsSize(stats, now, c);
    }
    EnabledCount(stats, now);
  }

  lemma NoStats(now: int)
    ensures forall c :: CountClass([], now, c) == 0
  {
  }

  /** How many of the entries Pick would accept. */
  function UsableEntries(entries: seq<Entry>, now: int): nat
    reads entries
  {
    if entries == [] then 0
    else UsableEntries(entries[..|entries| - 1], now) + if entries[|entries| - 1].Usable(now) then 1 else 0
  }

  /** The dashboard calls an account usable exactly when the pool does. */
  lemma UsableIsUsable(e: Entry, now: int)
    ensures ClassOf(StatOf(e), now) == Usable <==> e.Usable(now)
  {
  }

  lemma {:induction false} UsableCountIsPools(entries: seq<Entry>, stats: seq<AccountStat>, now: int)
    requires |stats| == |entries| && forall i | 0 <= i < |entries| :: stats[i] == StatOf(entries[i])
    ensures CountClass(stats, now, Usable) == UsableEntries(entries, now)
  {
    if entries != [] {
      var n := |entries| - 1;
      UsableCountIsPools(entries[..n], stats[..n], now);
      UsableIsUsable(entries[n], now);
    }
  }

  /** The accounts of handleSummary, at one instant. */
  method SummarizeAccounts(entries: seq<Entry>, now: int) returns (accts: Accounts)
    ensures accts.total == |entries| == accts.enabled + accts.disabled
    ensures accts.usable == UsableEntries(entries, now)
    ensures accts.enabled == |set i: nat | i < |entries| && entries[i].enabled|
    ensures accts.cooldown == |set i: nat | i < |entries| && entries[i].enabled && now < entries[i].cooldownUntil|
    ensures accts.usable + accts.cooldown + accts.exhausted + accts.suspended == accts.enabled
  {
    hide CountClass, Showing, Enabled, StatOf, UsableEntries;
    var stats := Stats(entries);
    accts := Classify(stats, now);
    UsableCountIsPools(entries, stats, now);
    EnabledEntries(entries, stats, now);
  }

  lemma EnabledEntries(entries: seq<Entry>, stats: seq<AccountStat>, now: int)
    requires |stats| == |entries| && forall i | 0 <= i < |entries| :: stats[i] == StatOf(entries[i])
    ensures Enabled(stats) == set i: nat | i < |entries| && entries[i].enabled
    ensures Showing(stats, now, Cooldown) ==
            set i: nat | i < |entries| && entries[i].enabled && now < entries[i].cooldownUntil
  {
    forall i | 0 <= i < |entries|
      ensures stats[i].enabled == entries[i].enabled && stats[i].cooldownUntil == entries[i].cooldownUntil
    {
    }
    hide StatOf;
  }
}
