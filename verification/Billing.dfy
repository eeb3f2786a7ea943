/** The Recorder of internal/billing/billing.go as one goroutine runs it: what its methods do is a run of
    the steps of UsageLogs, so all that holds of those runs holds of it. */
module Billing {
  import opened Options
  import opened Cost
  import opened UsageLogs

  class Recorder {
    var prices: map<string, ModelPrice>
    var multiplier: real
    var buf: seq<Log>

    // the store: its contents, and which insert and which update of the totals will succeed
    const keys: set<string>
    const insertWorks: nat -> bool
    const updateWorks: nat -> bool
    var inserts: nat
    var updates: nat
    var rows: seq<Log>
    var totals: map<string, Totals>

    ghost var dropped: seq<Log>
    ghost var failed: seq<Log>
    ghost var recorded: seq<Log>
    ghost var steps: seq<Action>

    constructor (prices: map<string, ModelPrice>, multiplier: real, keys: set<string>,
                 insertWorks: nat -> bool, updateWorks: nat -> bool)
      ensures Valid() && recorded == [] && buf == [] && rows == []
      ensures this.prices == prices && this.multiplier == multiplier && this.keys == keys
      ensures this.insertWorks == insertWorks && this.updateWorks == updateWorks
    {
      this.prices, this.multiplier, buf := prices, multiplier, [];
      this.keys, this.insertWorks, this.updateWorks := keys, insertWorks, updateWorks;
      inserts, updates, rows, totals := 0, 0, [], map k | k in keys :: ZERO;
      dropped, failed, recorded, steps := [], [], [], [];
      new;
      assert seq(1, _ => Idle) == [Idle];
    }

    /** refreshPricesLocked, when the cached table is old: whatever the settings now say. */
    method RefreshPrices(prices: map<string, ModelPrice>, multiplier: real)
      requires Valid()
      modifies this`prices, this`multiplier
      ensures Valid() && this.prices == prices && this.multiplier == multiplier
    {
      this.prices, this.multiplier := prices, multiplier;
    }

    ghost function View(th: Thread): State
      reads this
    {
      State(buf, [th], rows, dropped, totals, failed, recorded)
    }

    /** The steps so far lead here, with the goroutine at `th`. */
    ghost predicate At(th: Thread)
      reads this
    {
      Run(Start(1, keys), steps) == View(th)
    }

    ghost predicate Valid()
      reads this
    {
      At(Idle) && |buf| < FLUSH_BATCH
    }

    lemma AtIs(th: Thread)
      ensures At(th) <==> Run(Start(1, keys), steps) == View(th)
      ensures View(th) == State(buf, [th], rows, dropped, totals, failed, recorded)
    {
    }

    /** The fields have changed as one more step changes them. */
    ghost method Advance(before: State, a: Action, th: Thread)
      requires Run(Start(1, keys), steps) == before && Step(before, a) == View(th)
      modifies this`steps
      ensures At(th)
    {
      hide Run, Step, Start;
      OneMoreStep(Start(1, keys), steps, a);
      steps := steps + [a];
    }

    /** Every recorded log is in the buffer, in the rows or dropped, once. */
    lemma EachLogIsSomewhere()
      requires At(Idle)
      ensures multiset(recorded) == multiset(buf) + multiset(rows) + multiset(dropped)
    {
      var s := View(Idle);
      forall l ensures multiset(recorded)[l] == (multiset(buf) + multiset(rows) + multiset(dropped))[l] {
        RunConserves(1, keys, steps, l, "");
        assert Run(Start(1, keys), steps) == s;
        IdleHoldsNothing(s.threads, l, "");
      }
    }

    method Record(model: string, key: string, input: int, output: int, cached: int, other: string)
      requires Valid()
      modifies this
      ensures Valid()
      ensures |recorded| == |old(recorded)| + 1 && recorded[..|recorded| - 1] == old(recorded)
      ensures var l := recorded[|recorded| - 1];
              && l.key == key && l.input == input && l.output == output && l.other == other
              && forall p | IsPrice(p, prices, model) :: l.cost == CostAt(p, input, output, cached, multiplier)
      ensures multiset(recorded) == multiset(buf) + multiset(rows) + multiset(dropped) && |buf| < 20
      ensures AddsUp(totals, rows, failed) && (failed == [] ==> AreSums(totals, rows))
      ensures prices == old(prices) && multiplier == old(multiplier)
    {
      hide At, CostAt, IsPrice, Accepted;
      var cost := CostLocked(prices, multiplier, model, input, output, cached);
      var l := Log(key, input, output, cost, other);
      Append(l);
      if |buf| >= FLUSH_BATCH {
        Flush();
      }
      EachLogIsSomewhere();
      TotalsAddUp();
    }

    method Append(l: Log)
      requires At(Idle)
      modifies this`buf, this`recorded, this`steps
      ensures At(if |buf| >= FLUSH_BATCH then Full else Idle)
      ensures buf == old(buf) + [l] && recorded == old(recorded) + [l]
    {
      buf := buf + [l];
      recorded := recorded + [l];
      OneMoreStep(Start(1, keys), steps, UsageLogs.Record(0, l));
      steps := steps + [UsageLogs.Record(0, l)];
    }

    /** The logs of a batch whose inserts work, the first of them being insert number `from`. */
    function Accepted(batch: seq<Log>, from: nat): seq<Log> {
      if batch == [] then [] else (if insertWorks(from) then [batch[0]] else []) + Accepted(batch[1..], from + 1)
    }

    lemma AcceptedStep(batch: seq<Log>, from: nat)
      ensures batch != [] ==>
        Accepted(batch, from) == (if insertWorks(from) then [batch[0]] else []) + Accepted(batch[1..], from + 1)
      ensures batch == [] ==> Accepted(batch, from) == []
    {
    }

    method Flush()
      requires At(Idle) || At(Full)
      modifies this`buf, this`inserts, this`updates, this`rows, this`totals, this`dropped, this`failed, this`steps
      ensures At(Idle) && buf == []
      ensures rows == old(rows) + Accepted(old(buf), old(inserts)) && inserts == old(inserts) + |old(buf)|
      ensures totals.Keys == old(totals).Keys && old(updates) <= updates
      ensures UpdatesWork(old(updates), updates) ==> failed == old(failed)
      ensures AddsUp(totals, rows, failed) && (failed == [] ==> AreSums(totals, rows))
    {
      var batch := TakeBuffer();
      StoreAll(batch);
      TotalsAddUp();
    }

    /** Between flushes totals and rows agree. */
    lemma TotalsAddUp()
      requires At(Idle)
      ensures AddsUp(totals, rows, failed) && (failed == [] ==> AreSums(totals, rows))
    {
      hide Run, Start, AddsUp, AreSums;
      var s := View(Idle);
      assert Run(Start(1, keys), steps) == s && Quiescent(s);
      RestAddsUp(1, keys, steps);
      NoneFailed(totals, rows, failed);
    }

    predicate UpdatesWork(from: nat, to: nat) {
      forall n: nat | from <= n < to :: updateWorks(n)
    }

    lemma UpdatesWorkOn(from: nat, middle: nat, to: nat)
      requires from <= middle <= to
      ensures UpdatesWork(from, to) <==> UpdatesWork(from, middle) && UpdatesWork(middle, to)
      ensures UpdatesWork(from, from) && (UpdatesWork(from, from + 1) <==> updateWorks(from))
    {
    }

    method TakeBuffer() returns (batch: seq<Log>)
      requires At(Idle) || At(Full)
      modifies this`buf, this`steps
      ensures batch == old(buf) && buf == [] && At(Next(batch))
    {
      batch := buf;
      buf := [];
      OneMoreStep(Start(1, keys), steps, UsageLogs.Flush(0));
      steps := steps + [UsageLogs.Flush(0)];
    }

    method StoreAll(batch: seq<Log>)
      requires At(Next(batch))
      modifies this`inserts, this`updates, this`rows, this`totals, this`dropped, this`failed, this`steps
      ensures At(Idle)
      ensures rows == old(rows) + Accepted(batch, old(inserts)) && inserts == old(inserts) + |batch|
      ensures totals.Keys == old(totals).Keys && old(updates) <= updates
      ensures UpdatesWork(old(updates), updates) ==> failed == old(failed)
    {
      hide At, Accepted, UpdatesWork;
      var i := 0;
      assert batch[0..] == batch;
      while i < |batch|
        invariant i <= |batch| && At(Next(batch[i..])) && inserts == old(inserts) + i
        invariant rows + Accepted(batch[i..], inserts) == old(rows) + Accepted(batch, old(inserts))
        invariant totals.Keys == old(totals).Keys && old(updates) <= updates
        invariant UpdatesWork(old(updates), updates) ==> failed == old(failed)
      {
        ghost var before := updates;
        AcceptedStep(batch[i..], inserts);
        assert batch[i..][1..] == batch[i + 1..];
        Store(batch[i..]);
        UpdatesWorkOn(old(updates), before, updates);
        i := i + 1;
      }
      AcceptedStep(batch[i..], inserts);
    }

    /** One turn of the loop of Flush. */
    method Store(batch: seq<Log>)
      requires batch != [] && At(Next(batch))
      modifies this`inserts, this`updates, this`rows, this`totals, this`dropped, this`failed, this`steps
      ensures At(Next(batch[1..])) && inserts == old(inserts) + 1
      ensures rows == old(rows) + if insertWorks(old(inserts)) then [batch[0]] else []
      ensures totals.Keys == old(totals).Keys && old(updates) <= updates
      ensures UpdatesWork(old(updates), updates) ==> failed == old(failed)
    {
      hide *;
      var l := batch[0];
      var ok := insertWorks(inserts);
      ghost var before := View(Next(batch));
      AtIs(Next(batch));
      inserts := inserts + 1;
      if ok {
        rows := rows + [l];
      } else {
        dropped := dropped + [l];
      }
      ghost var next := if ok && l.key != "" then Flushing(Some(l), batch[1..]) else Next(batch[1..]);
      InsertStep(before, batch, ok);
      AtIs(next);
      Advance(before, UsageLogs.AddUsageLog(0, ok), next);
      if ok && l.key != "" {
        AddUsage(l, batch[1..]);
      }
    }

    method AddUsage(l: Log, rest: seq<Log>)
      requires At(Flushing(Some(l), rest))
      modifies this`updates, this`totals, this`failed, this`steps
      ensures At(Next(rest))
      ensures totals.Keys == old(totals).Keys && updates == old(updates) + 1
      ensures UpdatesWork(old(updates), updates) ==> failed == old(failed)
    {
      hide *;
      UpdatesWorkOn(updates, updates, updates);
      var ok := updateWorks(updates);
      ghost var before := View(Flushing(Some(l), rest));
      AtIs(Flushing(Some(l), rest));
      updates := updates + 1;
      if !ok {
        failed := failed + [l];
      } else if l.key in totals {
        totals := totals[l.key := Plus(totals[l.key], Usage(l))];
      }
      UpdateStep(before, l, rest, ok);
      AtIs(Next(rest));
      Advance(before, UsageLogs.AddUsage(0, ok), Next(rest));
    }

    /** Close, after the loop has stopped. */
    method Close()
      requires Valid()
      modifies this
      ensures Valid() && buf == []
      ensures multiset(recorded) == multiset(rows) + multiset(dropped) && recorded == old(recorded)
      ensures AddsUp(totals, rows, failed) && (failed == [] ==> AreSums(totals, rows))
    {
      Flush();
      EachLogIsSomewhere();
    }
  }

  /** The steps of a single goroutine. */
  lemma InsertStep(s: State, batch: seq<Log>, ok: bool)
    requires batch != [] && s.threads == [Next(batch)]
    ensures var next := if ok && batch[0].key != "" then Flushing(Some(batch[0]), batch[1..]) else Next(batch[1..]);
      Step(s, UsageLogs.AddUsageLog(0, ok)) ==
      if ok then s.(rows := s.rows + [batch[0]], threads := [next])
      else s.(dropped := s.dropped + [batch[0]], threads := [next])
  {
  }

  lemma UpdateStep(s: State, l: Log, rest: seq<Log>, ok: bool)
    requires s.threads == [Flushing(Some(l), rest)]
    ensures Step(s, UsageLogs.AddUsage(0, ok)) ==
      if !ok then s.(failed := s.failed + [l], threads := [Next(rest)])
      else if l.key in s.totals then
        s.(totals := s.totals[l.key := Plus(s.totals[l.key], Usage(l))], threads := [Next(rest)])
      else s.(threads := [Next(rest)])
  {
    hide Plus, Usage;
  }

  lemma OneMoreStep(s: State, steps: seq<Action>, a: Action)
    ensures Run(s, steps + [a]) == Step(Run(s, steps), a)
  {
    assert (steps + [a])[..|steps|] == steps;
  }
}
