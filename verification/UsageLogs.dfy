/** Recorder of internal/billing/billing.go and the two store effects it uses: usage logs go from the buffer
    through a flushed batch into rows, and their usage into the totals of their key, under every
    interleaving of requests, the timer and Close. */
module UsageLogs {
  import opened Options
  import Text

  const FLUSH_BATCH := 20

  /** A usage log with its cost; `other` stands for the fields that are only stored. */
  datatype Log = Log(key: string, input: int, output: int, cost: real, other: string)

  datatype Totals = Totals(input: int, output: int, cost: real)

  const ZERO := Totals(0, 0, 0.0)

  function Plus(a: Totals, b: Totals): Totals {
    Totals(a.input + b.input, a.output + b.output, a.cost + b.cost)
  }

  /** A goroutine: outside Flush; back from appending to a full buffer; or in the loop of Flush, with the log
      whose row is stored but whose usage is not added yet, and the rest of its batch. */
  datatype Thread = Idle | Full | Flushing(pending: Option<Log>, batch: seq<Log>)

  /** `rows` and `totals` are the store: one entry of `totals` for each key that exists. `dropped` and `failed`
      are the logs whose insert and whose usage update failed; `recorded` is all logs ever given to Record. */
  datatype State = State(
    buf: seq<Log>, threads: seq<Thread>, rows: seq<Log>, dropped: seq<Log>,
    totals: map<string, Totals>, failed: seq<Log>, recorded: seq<Log>)

  datatype Action =
    | Record(t: nat, log: Log)
    | Flush(t: nat)
    | AddUsageLog(t: nat, ok: bool)
    | AddUsage(t: nat, ok: bool)
    | DeleteKey(key: string)

  function Usage(l: Log): Totals { Totals(l.input, l.output, l.cost) }

  function Next(batch: seq<Log>): Thread {
    if batch == [] then Idle else Flushing(None, batch)
  }

  /** The state after an action; an action that is not possible changes nothing. */
  function Step(s: State, a: Action): State {
    if a.DeleteKey? then s.(totals := s.totals - {a.key})
    else if a.t >= |s.threads| then s
    else ThreadStep(s, a)
  }

  function ThreadStep(s: State, a: Action): State
    requires !a.DeleteKey? && a.t < |s.threads|
  {
    match (a, s.threads[a.t])
    case (Record(t, l), Idle) =>
      s.(buf := s.buf + [l], recorded := s.recorded + [l],
         threads := s.threads[t := if |s.buf| + 1 >= FLUSH_BATCH then Full else Idle])
    case (Flush(t), Idle) => s.(threads := s.threads[t := Next(s.buf)], buf := [])
    case (Flush(t), Full) => s.(threads := s.threads[t := Next(s.buf)], buf := [])
    case (AddUsageLog(t, ok), Flushing(None, batch)) =>
      if batch == [] then s
      else if !ok then s.(dropped := s.dropped + [batch[0]], threads := s.threads[t := Next(batch[1..])])
      else s.(rows := s.rows + [batch[0]],
              threads := s.threads[t := if batch[0].key != "" then Flushing(Some(batch[0]), batch[1..])
                                        else Next(batch[1..])])
    case (AddUsage(t, ok), Flushing(Some(l), batch)) =>
      if !ok then s.(failed := s.failed + [l], threads := s.threads[t := Next(batch)])
      else s.(totals := if l.key in s.totals then s.totals[l.key := Plus(s.totals[l.key], Usage(l))] else s.totals,
              threads := s.threads[t := Next(batch)])
    case _ => s
  }

  function Run(s: State, actions: seq<Action>): State {
    if actions == [] then s else Step(Run(s, actions[..|actions| - 1]), actions[|actions| - 1])
  }

  function Start(n: nat, keys: set<string>): State {
    State([], seq(n, _ => Idle), [], [], map k | k in keys :: ZERO, [], [])
  }

  // ---- what is in flight ----

  function BatchOf(th: Thread): seq<Log> {
    if th.Flushing? then th.batch else []
  }

  /** How often `l` is among the logs. */
  function Times(logs: seq<Log>, l: Log): nat { multiset(logs)[l] }

  function InFlight(threads: seq<Thread>, l: Log): nat {
    if threads == [] then 0 else Times(BatchOf(threads[0]), l) + InFlight(threads[1..], l)
  }

  /** What a log adds to the totals of `key`. */
  function Share(l: Log, key: string): Totals {
    if l.key == key then Usage(l) else ZERO
  }

  function SumFor(logs: seq<Log>, key: string): Totals {
    if logs == [] then ZERO else Plus(SumFor(logs[..|logs| - 1], key), Share(logs[|logs| - 1], key))
  }

  function PendingOf(th: Thread, key: string): Totals {
    if th.Flushing? && th.pending.Some? then Share(th.pending.value, key) else ZERO
  }

  function PendingFor(threads: seq<Thread>, key: string): Totals {
    if threads == [] then ZERO else Plus(PendingOf(threads[0], key), PendingFor(threads[1..], key))
  }

  lemma SumForAppend(logs: seq<Log>, l: Log, key: string)
    ensures SumFor(logs + [l], key) == Plus(SumFor(logs, key), Share(l, key))
  {
    assert (logs + [l])[..|logs|] == logs;
  }

  lemma TimesAppend(logs: seq<Log>, x: Log, l: Log)
    ensures Times(logs + [x], l) == Times(logs, l) + if x == l then 1 else 0
  {
  }

  lemma TimesCons(logs: seq<Log>, l: Log)
    requires logs != []
    ensures Times(logs, l) == Times(logs[1..], l) + if logs[0] == l then 1 else 0
  {
    assert logs == [logs[0]] + logs[1..];
  }

  lemma {:induction false} InFlightUpdate(threads: seq<Thread>, t: nat, th: Thread, l: Log)
    requires t < |threads|
    ensures InFlight(threads[t := th], l) + Times(BatchOf(threads[t]), l)
         == InFlight(threads, l) + Times(BatchOf(th), l)
  {
    hide BatchOf, Times;
    if t == 0 {
      assert threads[t := th][1..] == threads[1..];
    } else {
      assert threads[t := th][1..] == threads[1..][t - 1 := th];
      InFlightUpdate(threads[1..], t - 1, th, l);
    }
  }

  lemma {:induction false} PendingUpdate(threads: seq<Thread>, t: nat, th: Thread, key: string)
    requires t < |threads|
    ensures Plus(PendingFor(threads[t := th], key), PendingOf(threads[t], key))
         == Plus(PendingFor(threads, key), PendingOf(th, key))
  {
    hide PendingOf;
    if t == 0 {
      assert threads[t := th][1..] == threads[1..];
    } else {
      assert threads[t := th][1..] == threads[1..][t - 1 := th];
      PendingUpdate(threads[1..], t - 1, th, key);
    }
  }

  lemma {:induction false} IdleHoldsNothing(threads: seq<Thread>, l: Log, key: string)
    requires forall th | th in threads :: !th.Flushing?
    ensures InFlight(threads, l) == 0 && PendingFor(threads, key) == ZERO
  {
    if threads != [] {
      assert threads[0] in threads;
      IdleHoldsNothing(threads[1..], l, key);
    }
  }

  // ---- the invariants ----

  /** Every log is as often in the buffer, in a batch, in the rows and dropped together as it was recorded. */
  ghost predicate Conserved(s: State, l: Log) {
    Times(s.recorded, l) == Times(s.buf, l) + InFlight(s.threads, l) + Times(s.rows, l) + Times(s.dropped, l)
  }

  /** The rows of a key that exists are accounted for: in its totals, about to be, or failed. */
  ghost predicate TotalsMatch(s: State, key: string) {
    key in s.totals && key != "" ==>
      SumFor(s.rows, key) == Plus(s.totals[key], Plus(PendingFor(s.threads, key), SumFor(s.failed, key)))
  }

  /** A step changes at most one goroutine, to `th`, and moves at most one log or the whole buffer. */
  lemma StepConserves(s: State, a: Action, l: Log)
    requires Conserved(s, l)
    ensures Conserved(Step(s, a), l)
  {
    hide Times, InFlight;
    if !a.DeleteKey? && a.t < |s.threads| {
      var was := s.threads[a.t];
      NextBatch(s.buf);
      TimesOfNone(l);
      match a
      case Record(t, x) =>
        TimesAppend(s.buf, x, l);
        TimesAppend(s.recorded, x, l);
        InFlightUpdate(s.threads, t, if |s.buf| + 1 >= FLUSH_BATCH then Full else Idle, l);
      case Flush(t) =>
        InFlightUpdate(s.threads, t, Next(s.buf), l);
      case AddUsageLog(t, ok) =>
        if was.Flushing? && was.batch != [] {
          var x, rest := was.batch[0], was.batch[1..];
          NextBatch(rest);
          TimesCons(was.batch, l);
          TimesAppend(s.rows, x, l);
          TimesAppend(s.dropped, x, l);
          InFlightUpdate(s.threads, t, Next(rest), l);
          InFlightUpdate(s.threads, t, Flushing(Some(x), rest), l);
        }
      case AddUsage(t, ok) =>
        if was.Flushing? {
          NextBatch(was.batch);
          InFlightUpdate(s.threads, t, Next(was.batch), l);
        }
    }
  }

  lemma NextBatch(batch: seq<Log>)
    ensures BatchOf(Next(batch)) == batch
  {
  }

  lemma TimesOfNone(l: Log)
    ensures Times([], l) == 0
  {
  }

  lemma StepMatchesTotals(s: State, a: Action, key: string)
    requires TotalsMatch(s, key)
    ensures TotalsMatch(Step(s, a), key)
  {
    hide SumFor, PendingFor, Share, TotalsMatch, ThreadStep;
    if a.DeleteKey? {
      DeleteMatches(s, a.key, key);
    } else if a.t < |s.threads| {
      match a
      case Record(t, x) => BufferMatches(s, a, key);
      case Flush(t) => BufferMatches(s, a, key);
      case AddUsageLog(t, ok) => InsertMatches(s, t, ok, key);
      case AddUsage(t, ok) => UpdateMatches(s, t, ok, key);
    }
  }

  lemma DeleteMatches(s: State, deleted: string, key: string)
    requires TotalsMatch(s, key)
    ensures TotalsMatch(s.(totals := s.totals - {deleted}), key)
  {
    hide SumFor, PendingFor;
  }

  lemma BufferMatches(s: State, a: Action, key: string)
    requires (a.Record? || a.Flush?) && a.t < |s.threads| && TotalsMatch(s, key)
    ensures TotalsMatch(ThreadStep(s, a), key)
  {
    hide SumFor, PendingFor, Share;
    PendingUpdate(s.threads, a.t, if |s.buf| + 1 >= FLUSH_BATCH then Full else Idle, key);
    PendingUpdate(s.threads, a.t, Next(s.buf), key);
  }

  lemma InsertMatches(s: State, t: nat, ok: bool, key: string)
    requires t < |s.threads| && TotalsMatch(s, key)
    ensures TotalsMatch(ThreadStep(s, AddUsageLog(t, ok)), key)
  {
    hide SumFor, PendingFor, Share;
    var was := s.threads[t];
    if was.Flushing? && was.batch != [] {
      var x, rest := was.batch[0], was.batch[1..];
      SumForAppend(s.rows, x, key);
      ShareOf(x, key);
      PendingUpdate(s.threads, t, Next(rest), key);
      PendingUpdate(s.threads, t, Flushing(Some(x), rest), key);
    }
  }

  lemma UpdateMatches(s: State, t: nat, ok: bool, key: string)
    requires t < |s.threads| && TotalsMatch(s, key)
    ensures TotalsMatch(ThreadStep(s, AddUsage(t, ok)), key)
  {
    hide SumFor, PendingFor, Share;
    var was := s.threads[t];
    if was.Flushing? && was.pending.Some? {
      SumForAppend(s.failed, was.pending.value, key);
      ShareOf(was.pending.value, key);
      PendingUpdate(s.threads, t, Next(was.batch), key);
    }
  }

  lemma ShareOf(l: Log, key: string)
    ensures Share(l, key) == if l.key == key then Usage(l) else ZERO
  {
  }

  lemma StartIs(n: nat, keys: set<string>, l: Log, key: string)
    ensures Conserved(Start(n, keys), l) && TotalsMatch(Start(n, keys), key)
  {
    IdleHoldsNothing(seq(n, _ => Idle), l, key);
  }

  /** Conservation in every interleaving. */
  lemma {:induction false} RunConserves(n: nat, keys: set<string>, actions: seq<Action>, l: Log, key: string)
    ensures Conserved(Run(Start(n, keys), actions), l)
    ensures TotalsMatch(Run(Start(n, keys), actions), key)
  {
    hide Conserved, TotalsMatch, Step, Start;
    if actions == [] {
      StartIs(n, keys, l, key);
    } else {
      var before, last := actions[..|actions| - 1], actions[|actions| - 1];
      RunConserves(n, keys, before, l, key);
      StepConserves(Run(Start(n, keys), before), last, l);
      StepMatchesTotals(Run(Start(n, keys), before), last, key);
    }
  }

  ghost predicate Quiescent(s: State) {
    forall th | th in s.threads :: th == Idle
  }

  /** The store accepted everything it was given. */
  predicate NoStoreErrors(actions: seq<Action>) {
    forall a | a in actions && (a.AddUsageLog? || a.AddUsage?) :: a.ok
  }

  lemma {:induction false} NothingLost(s: State, actions: seq<Action>)
    requires NoStoreErrors(actions) && s.dropped == [] && s.failed == []
    ensures Run(s, actions).dropped == [] && Run(s, actions).failed == []
  {
    if actions != [] {
      var before, last := actions[..|actions| - 1], actions[|actions| - 1];
      assert last in actions && forall a | a in before :: a in actions;
      NothingLost(s, before);
    }
  }

  // ---- the totals, one field at a time ----

  function InputOf(logs: seq<Log>, key: string): int {
    if logs == [] then 0
    else InputOf(logs[..|logs| - 1], key) + if logs[|logs| - 1].key == key then logs[|logs| - 1].input else 0
  }

  function OutputOf(logs: seq<Log>, key: string): int {
    if logs == [] then 0
    else OutputOf(logs[..|logs| - 1], key) + if logs[|logs| - 1].key == key then logs[|logs| - 1].output else 0
  }

  function CostOf(logs: seq<Log>, key: string): real {
    if logs == [] then 0.0
    else CostOf(logs[..|logs| - 1], key) + if logs[|logs| - 1].key == key then logs[|logs| - 1].cost else 0.0
  }

  lemma {:induction false} SumForIsFieldwise(logs: seq<Log>, key: string)
    ensures SumFor(logs, key) == Totals(InputOf(logs, key), OutputOf(logs, key), CostOf(logs, key))
  {
    hide *;
    NothingAddsUp(key);
    if logs != [] {
      var before, last := logs[..|logs| - 1], logs[|logs| - 1];
      assert logs == before + [last];
      SumForIsFieldwise(before, key);
      SumForAppend(before, last, key);
      FieldsAppend(before, last, key);
      ShareAdds(SumFor(before, key), last, key);
    }
  }

  lemma NothingAddsUp(key: string)
    ensures SumFor([], key) == Totals(0, 0, 0.0)
    ensures InputOf([], key) == 0 && OutputOf([], key) == 0 && CostOf([], key) == 0.0
  {
  }

  lemma FieldsAppend(logs: seq<Log>, l: Log, key: string)
    ensures InputOf(logs + [l], key) == InputOf(logs, key) + if l.key == key then l.input else 0
    ensures OutputOf(logs + [l], key) == OutputOf(logs, key) + if l.key == key then l.output else 0
    ensures CostOf(logs + [l], key) == CostOf(logs, key) + if l.key == key then l.cost else 0.0
  {
    assert (logs + [l])[..|logs|] == logs;
  }

  lemma ShareAdds(before: Totals, l: Log, key: string)
    ensures Plus(before, Share(l, key)) ==
      if l.key == key then Totals(before.input + l.input, before.output + l.output, before.cost + l.cost) else before
  {
  }

  /** The rows of every key that exists are in its totals, field by field, except those whose update failed. */
  ghost predicate AddsUp(totals: map<string, Totals>, rows: seq<Log>, failed: seq<Log>) {
    forall key | key in totals && key != "" ::
      && InputOf(rows, key) == totals[key].input + InputOf(failed, key)
      && OutputOf(rows, key) == totals[key].output + OutputOf(failed, key)
      && CostOf(rows, key) == totals[key].cost + CostOf(failed, key)
  }

  /** The totals of every key that exists are the sums of its rows, field by field. */
  ghost predicate AreSums(totals: map<string, Totals>, rows: seq<Log>) {
    forall key | key in totals && key != "" ::
      && totals[key].input == InputOf(rows, key)
      && totals[key].output == OutputOf(rows, key)
      && totals[key].cost == CostOf(rows, key)
  }

  /** At rest, whatever the store did, totals and rows agree. */
  lemma RestAddsUp(n: nat, keys: set<string>, actions: seq<Action>)
    requires Quiescent(Run(Start(n, keys), actions))
    ensures var s := Run(Start(n, keys), actions); AddsUp(s.totals, s.rows, s.failed)
  {
    hide *;
    var s, none := Run(Start(n, keys), actions), Log("", 0, 0, 0.0, "");
    forall key | key in s.totals && key != ""
      ensures InputOf(s.rows, key) == s.totals[key].input + InputOf(s.failed, key)
      ensures OutputOf(s.rows, key) == s.totals[key].output + OutputOf(s.failed, key)
      ensures CostOf(s.rows, key) == s.totals[key].cost + CostOf(s.failed, key)
    {
      RunConserves(n, keys, actions, none, key);
      NothingPending(s, key);
      FieldsMatch(s, key);
    }
    AddsUpWhen(s);
  }

  lemma AddsUpWhen(s: State)
    requires forall key | key in s.totals && key != "" ::
      && InputOf(s.rows, key) == s.totals[key].input + InputOf(s.failed, key)
      && OutputOf(s.rows, key) == s.totals[key].output + OutputOf(s.failed, key)
      && CostOf(s.rows, key) == s.totals[key].cost + CostOf(s.failed, key)
    ensures AddsUp(s.totals, s.rows, s.failed)
  {
    hide InputOf, OutputOf, CostOf;
  }

  lemma FieldsMatch(s: State, key: string)
    requires TotalsMatch(s, key) && PendingFor(s.threads, key) == ZERO && key in s.totals && key != ""
    ensures InputOf(s.rows, key) == s.totals[key].input + InputOf(s.failed, key)
    ensures OutputOf(s.rows, key) == s.totals[key].output + OutputOf(s.failed, key)
    ensures CostOf(s.rows, key) == s.totals[key].cost + CostOf(s.failed, key)
  {
    hide SumFor, PendingFor, InputOf, OutputOf, CostOf;
    SumForIsFieldwise(s.rows, key);
    SumForIsFieldwise(s.failed, key);
  }

  /** When nobody is in Flush and the buffer is empty, each recorded log is a row or was dropped, once; without
      store errors each is a row, once, and the totals of every key that still exists are the sums of its rows. */
  lemma StoredExactlyOnce(n: nat, keys: set<string>, actions: seq<Action>)
    requires var s := Run(Start(n, keys), actions); Quiescent(s) && s.buf == []
    ensures var s := Run(Start(n, keys), actions);
            && multiset(s.recorded) == multiset(s.rows) + multiset(s.dropped)
            && (NoStoreErrors(actions) ==> multiset(s.recorded) == multiset(s.rows))
            && (NoStoreErrors(actions) ==> AreSums(s.totals, s.rows))
  {
    var s := Run(Start(n, keys), actions);
    assert NoStoreErrors(actions) ==> s.dropped == [] && s.failed == [] by {
      if NoStoreErrors(actions) {
        NothingLost(Start(n, keys), actions);
      }
    }
    assert forall th | th in s.threads :: !th.Flushing?;
    hide Run, Start, NoStoreErrors, InFlight, PendingFor, AreSums, AddsUp;
    forall l ensures multiset(s.recorded)[l] == multiset(s.rows)[l] + multiset(s.dropped)[l] {
      RunConserves(n, keys, actions, l, "");
      IdleHoldsNothing(s.threads, l, "");
    }
    if NoStoreErrors(actions) {
      assert multiset(s.recorded) == multiset(s.rows);
      RestAddsUp(n, keys, actions);
      NoneFailed(s.totals, s.rows, s.failed);
    }
  }

  lemma NothingPending(s: State, key: string)
    requires Quiescent(s)
    ensures PendingFor(s.threads, key) == ZERO
  {
    IdleHoldsNothing(s.threads, Log("", 0, 0, 0.0, ""), key);
  }

  lemma NoneFailed(totals: map<string, Totals>, rows: seq<Log>, failed: seq<Log>)
    requires AddsUp(totals, rows, failed)
    ensures failed == [] ==> AreSums(totals, rows)
  {
    hide InputOf, OutputOf, CostOf;
    forall key ensures InputOf([], key) == 0 && OutputOf([], key) == 0 && CostOf([], key) == 0.0 {
      NothingAddsUp(key);
    }
  }

  // ---- Close ----

  lemma {:induction false} RunConcat(s: State, a: seq<Action>, b: seq<Action>)
    ensures Run(s, a + b) == Run(Run(s, a), b)
  {
    hide Step;
    if b == [] {
      assert a + b == a;
    } else {
      var c, last := b[..|b| - 1], b[|b| - 1];
      assert (a + b)[..|a + b| - 1] == a + c;
      RunConcat(s, a, c);
    }
  }

  predicate NoRecord(actions: seq<Action>) {
    forall a | a in actions :: !a.Record?
  }

  lemma {:induction false} BufferStaysEmpty(s: State, actions: seq<Action>)
    requires NoRecord(actions) && s.buf == []
    ensures Run(s, actions).buf == []
  {
    if actions != [] {
      var before, last := actions[..|actions| - 1], actions[|actions| - 1];
      assert last in actions && forall a | a in before :: a in actions;
      BufferStaysEmpty(s, before);
    }
  }

  /** The last flush of Close, by goroutine `t`, with no Record after it: once everybody is out of Flush, every
      recorded log is stored or dropped exactly once; all are stored when the store fails on none. */
  lemma CloseStoresAll(n: nat, keys: set<string>, before: seq<Action>, t: nat, after: seq<Action>)
    requires NoRecord(after)
    requires var s := Run(Start(n, keys), before); t < |s.threads| && s.threads[t] == Idle
    requires Quiescent(Run(Start(n, keys), before + ([Flush(t)] + after)))
    ensures var s := Run(Start(n, keys), before + ([Flush(t)] + after));
            && s.buf == []
            && multiset(s.recorded) == multiset(s.rows) + multiset(s.dropped)
            && (NoStoreErrors(before + ([Flush(t)] + after)) ==>
                  multiset(s.recorded) == multiset(s.rows) && AreSums(s.totals, s.rows))
  {
    var s := Run(Start(n, keys), before);
    FlushEmpties(s, t);
    hide Step, Start, NoStoreErrors, NoRecord;
    RunConcat(Start(n, keys), before, [Flush(t)] + after);
    RunConcat(s, [Flush(t)], after);
    BufferStaysEmpty(Run(s, [Flush(t)]), after);
    StoredExactlyOnce(n, keys, before + ([Flush(t)] + after));
  }

  lemma FlushEmpties(s: State, t: nat)
    requires t < |s.threads| && s.threads[t] == Idle
    ensures Run(s, [Flush(t)]).buf == []
  {
    assert [Flush(t)][..0] == [] && Run(s, []) == s;
  }

  // ---- exactly when nothing stays behind ----

  /** At rest, every recorded log is stored or dropped exactly when the buffer is empty. */
  lemma AllStoredIffBufferEmpty(n: nat, keys: set<string>, actions: seq<Action>)
    requires Quiescent(Run(Start(n, keys), actions))
    ensures var s := Run(Start(n, keys), actions);
            multiset(s.recorded) == multiset(s.rows) + multiset(s.dropped) <==> s.buf == []
  {
    var s := Run(Start(n, keys), actions);
    hide Run, Start, Step;
    if s.buf == [] {
      StoredExactlyOnce(n, keys, actions);
    } else {
      var l := s.buf[0];
      RunConserves(n, keys, actions, l, "");
      NothingInFlight(s, l);
      TimesOfMember(s.buf, l);
      hide Quiescent;
      assert multiset(s.recorded)[l] > multiset(s.rows)[l] + multiset(s.dropped)[l];
    }
  }

  lemma NothingInFlight(s: State, l: Log)
    requires Quiescent(s)
    ensures InFlight(s.threads, l) == 0
  {
    IdleHoldsNothing(s.threads, l, "");
  }

  lemma TimesOfMember(logs: seq<Log>, l: Log)
    requires logs != [] && logs[0] == l
    ensures Times(logs, l) > 0
  {
    TimesCons(logs, l);
  }

  /** A Record that takes effect. */
  predicate Appends(s: State, a: Action) {
    a.Record? && a.t < |s.threads| && s.threads[a.t].Idle?
  }

  /** A Flush that takes effect. */
  predicate Empties(s: State, a: Action) {
    a.Flush? && a.t < |s.threads| && (s.threads[a.t].Idle? || s.threads[a.t].Full?)
  }

  predicate FlushedLater(s: State, actions: seq<Action>, i: nat) {
    exists j | i < j < |actions| :: Empties(Run(s, actions[..j]), actions[j])
  }

  /** Every Record that takes effect is followed by a Flush that takes effect. */
  predicate EveryRecordFlushed(s: State, actions: seq<Action>) {
    forall i | 0 <= i < |actions| && Appends(Run(s, actions[..i]), actions[i]) :: FlushedLater(s, actions, i)
  }

  lemma BufferStep(s: State, a: Action)
    ensures Appends(s, a) ==> Step(s, a).buf != [] && !Empties(s, a)
    ensures Empties(s, a) ==> Step(s, a).buf == []
    ensures !Appends(s, a) && !Empties(s, a) ==> Step(s, a).buf == s.buf
  {
  }

  /** How the condition grows by one action. */
  lemma FlushedStep(s: State, before: seq<Action>, a: Action)
    ensures EveryRecordFlushed(s, before + [a]) <==>
            Empties(Run(s, before), a) || (!Appends(Run(s, before), a) && EveryRecordFlushed(s, before))
  {
    hide Run, Appends, Empties;
    var all, n := before + [a], |before|;
    assert all[..n] == before && all[n] == a;
    assert forall i | 0 <= i < n :: all[..i] == before[..i] && all[i] == before[i];
    AppendsOrEmpties(Run(s, before), a);
    if Empties(Run(s, before), a) {
      forall i | 0 <= i < |all| && Appends(Run(s, all[..i]), all[i]) ensures FlushedLater(s, all, i) {
        assert Empties(Run(s, all[..n]), all[n]);
      }
    } else {
      forall i: nat | i < n ensures FlushedLater(s, all, i) <==> FlushedLater(s, before, i) {
        if FlushedLater(s, before, i) {
          var j :| i < j < n && Empties(Run(s, before[..j]), before[j]);
          assert Empties(Run(s, all[..j]), all[j]);
        }
      }
      if EveryRecordFlushed(s, all) {
        if Appends(Run(s, all[..n]), all[n]) {
          NotFlushedAfterAll(s, all);
        }
        forall i | 0 <= i < n && Appends(Run(s, before[..i]), before[i]) ensures FlushedLater(s, before, i) {
          assert Appends(Run(s, all[..i]), all[i]);
        }
      }
    }
  }

  lemma NotFlushedAfterAll(s: State, all: seq<Action>)
    requires all != []
    ensures !FlushedLater(s, all, |all| - 1)
  {
  }

  lemma AppendsOrEmpties(s: State, a: Action)
    ensures !(Appends(s, a) && Empties(s, a))
  {
  }

  /** From an empty buffer, the buffer is empty in the end exactly when every Record was followed by a Flush. */
  lemma {:induction false} BufferEmptyIff(s: State, actions: seq<Action>)
    requires s.buf == []
    ensures Run(s, actions).buf == [] <==> EveryRecordFlushed(s, actions)
  {
    hide Step, Appends, Empties, EveryRecordFlushed;
    if actions == [] {
      NothingToFlush(s);
    } else {
      var before, last := actions[..|actions| - 1], actions[|actions| - 1];
      assert actions == before + [last];
      BufferEmptyIff(s, before);
      BufferStep(Run(s, before), last);
      FlushedStep(s, before, last);
    }
  }

  lemma NothingToFlush(s: State)
    ensures EveryRecordFlushed(s, [])
  {
  }

  /** The promise of Close: once everybody is out of Flush, all recorded logs are stored or dropped exactly when
      every Record that took effect after Close's own flush was followed by yet another flush. */
  lemma CloseStoresAllIff(n: nat, keys: set<string>, before: seq<Action>, t: nat, after: seq<Action>)
    requires var s := Run(Start(n, keys), before); t < |s.threads| && s.threads[t] == Idle
    requires Quiescent(Run(Start(n, keys), before + ([Flush(t)] + after)))
    ensures var flushed := Run(Start(n, keys), before + [Flush(t)]);
            var s := Run(Start(n, keys), before + ([Flush(t)] + after));
            && (multiset(s.recorded) == multiset(s.rows) + multiset(s.dropped) <==> EveryRecordFlushed(flushed, after))
            && (NoStoreErrors(before + ([Flush(t)] + after)) ==>
                  (multiset(s.recorded) == multiset(s.rows) <==> EveryRecordFlushed(flushed, after)))
  {
    var start, all := Start(n, keys), before + ([Flush(t)] + after);
    StartLostNothing(n, keys);
    FlushEmpties(Run(start, before), t);
    hide *;
    RunConcat(start, before, [Flush(t)]);
    Text.ConcatIsAssociative(before, [Flush(t)], after);
    RunConcat(start, before + [Flush(t)], after);
    BufferEmptyIff(Run(start, before + [Flush(t)]), after);
    AllStoredIffBufferEmpty(n, keys, all);
    if NoStoreErrors(all) {
      NothingLost(start, all);
      assert multiset(Run(start, all).rows) + multiset(Run(start, all).dropped) == multiset(Run(start, all).rows);
    }
  }

  lemma StartLostNothing(n: nat, keys: set<string>)
    ensures Start(n, keys).dropped == [] && Start(n, keys).failed == []
  {
  }

  /** A witness: the log of a Record after the flush of Close stays in the buffer. */
  lemma LateRecordIsNotStored(keys: set<string>, l: Log)
    ensures var s := Run(Start(1, keys), [Flush(0), Record(0, l)]);
            Quiescent(s) && s.buf == [l] && s.recorded == [l] && s.rows == [] && s.dropped == []
  {
    var all := [Flush(0), Record(0, l)];
    assert all[..1] == [Flush(0)] && all[..1][..0] == [];
    var s := Start(1, keys);
    assert Run(s, []) == s;
    assert Run(s, all[..1]) == Step(s, Flush(0));
  }
}
