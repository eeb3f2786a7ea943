/** The in-flight slots of accounts: TryAcquire and Release of internal/pool/pool.go under
    every interleaving of loads, compare-and-swaps and decrements. */
module Inflight {
  import opened Counting

  /** Where a request stands: looking for an account, about to load the counter of one, holding
      a loaded value, or inside tryEntry with a slot. */
  datatype Phase =
    | Outside
    | Trying(entry: string)
    | Loaded(entry: string, cur: int)
    | Inside(entry: string)

  /** `max` is the limit all requests pass; 0 or less means no limit. */
  datatype State = State(max: int, inflight: map<string, int>, requests: seq<Phase>)

  /** One atomic step of request `r`. */
  datatype Action =
    | Pick(r: nat, entry: string)
    | Load(r: nat)
    | CompareAndSwap(r: nat)
    | Release(r: nat)

  function Move(s: State, r: nat, phase: Phase): State
    requires r < |s.requests|
  {
    s.(requests := s.requests[r := phase])
  }

  function Add(s: State, entry: string, delta: int): State
    requires entry in s.inflight
  {
    s.(inflight := s.inflight[entry := s.inflight[entry] + delta])
  }

  /** The state after an action; an action that is not possible changes nothing. */
  function Step(s: State, a: Action): State {
    if a.r >= |s.requests| then s
    else
      match (a, s.requests[a.r])
      case (Pick(r, e), Outside) => if e in s.inflight then Move(s, r, Trying(e)) else s
      case (Load(r), Trying(e)) =>
        if e !in s.inflight then s
        else if s.max > 0 && s.inflight[e] >= s.max then Move(s, r, Outside)
        else Move(s, r, Loaded(e, s.inflight[e]))
      case (CompareAndSwap(r), Loaded(e, cur)) =>
        if e !in s.inflight then s
        else if s.inflight[e] == cur then Move(Add(s, e, 1), r, Inside(e))
        else Move(s, r, Trying(e))
      case (Release(r), Inside(e)) => if e in s.inflight then Move(Add(s, e, -1), r, Outside) else s
      case _ => s
  }

  function Run(s: State, actions: seq<Action>): State {
    if actions == [] then s else Step(Run(s, actions[..|actions| - 1]), actions[|actions| - 1])
  }

  ghost predicate Initial(s: State) {
    && (forall e | e in s.inflight :: s.inflight[e] == 0)
    && (forall p | p in s.requests :: p == Outside)
  }

  /** How many requests are inside tryEntry for `entry`. */
  function InsideCount(s: State, entry: string): nat {
    Count(s.requests, p => p == Inside(entry))
  }

  ghost predicate Inv(s: State) {
    && (forall e | e in s.inflight :: s.inflight[e] == InsideCount(s, e))
    && (s.max > 0 ==> forall e | e in s.inflight :: s.inflight[e] <= s.max)
    && (forall p | p in s.requests && p.Loaded? :: s.max > 0 ==> p.cur < s.max)
    && (forall p | p in s.requests && p != Outside :: p.entry in s.inflight)
  }

  lemma InitialInv(s: State)
    requires Initial(s)
    ensures Inv(s)
  {
    forall e | e in s.inflight ensures InsideCount(s, e) == 0 {
      assert forall i | 0 <= i < |s.requests| :: s.requests[i] in s.requests;
      CountNone(s.requests, p => p == Inside(e));
    }
  }

  lemma StepInv(s: State, a: Action)
    requires Inv(s)
    ensures Inv(Step(s, a)) && Step(s, a).max == s.max && Step(s, a).inflight.Keys == s.inflight.Keys
  {
    var t := Step(s, a);
    if t != s {
      StepMoves(s, a);
      var was, now := s.requests[a.r], t.requests[a.r];
      hide Step;
      assert was in s.requests;
      assert forall p | p in t.requests :: p == now || p in s.requests;
      forall e | e in t.inflight ensures t.inflight[e] == InsideCount(t, e) {
        CountUpdate(s.requests, a.r, now, p => p == Inside(e));
      }
    }
  }

  /** A step moves one request, and changes a counter as that request enters or leaves. */
  lemma StepMoves(s: State, a: Action)
    requires Inv(s) && Step(s, a) != s
    ensures var t := Step(s, a);
      && a.r < |s.requests| && |t.requests| == |s.requests| && t.requests == s.requests[a.r := t.requests[a.r]]
      && t.max == s.max && t.inflight.Keys == s.inflight.Keys
    ensures var t, was, now := Step(s, a), s.requests[a.r], Step(s, a).requests[a.r];
      && (now != Outside ==> now.entry in s.inflight)
      && (now.Loaded? && s.max > 0 ==> now.cur < s.max)
      && (forall e | e in s.inflight ::
            && t.inflight[e] ==
               s.inflight[e] + (if now == Inside(e) then 1 else 0) - (if was == Inside(e) then 1 else 0)
            && (s.max > 0 ==> t.inflight[e] <= s.max))
  {
    assert a.r < |s.requests| && s.requests[a.r] in s.requests;
    hide InsideCount;
  }

  /** In every interleaving each counter is the number of requests inside tryEntry for the account,
      so it is never negative, and it never exceeds a positive limit. */
  lemma {:induction false} SlotsAreExact(s: State, actions: seq<Action>)
    requires Initial(s)
    ensures var t := Run(s, actions);
      && Inv(t) && t.max == s.max && t.inflight.Keys == s.inflight.Keys
      && forall e | e in s.inflight ::
           && 0 <= t.inflight[e] == InsideCount(t, e)
           && (s.max > 0 ==> t.inflight[e] <= s.max)
  {
    if actions == [] {
      InitialInv(s);
    } else {
      var before := actions[..|actions| - 1];
      SlotsAreExact(s, before);
      StepInv(Run(s, before), actions[|actions| - 1]);
    }
  }

  /** When no request is inside, every counter is back to zero. */
  lemma QuiescentCountersAreZero(s: State, actions: seq<Action>)
    requires Initial(s)
    requires forall p | p in Run(s, actions).requests :: !p.Inside?
    ensures forall e | e in s.inflight :: e in Run(s, actions).inflight && Run(s, actions).inflight[e] == 0
  {
    var t := Run(s, actions);
    SlotsAreExact(s, actions);
    forall e | e in s.inflight ensures t.inflight[e] == 0 {
      assert forall i | 0 <= i < |t.requests| :: t.requests[i] in t.requests;
      CountNone(t.requests, p => p == Inside(e));
    }
  }

  /** A request is refused only by a counter that had reached the limit at its load. */
  lemma RefusedOnlyWhenFull(s: State, r: nat)
    requires Inv(s) && r < |s.requests| && s.requests[r].Trying?
    ensures Step(s, Load(r)).requests[r] == Outside
       <==> s.max > 0 && InsideCount(s, s.requests[r].entry) == s.max
  {
    assert s.requests[r] in s.requests;
  }
}
