/** The OAuth flows of internal/admin/oauth.go: the store of flows, and every interleaving of browser
    callbacks, pollers, the clock and the sweeper. Times are nanoseconds. */
module OAuthFlow {
  import opened Options

  const FLOW_TTL := 600_000_000_000

  /** The outcome of addAccount: an account id or an error message. */
  datatype Result = Done(account: string) | Error(message: string)

  datatype Flow = Flow(expiresAt: int, result: Option<Result>)

  type Flows = map<string, Flow>

  /** What a poller is told. */
  datatype Seen = Pending | Finished(result: Result) | Gone

  predicate IsLive(flows: Flows, id: string, now: int) {
    id in flows && now <= flows[id].expiresAt
  }

  function Finish(flows: Flows, id: string, res: Result): Flows {
    if id in flows && flows[id].result.None? then flows[id := flows[id].(result := Some(res))] else flows
  }

  function Get(flows: Flows, id: string, now: int): Seen {
    if !IsLive(flows, id, now) then Gone
    else if flows[id].result.None? then Pending
    else Finished(flows[id].result.value)
  }

  function Swept(flows: Flows, now: int): Flows {
    map id | id in flows && IsLive(flows, id, now) :: flows[id]
  }

  function Begin(flows: Flows, id: string, now: int): Flows {
    flows[id := Flow(now + FLOW_TTL, None)]
  }

  class FlowStore {
    var flows: Flows

    constructor ()
      ensures flows == map[]
    {
      flows := map[];
    }

    method PutFlow(id: string, flow: Flow)
      modifies this
      ensures flows == old(flows)[id := flow]
    {
      flows := flows[id := flow];
    }

    method FinishFlow(id: string, res: Result)
      modifies this
      ensures flows == Finish(old(flows), id, res)
    {
      if id in flows {
        var f := flows[id];
        if f.result == None {
          flows := flows[id := f.(result := Some(res))];
        }
      }
    }

    method Lookup(id: string, now: int) returns (flow: Option<Flow>)
      ensures flow.Some? <==> IsLive(flows, id, now)
      ensures flow.Some? ==> flow.value == flows[id]
    {
      if id !in flows || now > flows[id].expiresAt {
        return None;
      }
      return Some(flows[id]);
    }

    method GetFlow(id: string, now: int) returns (res: Option<Result>, found: bool)
      ensures Get(flows, id, now) == if !found then Gone else if res.None? then Pending else Finished(res.value)
      ensures !found ==> res == None
    {
      if id !in flows || now > flows[id].expiresAt {
        return None, false;
      }
      return flows[id].result, true;
    }

    /** handleOAuthStart, after the listener: a fresh flow. */
    method StartFlow(id: string, now: int)
      modifies this
      ensures flows == Begin(old(flows), id, now)
      ensures id in flows && flows[id] == Flow(now + 600_000_000_000, None)
    {
      PutFlow(id, Flow(now + FLOW_TTL, None));
    }

    /** One callback from its lookup to its answer, alone with the store: `checked` says whether the request passes
        the checks of method, host and origin and `token` whether it brings a token; `outcome` is what addAccount
        would return. It imports exactly when the flow is live and pending and all is well, and then the flow shows
        the outcome, which is what the browser is told; any other callback leaves the flows as they were. */
    method ServeCallback(id: string, now: int, checked: bool, token: bool, outcome: Result)
      returns (imported: bool, told: Seen)
      modifies this
      ensures imported == (Get(old(flows), id, now) == Pending && checked && token)
      ensures imported ==> Get(flows, id, now) == told == Finished(outcome)
      ensures !imported ==> flows == old(flows) && (checked ==> told == Get(flows, id, now))
      ensures forall other | other != id :: Get(flows, other, now) == Get(old(flows), other, now)
    {
      imported, told := false, Gone;
      var flow := Lookup(id, now);
      if flow == None || !checked {
        return;
      }
      var res, found := GetFlow(id, now);
      if !found {
        return;
      }
      if res != None {
        told := Finished(res.value);
        return;
      }
      if !token {
        told := Pending;
        return;
      }
      imported, told := true, Finished(outcome);
      FinishFlow(id, outcome);
    }

    /** One turn of the sweeper, over the flows in any order. */
    method Sweep(now: int)
      modifies this
      ensures flows == Swept(old(flows), now)
    {
      var left := flows.Keys;
      while left != {}
        invariant left <= flows.Keys <= old(flows).Keys
        invariant forall id | id in flows :: flows[id] == old(flows)[id]
        invariant forall id | id in old(flows) && id !in left :: id in flows <==> IsLive(old(flows), id, now)
        decreases |left|
      {
        var id :| id in left;
        left := left - {id};
        if now > flows[id].expiresAt {
          flows := flows - {id};
        }
      }
    }
  }

  // ---- every interleaving ----

  /** A callback request: outside; past its lookup and its checks, waiting for the flow's callbackMu; holding it
      and about to ask for the result; inside addAccount; about to record what addAccount returned; answering. */
  datatype Callback =
    | Outside
    | Waiting(id: string)
    | Checking(id: string)
    | Importing(id: string)
    | Finishing(id: string, res: Result)
    | Answering(id: string)

  predicate HoldsLock(c: Callback, id: string) {
    !c.Outside? && !c.Waiting? && c.id == id
  }

  predicate Imports(c: Callback, id: string) {
    (c.Importing? || c.Finishing?) && c.id == id
  }

  /** `locks` is who holds the callbackMu of a flow, `used` the ids given out, `imports` the calls of addAccount
      from callbacks of each flow, `seen` what the pollers of each flow were told, in order. */
  datatype State = State(
    now: int, flows: Flows, locks: map<string, nat>, callbacks: seq<Callback>,
    used: set<string>, imports: map<string, nat>, seen: map<string, seq<Seen>>)

  /** `token`: the request brings a refresh token (and, by POST, the right header and a readable body). */
  datatype Action =
    | Put(id: string)
    | Tick(d: nat)
    | Sweep(id: string)
    | Poll(id: string)
    | Lookup(c: nat, id: string)
    | Lock(c: nat)
    | Check(c: nat, token: bool)
    | Imported(c: nat, res: Result)
    | Record(c: nat)
    | Unlock(c: nat)

  function Start(n: nat, now: int): State {
    State(now, map[], map[], seq(n, _ => Outside), {}, map[], map[])
  }

  function Move(s: State, c: nat, to: Callback): State
    requires c < |s.callbacks|
  {
    s.(callbacks := s.callbacks[c := to])
  }

  function ImportsOf(s: State, id: string): nat { if id in s.imports then s.imports[id] else 0 }

  function SeenOf(s: State, id: string): seq<Seen> { if id in s.seen then s.seen[id] else [] }

  /** The state after an action; an action that is not possible changes nothing. Flow ids are random and are
      not given out twice, and only ids that were given out are polled. */
  function Step(s: State, a: Action): State {
    match a
    case Put(id) =>
      if id in s.used then s else s.(flows := Begin(s.flows, id, s.now), used := s.used + {id})
    case Tick(d) => s.(now := s.now + d)
    case Sweep(id) => if id in s.flows && !IsLive(s.flows, id, s.now) then s.(flows := s.flows - {id}) else s
    case Poll(id) =>
      if id in s.used then s.(seen := s.seen[id := SeenOf(s, id) + [Get(s.flows, id, s.now)]]) else s
    case _ => if a.c < |s.callbacks| then CallbackStep(s, a) else s
  }

  function CallbackStep(s: State, a: Action): State
    requires a.Lookup? || a.Lock? || a.Check? || a.Imported? || a.Record? || a.Unlock?
    requires a.c < |s.callbacks|
  {
    match (a, s.callbacks[a.c])
    case (Lookup(c, id), Outside) => if IsLive(s.flows, id, s.now) then Move(s, c, Waiting(id)) else s
    case (Lock(c), Waiting(id)) =>
      if id in s.locks then s else Move(s.(locks := s.locks[id := c]), c, Checking(id))
    case (Check(c, token), Checking(id)) =>
      if Get(s.flows, id, s.now) != Pending || !token then Move(s, c, Answering(id))
      else Move(s.(imports := s.imports[id := ImportsOf(s, id) + 1]), c, Importing(id))
    case (Imported(c, res), Importing(id)) => Move(s, c, Finishing(id, res))
    case (Record(c), Finishing(id, res)) => Move(s.(flows := Finish(s.flows, id, res)), c, Answering(id))
    case (Unlock(c), Answering(id)) => Move(s.(locks := s.locks - {id}), c, Outside)
    case _ => s
  }

  function Run(s: State, actions: seq<Action>): State {
    if actions == [] then s else Step(Run(s, actions[..|actions| - 1]), actions[|actions| - 1])
  }

  // ---- the invariant ----

  /** callbackMu: exactly its holder is between Lock and Unlock. */
  ghost predicate Exclusive(s: State, id: string) {
    forall c | 0 <= c < |s.callbacks| :: HoldsLock(s.callbacks[c], id) <==> id in s.locks && s.locks[id] == c
  }

  /** Is the holder of the lock importing? */
  predicate Busy(s: State, id: string) {
    id in s.locks && s.locks[id] < |s.callbacks| && Imports(s.callbacks[s.locks[id]], id)
  }

  /** One import at most; after it has been recorded the result is there, or the flow is gone. */
  ghost predicate ImportOnce(s: State, id: string) {
    && (id in s.flows ==> id in s.used)
    && ImportsOf(s, id) <= 1
    && (Busy(s, id) ==> ImportsOf(s, id) == 1)
    && (Busy(s, id) && id in s.flows ==> s.flows[id].result.None?)
    && (ImportsOf(s, id) == 1 && !Busy(s, id) && id in s.flows ==> s.flows[id].result.Some?)
    && (ImportsOf(s, id) == 0 && id in s.flows ==> s.flows[id].result.None?)
    && (ImportsOf(s, id) == 1 ==> id in s.used)
  }

  /** Going on from `a` to `b`: pending, then one result, then gone. */
  predicate GoesOn(a: Seen, b: Seen) {
    match a
    case Pending => true
    case Finished(r) => b == a || b.Gone?
    case Gone => b.Gone?
  }

  predicate NeverGoesBack(seen: seq<Seen>) {
    forall i, j | 0 <= i < j < |seen| :: GoesOn(seen[i], seen[j])
  }

  ghost predicate SeenSoFar(s: State, id: string) {
    && NeverGoesBack(SeenOf(s, id))
    && (forall o | o in SeenOf(s, id) :: GoesOn(o, Get(s.flows, id, s.now)))
    && (id in s.seen ==> id in s.used)
  }

  lemma StepIsExclusive(s: State, a: Action, id: string)
    requires Exclusive(s, id)
    ensures Exclusive(Step(s, a), id)
  {
  }

  /** What the flow of `id` shows can only go on, once the id is given out. */
  lemma StepGoesOn(s: State, a: Action, id: string)
    requires id in s.used
    ensures GoesOn(Get(s.flows, id, s.now), Get(Step(s, a).flows, id, Step(s, a).now))
    ensures id in Step(s, a).used
  {
  }

  lemma StoreStepImportsOnce(s: State, a: Action, id: string)
    requires a.Put? || a.Tick? || a.Sweep? || a.Poll?
    requires ImportOnce(s, id)
    ensures ImportOnce(Step(s, a), id)
  {
  }

  lemma LockStepImportsOnce(s: State, a: Action, id: string)
    requires (a.Lookup? || a.Lock? || a.Unlock?) && a.c < |s.callbacks|
    requires Exclusive(s, id) && ImportOnce(s, id)
    ensures ImportOnce(CallbackStep(s, a), id)
  {
  }

  lemma ImportStepImportsOnce(s: State, a: Action, id: string)
    requires (a.Check? || a.Imported? || a.Record?) && a.c < |s.callbacks|
    requires Exclusive(s, id) && ImportOnce(s, id)
    ensures ImportOnce(CallbackStep(s, a), id)
  {
  }

  ghost predicate Inv(s: State, id: string) {
    Exclusive(s, id) && ImportOnce(s, id) && SeenSoFar(s, id)
  }

  lemma StepImportsOnce(s: State, a: Action, id: string)
    requires Exclusive(s, id) && ImportOnce(s, id)
    ensures ImportOnce(Step(s, a), id)
  {
    hide Exclusive, ImportOnce, CallbackStep;
    if a.Put? || a.Tick? || a.Sweep? || a.Poll? {
      StoreStepImportsOnce(s, a, id);
    } else if a.c < |s.callbacks| {
      if a.Lookup? || a.Lock? || a.Unlock? {
        LockStepImportsOnce(s, a, id);
      } else {
        ImportStepImportsOnce(s, a, id);
      }
    }
  }

  lemma SeenChangesByPoll(s: State, a: Action, id: string)
    ensures SeenOf(Step(s, a), id) ==
            if a == Poll(id) && id in s.used then SeenOf(s, id) + [Get(s.flows, id, s.now)] else SeenOf(s, id)
    ensures id in Step(s, a).seen ==> id in s.seen || (a == Poll(id) && id in s.used)
    ensures id in s.used ==> id in Step(s, a).used
  {
    hide Get, IsLive, Finish;
  }

  lemma GoesOnFurther(a: Seen, b: Seen, c: Seen)
    requires GoesOn(a, b) && GoesOn(b, c)
    ensures GoesOn(a, c) && GoesOn(c, c)
  {
  }

  lemma StepSeesOn(s: State, a: Action, id: string)
    requires SeenSoFar(s, id)
    ensures SeenSoFar(Step(s, a), id)
  {
    var seen := SeenOf(s, id);
    hide Step, Get, GoesOn, SeenOf;
    SeenChangesByPoll(s, a, id);
    var u := Step(s, a);
    if id in s.used {
      StepGoesOn(s, a, id);
      forall o | o in seen ensures GoesOn(o, Get(u.flows, id, u.now)) {
        GoesOnFurther(o, Get(s.flows, id, s.now), Get(u.flows, id, u.now));
      }
    } else {
      NotSeen(s, id);
    }
  }

  lemma NotSeen(s: State, id: string)
    requires id !in s.seen
    ensures SeenOf(s, id) == []
  {
  }

  lemma StepInv(s: State, a: Action, id: string)
    requires Inv(s, id)
    ensures Inv(Step(s, a), id)
  {
    hide Exclusive, ImportOnce, SeenSoFar, Step;
    StepIsExclusive(s, a, id);
    StepImportsOnce(s, a, id);
    StepSeesOn(s, a, id);
  }

  lemma StartInv(n: nat, now: int, id: string)
    ensures Inv(Start(n, now), id)
  {
  }

  lemma {:induction false} RunInv(n: nat, now: int, actions: seq<Action>, id: string)
    ensures Inv(Run(Start(n, now), actions), id)
  {
    hide Inv, Step, Start;
    if actions == [] {
      StartInv(n, now, id);
    } else {
      var before, last := actions[..|actions| - 1], actions[|actions| - 1];
      RunInv(n, now, before, id);
      StepInv(Run(Start(n, now), before), last, id);
    }
  }

  // ---- the properties ----

  /** However callbacks race, a flow calls addAccount at most once through its callback. When it has, and nobody
      is on the way to record the outcome, then the flow shows a result as long as it is in the store. */
  lemma OneImport(n: nat, now: int, actions: seq<Action>, id: string)
    ensures var s := Run(Start(n, now), actions);
            && ImportsOf(s, id) <= 1
            && (id in s.flows && (forall c | c in s.callbacks :: !Imports(c, id)) ==>
                  (s.flows[id].result.Some? <==> ImportsOf(s, id) == 1))
  {
    var s := Run(Start(n, now), actions);
    RunInv(n, now, actions, id);
    hide Run, Start, SeenSoFar;
    if forall c | c in s.callbacks :: !Imports(c, id) {
      if Busy(s, id) {
        assert s.callbacks[s.locks[id]] in s.callbacks;
      }
    }
  }

  /** Each poller of a flow is told pending, then one result, then gone, and never goes back. */
  lemma PollersNeverGoBack(n: nat, now: int, actions: seq<Action>, id: string)
    ensures NeverGoesBack(SeenOf(Run(Start(n, now), actions), id))
  {
    RunInv(n, now, actions, id);
    hide Run, Start, NeverGoesBack, Exclusive, ImportOnce;
  }

  /** The flow of `id`, given out, shows until `end` that it is there, and no longer. */
  ghost predicate LivesUntil(s: State, id: string, end: int) {
    && id in s.used && (id in s.flows ==> s.flows[id].expiresAt == end)
    && (s.now <= end ==> id in s.flows)
  }

  lemma StepLives(s: State, a: Action, id: string, end: int)
    requires LivesUntil(s, id, end)
    ensures LivesUntil(Step(s, a), id, end)
  {
  }

  lemma {:induction false} RunLives(s: State, after: seq<Action>, id: string, end: int)
    requires LivesUntil(s, id, end)
    ensures LivesUntil(Run(s, after), id, end)
  {
    hide LivesUntil, Step;
    if after != [] {
      RunLives(s, after[..|after| - 1], id, end);
      StepLives(Run(s, after[..|after| - 1]), after[|after| - 1], id, end);
    }
  }

  lemma PutLives(s: State, id: string)
    requires id !in s.used
    ensures LivesUntil(Step(s, Put(id)), id, s.now + 600_000_000_000)
  {
  }

  lemma LiveUntilEnd(s: State, id: string, end: int)
    requires LivesUntil(s, id, end)
    ensures Get(s.flows, id, s.now) == Gone <==> s.now > end
    ensures s.now <= end ==> id in s.flows
  {
  }

  /** Whatever happens, a new flow is there for ten minutes and then gone; the sweeper takes it only then. */
  lemma FlowLivesTenMinutes(s: State, id: string, after: seq<Action>)
    requires id !in s.used
    ensures var t := Run(Step(s, Put(id)), after);
            && (Get(t.flows, id, t.now) == Gone <==> t.now > s.now + 600_000_000_000)
            && (t.now <= s.now + 600_000_000_000 ==> id in t.flows)
  {
    hide *;
    PutLives(s, id);
    RunLives(Step(s, Put(id)), after, id, s.now + 600_000_000_000);
    LiveUntilEnd(Run(Step(s, Put(id)), after), id, s.now + 600_000_000_000);
  }

  lemma StepKeepsResult(s: State, a: Action, id: string)
    requires id in s.used && id in s.flows && s.flows[id].result.Some?
    ensures id in Step(s, a).used
    ensures id in Step(s, a).flows ==> Step(s, a).flows[id].result == s.flows[id].result
  {
  }

  lemma StepKeepsAbsence(s: State, a: Action, id: string)
    requires id in s.used && id !in s.flows
    ensures id in Step(s, a).used && id !in Step(s, a).flows
  {
  }

  /** A result is written once: whatever happens after, the flow has this result or is gone from the store. */
  lemma {:induction false} ResultNeverChanges(s: State, after: seq<Action>, id: string)
    requires id in s.used && id in s.flows && s.flows[id].result.Some?
    ensures var t := Run(s, after);
            id in t.used && (id in t.flows ==> t.flows[id].result == s.flows[id].result)
  {
    hide Step;
    if after != [] {
      var before, last := after[..|after| - 1], after[|after| - 1];
      ResultNeverChanges(s, before, id);
      if id in Run(s, before).flows {
        StepKeepsResult(Run(s, before), last, id);
      } else {
        StepKeepsAbsence(Run(s, before), last, id);
      }
    }
  }
}
