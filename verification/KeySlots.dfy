/** Per-key concurrency slots of internal/gateway/auth.go: a buffered channel per key, replaced
    when the key's concurrency changes, under every interleaving of requests. */
module KeySlots {
  import opened Counting

  const DEFAULT_CONCURRENCY := 5

  /** A buffered channel: one generation of a key's slots. `len` is the number of tokens in it. */
  datatype Channel = Channel(key: string, capacity: int, len: int)

  /** A request: outside; waiting to send into a channel; holding a token while the rate limiter is
      asked; running with its release closure; or turned away, having got nil. */
  datatype Request =
    | Outside
    | Waiting(ch: nat)
    | Checking(ch: nat)
    | Running(ch: nat)
    | Refused

  predicate Holds(r: Request, ch: nat) {
    (r.Checking? || r.Running?) && r.ch == ch
  }

  /** `channels` are all channels ever made; `current` is the map of the slotter. */
  datatype State = State(current: map<string, nat>, channels: seq<Channel>, requests: seq<Request>)

  datatype Action =
    | Enter(r: nat, key: string, concurrency: int)
    | Send(r: nat)
    | GiveUp(r: nat)
    | RateDenied(r: nat)
    | RateAllowed(r: nat)
    | Release(r: nat)

  /** The capacity acquireKeyLimits asks for. */
  function Capacity(concurrency: int): int {
    if concurrency <= 0 then DEFAULT_CONCURRENCY else concurrency
  }

  /** chanFor: a fresh channel unless the current one has the capacity asked for. */
  function ChanFor(s: State, key: string, capacity: int): (State, nat) {
    if key in s.current && s.current[key] < |s.channels| && s.channels[s.current[key]].capacity == capacity
    then (s, s.current[key])
    else
      (s.(channels := s.channels + [Channel(key, capacity, 0)], current := s.current[key := |s.channels|]),
       |s.channels|)
  }

  function Move(s: State, r: nat, request: Request): State
    requires r < |s.requests|
  {
    s.(requests := s.requests[r := request])
  }

  function AddTokens(s: State, ch: nat, delta: int): State
    requires ch < |s.channels|
  {
    var c := s.channels[ch];
    s.(channels := s.channels[ch := c.(len := c.len + delta)])
  }

  /** A receive blocks on an empty channel, a send on a full one. */
  predicate CanReceive(s: State, ch: nat) { ch < |s.channels| && s.channels[ch].len > 0 }

  predicate CanSend(s: State, ch: nat) { ch < |s.channels| && s.channels[ch].len < s.channels[ch].capacity }

  /** The state after an action; an action that is not possible now changes nothing. */
  function Step(s: State, a: Action): State {
    if a.r >= |s.requests| then s
    else
      match (a, s.requests[a.r])
      case (Enter(r, key, conc), Outside) => var (t, ch) := ChanFor(s, key, Capacity(conc)); Move(t, r, Waiting(ch))
      case (Send(r), Waiting(ch)) => if CanSend(s, ch) then Move(AddTokens(s, ch, 1), r, Checking(ch)) else s
      case (GiveUp(r), Waiting(ch)) => Move(s, r, Refused)
      case (RateDenied(r), Checking(ch)) => if CanReceive(s, ch) then Move(AddTokens(s, ch, -1), r, Refused) else s
      case (RateAllowed(r), Checking(ch)) => Move(s, r, Running(ch))
      case (Release(r), Running(ch)) => if CanReceive(s, ch) then Move(AddTokens(s, ch, -1), r, Outside) else s
      case _ => s
  }

  function Run(s: State, actions: seq<Action>): State {
    if actions == [] then s else Step(Run(s, actions[..|actions| - 1]), actions[|actions| - 1])
  }

  function Start(n: nat): State {
    State(map[], [], seq(n, _ => Outside))
  }

  /** How many requests hold a token of the channel. */
  function Holders(s: State, ch: nat): nat {
    Count(s.requests, (r: Request) => Holds(r, ch))
  }

  ghost predicate Inv(s: State) {
    && (forall k | k in s.current :: s.current[k] < |s.channels| && s.channels[s.current[k]].key == k)
    && (forall r | r in s.requests && (r.Waiting? || r.Checking? || r.Running?) :: r.ch < |s.channels|)
    && (forall ch | 0 <= ch < |s.channels| ::
          0 <= s.channels[ch].len == Holders(s, ch) <= s.channels[ch].capacity && s.channels[ch].capacity > 0)
  }

  lemma HoldersStep(s: State, r: nat, request: Request, ch: nat)
    requires r < |s.requests|
    ensures Holders(Move(s, r, request), ch) + (if Holds(s.requests[r], ch) then 1 else 0)
         == Holders(s, ch) + (if Holds(request, ch) then 1 else 0)
  {
    CountUpdate(s.requests, r, request, (x: Request) => Holds(x, ch));
  }

  lemma EnterInv(s: State, r: nat, key: string, capacity: int)
    requires Inv(s) && r < |s.requests| && s.requests[r].Outside? && capacity > 0
    ensures var (t, ch) := ChanFor(s, key, capacity); Inv(Move(t, r, Waiting(ch)))
  {
    var (t, ch) := ChanFor(s, key, capacity);
    var u := Move(t, r, Waiting(ch));
    assert forall x | x in u.requests :: x == Waiting(ch) || x in s.requests;
    forall c | 0 <= c < |u.channels|
      ensures 0 <= u.channels[c].len == Holders(u, c) <= u.channels[c].capacity && u.channels[c].capacity > 0
    {
      HoldersStep(t, r, Waiting(ch), c);
      if c == |s.channels| {
        assert forall i | 0 <= i < |s.requests| :: s.requests[i] in s.requests;
        CountNone(s.requests, (x: Request) => Holds(x, c));
      }
    }
  }

  /** A request that takes or gives back a token of `ch`, or only changes its phase. */
  lemma MoveInv(s: State, r: nat, request: Request, ch: nat, delta: int)
    requires Inv(s) && r < |s.requests| && ch < |s.channels|
    requires request.Waiting? || request.Checking? || request.Running? ==> request.ch == ch
    requires s.requests[r].Checking? || s.requests[r].Running? ==> s.requests[r].ch == ch
    requires delta == (if Holds(request, ch) then 1 else 0) - (if Holds(s.requests[r], ch) then 1 else 0)
    requires s.channels[ch].len + delta <= s.channels[ch].capacity
    ensures Inv(Move(AddTokens(s, ch, delta), r, request))
  {
    var t := AddTokens(s, ch, delta);
    var u := Move(t, r, request);
    assert forall x | x in u.requests :: x == request || x in s.requests;
    forall c | 0 <= c < |u.channels|
      ensures 0 <= u.channels[c].len == Holders(u, c) <= u.channels[c].capacity && u.channels[c].capacity > 0
    {
      HoldersStep(t, r, request, c);
    }
  }

  lemma StepInv(s: State, a: Action)
    requires Inv(s)
    ensures Inv(Step(s, a))
  {
    if a.r < |s.requests| {
      var was := s.requests[a.r];
      assert was in s.requests;
      match (a, was)
      case (Enter(r, key, conc), Outside) => EnterInv(s, r, key, Capacity(conc));
      case (Send(r), Waiting(ch)) =>
        if CanSend(s, ch) {
          MoveInv(s, r, Checking(ch), ch, 1);
        }
      case (GiveUp(r), Waiting(ch)) =>
        MoveInv(s, r, Refused, ch, 0);
        NoTokens(s, ch);
      case (RateDenied(r), Checking(ch)) =>
        if CanReceive(s, ch) {
          MoveInv(s, r, Refused, ch, -1);
        }
      case (RateAllowed(r), Checking(ch)) =>
        MoveInv(s, r, Running(ch), ch, 0);
        NoTokens(s, ch);
      case (Release(r), Running(ch)) =>
        if CanReceive(s, ch) {
          MoveInv(s, r, Outside, ch, -1);
        }
      case _ =>
    }
  }

  lemma NoTokens(s: State, ch: nat)
    requires ch < |s.channels|
    ensures AddTokens(s, ch, 0) == s
  {
    assert s.channels[ch := s.channels[ch]] == s.channels;
  }

  /** In every interleaving, whatever the reconfigurations: each channel ever made holds as many tokens
      as there are requests with a token of it, at most its capacity. */
  lemma {:induction false} ChannelsAreExact(n: nat, actions: seq<Action>)
    ensures Inv(Run(Start(n), actions))
  {
    if actions != [] {
      var before := actions[..|actions| - 1];
      ChannelsAreExact(n, before);
      StepInv(Run(Start(n), before), actions[|actions| - 1]);
    }
  }

  /** A request that holds a token can always give it back at once: release never blocks. */
  lemma ReleaseNeverBlocks(n: nat, actions: seq<Action>, r: nat)
    requires var s := Run(Start(n), actions);
      r < |s.requests| && (s.requests[r].Checking? || s.requests[r].Running?)
    ensures var s := Run(Start(n), actions);
      CanReceive(s, s.requests[r].ch)
  {
    var s := Run(Start(n), actions);
    ChannelsAreExact(n, actions);
    assert s.requests[r] in s.requests;
    CountPositive(s.requests, r, (x: Request) => Holds(x, s.requests[r].ch));
  }

  // ---- the bound per key ----

  /** Does the request hold a token of any generation of the key? */
  predicate HoldsKey(s: State, r: Request, key: string) {
    (r.Checking? || r.Running?) && r.ch < |s.channels| && s.channels[r.ch].key == key
  }

  function KeyHolders(s: State, key: string): nat {
    Count(s.requests, (r: Request) => HoldsKey(s, r, key))
  }

  /** The key has at most one channel, of the given capacity. */
  ghost predicate OneGeneration(s: State, key: string, capacity: int) {
    forall ch | 0 <= ch < |s.channels| && s.channels[ch].key == key ::
      key in s.current && s.current[key] == ch && s.channels[ch].capacity == capacity
  }

  lemma {:induction false} StableKeyHasOneGeneration(n: nat, actions: seq<Action>, key: string, capacity: int)
    requires forall a | a in actions && a.Enter? && a.key == key :: Capacity(a.concurrency) == capacity
    ensures OneGeneration(Run(Start(n), actions), key, capacity)
  {
    if actions != [] {
      var before, a := actions[..|actions| - 1], actions[|actions| - 1];
      assert a in actions && forall x | x in before :: x in actions;
      hide Step, Start, OneGeneration, Inv;
      StableKeyHasOneGeneration(n, before, key, capacity);
      ChannelsAreExact(n, before);
      GenerationStep(Run(Start(n), before), a, key, capacity);
    }
  }

  lemma GenerationStep(s: State, a: Action, key: string, capacity: int)
    requires Inv(s) && OneGeneration(s, key, capacity)
    requires a.Enter? && a.key == key ==> Capacity(a.concurrency) == capacity
    ensures OneGeneration(Step(s, a), key, capacity)
  {
  }

  /** While a key's concurrency stays the same, at most that many of its requests run at once. */
  lemma StableKeyIsBounded(n: nat, actions: seq<Action>, key: string, capacity: int)
    requires forall a | a in actions && a.Enter? && a.key == key ::
      capacity == if a.concurrency > 0 then a.concurrency else 5
    requires capacity > 0
    ensures KeyHolders(Run(Start(n), actions), key) <= capacity
  {
    var s := Run(Start(n), actions);
    ChannelsAreExact(n, actions);
    StableKeyHasOneGeneration(n, actions, key, capacity);
    if key in s.current {
      var ch := s.current[key];
      assert forall i | 0 <= i < |s.requests| :: s.requests[i] in s.requests;
      CountSame(s.requests, (r: Request) => HoldsKey(s, r, key), (r: Request) => Holds(r, ch));
    } else {
      CountNone(s.requests, (r: Request) => HoldsKey(s, r, key));
    }
  }

  // ---- any reconfigurations ----

  /** What all channels ever made for the key hold together. */
  function Capacities(channels: seq<Channel>, key: string): int {
    if channels == [] then 0
    else
      var last := channels[|channels| - 1];
      Capacities(channels[..|channels| - 1], key) + if last.key == key then last.capacity else 0
  }

  predicate HoldsBelow(s: State, r: Request, key: string, k: nat) {
    HoldsKey(s, r, key) && r.ch < k
  }

  lemma {:induction false} HoldersBelowBounded(s: State, key: string, k: nat)
    requires Inv(s) && k <= |s.channels|
    ensures Count(s.requests, (r: Request) => HoldsBelow(s, r, key, k)) <= Capacities(s.channels[..k], key)
  {
    if k == 0 {
      CountNone(s.requests, (r: Request) => HoldsBelow(s, r, key, k));
    } else {
      HoldersBelowBounded(s, key, k - 1);
      assert s.channels[..k][..k - 1] == s.channels[..k - 1];
      if s.channels[k - 1].key == key {
        CountUnion(s.requests, (r: Request) => HoldsBelow(s, r, key, k),
                   (r: Request) => HoldsBelow(s, r, key, k - 1), (r: Request) => Holds(r, k - 1));
      } else {
        CountSame(s.requests, (r: Request) => HoldsBelow(s, r, key, k),
                  (r: Request) => HoldsBelow(s, r, key, k - 1));
      }
    }
  }

  /** However often a key is reconfigured, no more of its requests are inside than all its channels together hold. */
  lemma KeyIsBoundedByAllChannels(n: nat, actions: seq<Action>, key: string)
    ensures var s := Run(Start(n), actions); KeyHolders(s, key) <= Capacities(s.channels, key)
  {
    var s := Run(Start(n), actions);
    ChannelsAreExact(n, actions);
    hide Run, Start, Inv, Capacities;
    HoldersBelowBounded(s, key, |s.channels|);
    assert s.channels[..|s.channels|] == s.channels;
    CountSame(s.requests, (r: Request) => HoldsKey(s, r, key),
              (r: Request) => HoldsBelow(s, r, key, |s.channels|));
  }

  /** Requests from, from + 1, ... up to m of them enter with concurrency `conc` and take their tokens. */
  function Fill(key: string, conc: int, from: nat, m: nat): seq<Action> {
    if m == 0 then [] else Fill(key, conc, from, m - 1) + [Enter(from + m - 1, key, conc), Send(from + m - 1)]
  }

  /** The first `k` requests hold a token of the key, the others are outside; `cap` is what its channels hold. */
  ghost predicate Filled(s: State, key: string, k: nat, cap: int) {
    && (forall i | 0 <= i < k && i < |s.requests| :: HoldsKey(s, s.requests[i], key))
    && (forall i | k <= i < |s.requests| :: s.requests[i] == Outside)
    && Capacities(s.channels, key) == cap
  }

  predicate CurrentIs(s: State, key: string, conc: int, len: int) {
    key in s.current && s.current[key] < |s.channels| && s.channels[s.current[key]] == Channel(key, conc, len)
  }

  /** The next request with this concurrency gets a channel of its own. */
  predicate MakesChannel(s: State, key: string, conc: int) {
    !(key in s.current && s.current[key] < |s.channels| && s.channels[s.current[key]].capacity == conc)
  }

  lemma {:induction false} CapacitiesSame(a: seq<Channel>, b: seq<Channel>, key: string)
    requires |a| == |b| && forall i | 0 <= i < |a| :: a[i].key == b[i].key && a[i].capacity == b[i].capacity
    ensures Capacities(a, key) == Capacities(b, key)
  {
    if a != [] {
      CapacitiesSame(a[..|a| - 1], b[..|b| - 1], key);
    }
  }

  lemma CapacitiesAppend(a: seq<Channel>, c: Channel, key: string)
    ensures Capacities(a + [c], key) == Capacities(a, key) + if c.key == key then c.capacity else 0
  {
    assert (a + [c])[..|a|] == a;
  }

  /** The first request after a change of concurrency. */
  lemma FirstOfChannel(s: State, key: string, k: nat, cap: int, conc: int)
    requires Filled(s, key, k, cap) && k < |s.requests| && conc > 0 && MakesChannel(s, key, conc)
    ensures var t := Step(Step(s, Enter(k, key, conc)), Send(k));
      Filled(t, key, k + 1, cap + conc) && CurrentIs(t, key, conc, 1) && |t.requests| == |s.requests|
  {
    var ch := |s.channels|;
    var u := Step(s, Enter(k, key, conc));
    assert u.channels == s.channels + [Channel(key, conc, 0)] && u.requests == s.requests[k := Waiting(ch)];
    var t := Step(u, Send(k));
    assert t.channels == s.channels + [Channel(key, conc, 1)] && t.requests == s.requests[k := Checking(ch)];
    CapacitiesAppend(s.channels, Channel(key, conc, 1), key);
  }

  lemma NextOfChannel(s: State, key: string, k: nat, cap: int, conc: int, len: int)
    requires Filled(s, key, k, cap) && k < |s.requests| && CurrentIs(s, key, conc, len) && 0 <= len < conc
    ensures var t := Step(Step(s, Enter(k, key, conc)), Send(k));
      Filled(t, key, k + 1, cap) && CurrentIs(t, key, conc, len + 1) && |t.requests| == |s.requests|
  {
    var ch := s.current[key];
    var u := Step(s, Enter(k, key, conc));
    assert u == Move(s, k, Waiting(ch));
    var t := Step(u, Send(k));
    assert t.channels == s.channels[ch := Channel(key, conc, len + 1)] && t.requests == s.requests[k := Checking(ch)];
    CapacitiesSame(s.channels, t.channels, key);
  }

  lemma RunTwo(s: State, actions: seq<Action>, a: Action, b: Action)
    ensures Run(s, actions + [a, b]) == Step(Step(Run(s, actions), a), b)
  {
    assert (actions + [a, b])[..|actions| + 1] == actions + [a];
    assert (actions + [a])[..|actions|] == actions;
  }

  /** A channel is filled beside the full ones before it. */
  lemma {:induction false} FillRuns(s: State, key: string, k: nat, cap: int, conc: int, m: nat)
    requires Filled(s, key, k, cap) && MakesChannel(s, key, conc)
    requires 0 < m <= conc && k + m <= |s.requests|
    ensures var t := Run(s, Fill(key, conc, k, m));
      Filled(t, key, k + m, cap + conc) && CurrentIs(t, key, conc, m) && |t.requests| == |s.requests|
  {
    FillStep(s, key, conc, k, m);
    hide Run, Fill, Step, Filled, CurrentIs, MakesChannel;
    if m == 1 {
      FirstOfChannel(s, key, k, cap, conc);
    } else {
      FillRuns(s, key, k, cap, conc, m - 1);
      NextOfChannel(Run(s, Fill(key, conc, k, m - 1)), key, k + m - 1, cap + conc, conc, m - 1);
    }
  }

  lemma FillStep(s: State, key: string, conc: int, k: nat, m: nat)
    requires m > 0
    ensures var before := Run(s, Fill(key, conc, k, m - 1));
      && Run(s, Fill(key, conc, k, m)) == Step(Step(before, Enter(k + m - 1, key, conc)), Send(k + m - 1))
      && (m == 1 ==> before == s)
  {
    hide Step;
    RunTwo(s, Fill(key, conc, k, m - 1), Enter(k + m - 1, key, conc), Send(k + m - 1));
    assert Run(s, []) == s;
  }

  function Sum(concs: seq<int>): int {
    if concs == [] then 0 else Sum(concs[..|concs| - 1]) + concs[|concs| - 1]
  }

  /** The concurrencies a key is given one after the other: positive, and each a change. */
  predicate Reconfigured(concs: seq<int>) {
    && (forall i | 0 <= i < |concs| :: concs[i] > 0)
    && (forall i | 0 < i < |concs| :: concs[i - 1] != concs[i])
  }

  lemma {:induction false} SumNotNegative(concs: seq<int>)
    requires Reconfigured(concs)
    ensures Sum(concs) >= 0
  {
    if concs != [] {
      SumNotNegative(concs[..|concs| - 1]);
    }
  }

  /** Under each concurrency in turn, as many requests enter as it allows. */
  function FillAll(key: string, concs: seq<int>): seq<Action>
    requires Reconfigured(concs)
  {
    if concs == [] then []
    else
      var before, last := concs[..|concs| - 1], concs[|concs| - 1];
      SumNotNegative(before);
      FillAll(key, before) + Fill(key, last, Sum(before), last)
  }

  lemma {:induction false} RunConcat(s: State, a: seq<Action>, b: seq<Action>)
    ensures Run(s, a + b) == Run(Run(s, a), b)
  {
    hide Step;
    if b == [] {
      assert a + b == a;
    } else {
      assert (a + b)[..|a + b| - 1] == a + b[..|b| - 1];
      RunConcat(s, a, b[..|b| - 1]);
    }
  }

  lemma {:induction false} FillAllRuns(n: nat, key: string, concs: seq<int>)
    requires Reconfigured(concs) && Sum(concs) <= n
    ensures Sum(concs) >= 0
    ensures var t := Run(Start(n), FillAll(key, concs));
      && Filled(t, key, Sum(concs), Sum(concs)) && |t.requests| == n
      && (if concs == [] then key !in t.current
          else CurrentIs(t, key, concs[|concs| - 1], concs[|concs| - 1]))
  {
    SumNotNegative(concs);
    if concs != [] {
      var before, last := concs[..|concs| - 1], concs[|concs| - 1];
      SumNotNegative(before);
      assert Sum(concs) == Sum(before) + last;
      assert FillAll(key, concs) == FillAll(key, before) + Fill(key, last, Sum(before), last);
      hide Sum, FillAll, Fill, Run, Start, Filled;
      FillAllRuns(n, key, before);
      var t := Run(Start(n), FillAll(key, before));
      assert MakesChannel(t, key, last);
      FillRuns(t, key, Sum(before), Sum(before), last, last);
      RunConcat(Start(n), FillAll(key, before), Fill(key, last, Sum(before), last));
    }
  }

  /** The bound is reached, for every sequence of reconfigurations: each full channel stays beside the next one,
      so as many requests are inside as the concurrencies add up to. */
  lemma ReconfiguredKeyExceeds(key: string, concs: seq<int>)
    requires Reconfigured(concs)
    ensures Sum(concs) >= 0
    ensures var s := Run(Start(Sum(concs)), FillAll(key, concs));
      KeyHolders(s, key) == Sum(concs) == Capacities(s.channels, key)
  {
    hide Reconfigured, Sum, FillAll, Run, Start, CurrentIs;
    SumNotNegative(concs);
    FillAllRuns(Sum(concs), key, concs);
    var s := Run(Start(Sum(concs)), FillAll(key, concs));
    CountAll(s.requests, (r: Request) => HoldsKey(s, r, key));
  }

  /** One change of the concurrency suffices: a full old channel stays beside a full new one. */
  lemma OneChangeExceeds(key: string, first: int, second: int)
    requires first > 0 && second > 0 && first != second
    ensures Reconfigured([first, second])
    ensures KeyHolders(Run(Start(first + second), FillAll(key, [first, second])), key) == first + second
  {
    assert [first, second][..1] == [first] && [first][..0] == [];
    assert Sum([]) == 0 && Sum([first]) == first && Sum([first, second]) == Sum([first]) + second;
    hide FillAll, Run, Start, KeyHolders;
    ReconfiguredKeyExceeds(key, [first, second]);
  }
}
