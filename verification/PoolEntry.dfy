/** One account of internal/pool/pool.go: quota, weight, cool-down. Times are
    nanoseconds; ratios and weights are reals. */
module PoolEntry {
  import opened Options

  const BASE_BACKOFF := 15_000_000_000
  const MAX_BACKOFF := 600_000_000_000
  const MIN_WEIGHT := 0.05
  const LIMITS_TTL := 600_000_000_000
  const ZERO_TIME := 0

  // ---- quota ----

  datatype Window = Window(used: real, budget: real)

  datatype Limits = Limits(windows: seq<Window>, suspended: bool, fetchedAt: int)

  /** How much of a window is used; a window without budget is unlimited. */
  function UsedRatio(w: Window): real {
    if w.budget > 0.0 then w.used / w.budget else 0.0
  }

  function Worst(windows: seq<Window>): real {
    if windows == [] then 0.0
    else
      var before, r := Worst(windows[..|windows| - 1]), UsedRatio(windows[|windows| - 1]);
      if r > before then r else before
  }

  function WorstUsedRatio(limits: Option<Limits>): real {
    match limits case None => 0.0 case Some(l) => Worst(l.windows)
  }

  /** WorstUsedRatio, the loop. */
  method ComputeWorstUsedRatio(limits: Option<Limits>) returns (worst: real)
    ensures worst == WorstUsedRatio(limits)
  {
    worst := 0.0;
    match limits
    case None =>
    case Some(l) =>
      for i := 0 to |l.windows|
        invariant worst == Worst(l.windows[..i])
      {
        assert l.windows[..i + 1][..i] == l.windows[..i];
        var w := l.windows[i];
        var r := 0.0;
        if w.budget > 0.0 {
          r := w.used / w.budget;
        }
        if r > worst {
          worst := r;
        }
      }
      assert l.windows[..|l.windows|] == l.windows;
  }

  /** The worst ratio is the greatest one, and 0 when none is positive. */
  lemma {:induction false} WorstIsGreatest(windows: seq<Window>)
    ensures Worst(windows) >= 0.0
    ensures forall w | w in windows :: UsedRatio(w) <= Worst(windows)
    ensures Worst(windows) == 0.0 || exists w | w in windows :: UsedRatio(w) == Worst(windows)
  {
    if windows != [] {
      var before, last := windows[..|windows| - 1], windows[|windows| - 1];
      WorstIsGreatest(before);
      assert windows == before + [last];
      assert forall w :: w in windows <==> w in before || w == last;
    }
  }

  function Weight(limits: Option<Limits>): real {
    var w := 1.0 - WorstUsedRatio(limits);
    if w < MIN_WEIGHT then MIN_WEIGHT else w
  }

  lemma WeightBounds(limits: Option<Limits>)
    ensures MIN_WEIGHT <= Weight(limits) <= 1.0
  {
    match limits case None => case Some(l) => WorstIsGreatest(l.windows);
  }

  // ---- what weight and usability mean, in terms of used and budget ----

  function Windows(limits: Option<Limits>): seq<Window> {
    match limits case None => [] case Some(l) => l.windows
  }

  /** Every window with a budget still has this part of it. */
  ghost predicate HasLeft(windows: seq<Window>, part: real) {
    forall w | w in windows && w.budget > 0.0 :: w.used <= (1.0 - part) * w.budget
  }

  /** Some window with a budget has used this part of it, or more. */
  ghost predicate UsedAtLeast(windows: seq<Window>, part: real) {
    exists w | w in windows && w.budget > 0.0 :: w.used >= part * w.budget
  }

  lemma RatioAtMost(w: Window, part: real)
    requires w.budget > 0.0
    ensures UsedRatio(w) <= part <==> w.used <= part * w.budget
    ensures UsedRatio(w) >= part <==> w.used >= part * w.budget
  {
    var r := UsedRatio(w);
    assert r * w.budget == w.used;
    if r < part {
      assert (part - r) * w.budget > 0.0;
    } else if r > part {
      assert (r - part) * w.budget > 0.0;
    }
  }

  lemma RatioOfUnlimited(w: Window)
    ensures w.budget <= 0.0 ==> UsedRatio(w) == 0.0
  {
  }

  /** The worst ratio is the least part, 0 or more, that no window exceeds. */
  lemma WorstIsLeastBound(windows: seq<Window>, part: real)
    requires part >= 0.0
    ensures Worst(windows) <= part <==> HasLeft(windows, 1.0 - part)
    ensures part > 0.0 ==> (Worst(windows) >= part <==> UsedAtLeast(windows, part))
  {
    hide Worst, UsedRatio;
    WorstIsGreatest(windows);
    assert 1.0 - (1.0 - part) == part;
    forall w | w in windows
      ensures w.budget > 0.0 ==> (UsedRatio(w) <= part <==> w.used <= part * w.budget)
      ensures w.budget > 0.0 ==> (UsedRatio(w) >= part <==> w.used >= part * w.budget)
      ensures w.budget <= 0.0 ==> UsedRatio(w) == 0.0
    {
      RatioOfUnlimited(w);
      if w.budget > 0.0 {
        RatioAtMost(w, part);
      }
    }
  }

  lemma WeightIs(limits: Option<Limits>)
    ensures var left := 1.0 - Worst(Windows(limits)); Weight(limits) == if left < 0.05 then 0.05 else left
  {
    NoWindows(limits);
    hide Worst;
  }

  lemma NoWindows(limits: Option<Limits>)
    ensures limits.None? ==> Worst(Windows(limits)) == 0.0
  {
  }

  /** The weight is what is left of the most used window: the greatest part, up to all, that every window with a budget
      still has; but 0.05 exactly when some window has used 95 parts in a hundred, or more. */
  lemma WeightIsWhatIsLeft(limits: Option<Limits>)
    ensures limits.None? ==> Weight(limits) == 1.0
    ensures Weight(limits) >= 0.05
    ensures Weight(limits) > 0.05 ==> forall part: real | part <= 1.0 ::
      HasLeft(Windows(limits), part) <==> part <= Weight(limits)
    ensures Weight(limits) == 0.05 <==> UsedAtLeast(Windows(limits), 0.95)
  {
    var windows := Windows(limits);
    WeightIs(limits);
    NoWindows(limits);
    hide *;
    forall part: real | part <= 1.0
      ensures HasLeft(windows, part) <==> part <= 1.0 - Worst(windows)
    {
      WorstIsLeastBound(windows, 1.0 - part);
      assert 1.0 - (1.0 - part) == part;
    }
    WorstIsLeastBound(windows, 0.95);
  }

  /** Every window of `a` with a budget is used at most as far as one of `b`, or not at all. */
  ghost predicate NoMoreUsed(a: Option<Limits>, b: Option<Limits>) {
    forall w | w in Windows(a) && w.budget > 0.0 && w.used > 0.0 :: UsedAtLeast(Windows(b), w.used / w.budget)
  }

  /** An account has the greater weight exactly when it is less used than the other, and has more than 0.05 left. */
  lemma LessUsedWeighsMore(a: Option<Limits>, b: Option<Limits>)
    ensures NoMoreUsed(a, b) ==> Weight(a) >= Weight(b)
    ensures Weight(a) > Weight(b) <==> !NoMoreUsed(b, a) && !UsedAtLeast(Windows(a), 0.95)
  {
    WeightIs(a);
    WeightIs(b);
    hide *;
    NoMoreUsedIff(a, b);
    NoMoreUsedIff(b, a);
    WorstIsLeastBound(Windows(a), 0.95);
  }

  lemma NoMoreUsedIff(a: Option<Limits>, b: Option<Limits>)
    ensures NoMoreUsed(a, b) <==> Worst(Windows(a)) <= Worst(Windows(b))
  {
    hide Worst, Windows, UsedAtLeast, UsedRatio;
    var x, y := Windows(a), Windows(b);
    WorstIsGreatest(x);
    WorstIsGreatest(y);
    forall w | w in x && w.budget > 0.0 && w.used > 0.0
      ensures UsedRatio(w) == w.used / w.budget
      ensures UsedAtLeast(y, w.used / w.budget) <==> UsedRatio(w) <= Worst(y)
    {
      RatioIs(w);
      WorstIsLeastBound(y, w.used / w.budget);
    }
    forall w | w in x && (w.budget <= 0.0 || w.used <= 0.0) ensures UsedRatio(w) <= 0.0 {
      RatioOfUnlimited(w);
      if w.budget > 0.0 {
        RatioAtMost(w, 0.0);
      }
    }
  }

  lemma RatioIs(w: Window)
    requires w.budget > 0.0
    ensures UsedRatio(w) == w.used / w.budget
    ensures w.used > 0.0 ==> w.used / w.budget > 0.0
  {
  }

  // ---- backoff ----

  function Pow2(n: nat): (p: nat)
    ensures p > 0
  {
    if n == 0 then 1 else 2 * Pow2(n - 1)
  }

  const TWO63 := 0x8000_0000_0000_0000
  const TWO64 := 0x1_0000_0000_0000_0000

  /** A 64-bit two's complement result. */
  function Wrap64(x: int): int {
    (x + TWO63) % TWO64 - TWO63
  }

  /** baseBackoff << n on a 64-bit Duration; shifting by 64 or more gives 0, as wrapping does. */
  function ShiftedBase(n: nat): int {
    Wrap64(BASE_BACKOFF * Pow2(n))
  }

  /** The cool-down after the given number of consecutive failures. */
  function Backoff(failures: nat): int
    requires failures > 0
  {
    var b := ShiftedBase(failures - 1);
    if b > MAX_BACKOFF || b < 0 then MAX_BACKOFF else b
  }

  lemma {:induction false} Pow2Add(a: nat, b: nat)
    ensures Pow2(a + b) == Pow2(a) * Pow2(b)
  {
    if a > 0 {
      Pow2Add(a - 1, b);
    }
  }

  lemma {:induction false} Pow2Monotone(a: nat, b: nat)
    requires a <= b
    ensures Pow2(a) <= Pow2(b)
  {
    if a < b {
      Pow2Monotone(a, b - 1);
    }
  }

  lemma WrapSmall(x: int)
    requires 0 <= x < TWO63
    ensures Wrap64(x) == x
  {
  }

  /** Wrapping subtracts a multiple of 2^64. */
  lemma WrapIsCongruent(x: int) returns (q: int)
    ensures Wrap64(x) == x - q * TWO64
    ensures -TWO63 <= Wrap64(x) < TWO63
  {
    q := (x + TWO63) / TWO64;
  }

  const ODD := 29_296_875      // 15e9 = 2^9 * 29296875
  const TWO39 := 0x80_0000_0000
  const TWO25 := 0x200_0000

  lemma PowerConstants()
    ensures Pow2(5) == 32 && Pow2(6) == 64 && Pow2(25) == TWO25 && Pow2(29) == 0x2000_0000
    ensures Pow2(30) == 0x4000_0000 && Pow2(55) == 0x80_0000_0000_0000
  {
    Pow2Add(5, 5);
    Pow2Add(10, 10);
    Pow2Add(20, 5);
    Pow2Add(25, 4);
    Pow2Add(25, 5);
    Pow2Add(30, 25);
  }

  /** Up to 2^29 the shift does not overflow. */
  lemma SmallShift(n: nat)
    requires n <= 29
    ensures ShiftedBase(n) == BASE_BACKOFF * Pow2(n)
  {
    Pow2Monotone(n, 29);
    PowerConstants();
    WrapSmall(BASE_BACKOFF * Pow2(n));
  }

  /** From 2^30 to 2^54 the wrapped value is a multiple of 2^39 that is neither 0 nor 2^39 itself. */
  lemma WrappedShift(n: nat)
    requires 30 <= n <= 54
    ensures ShiftedBase(n) < 0 || ShiftedBase(n) >= 2 * TWO39
  {
    var p := Pow2(n - 30);
    Pow2Add(30, n - 30);
    PowerConstants();
    var q := WrapIsCongruent(BASE_BACKOFF * Pow2(n));
    var c := ODD * p - q * TWO25;
    assert ShiftedBase(n) == c * TWO39;
    NotDivisible(n - 30, q);
    if n > 30 {
      assert p == 2 * Pow2(n - 31);
      assert c == 2 * (ODD * Pow2(n - 31) - q * (TWO25 / 2));
    }
  }

  /** An odd number times less than 2^25 is no multiple of 2^25. */
  lemma {:induction false} NotDivisible(j: nat, q: int)
    requires j <= 24
    ensures ODD * Pow2(j) != q * TWO25
    decreases 24 - j
  {
    if j < 24 {
      NotDivisible(j + 1, 2 * q);
    } else {
      PowerConstants();
      assert Pow2(25) == 2 * Pow2(24);
    }
  }

  /** From 2^55 on nothing is left. */
  lemma VanishedShift(n: nat)
    requires n >= 55
    ensures ShiftedBase(n) == 0
  {
    var p := Pow2(n - 55);
    Pow2Add(55, n - 55);
    PowerConstants();
    var x := BASE_BACKOFF * Pow2(n);
    var q := WrapIsCongruent(x);
    assert x == (ODD * p) * TWO64;
    assert Wrap64(x) == (ODD * p - q) * TWO64;
  }

  /** The documented backoff min(15s * 2^(n-1), 10min) holds for the first 55 failures in a row;
      from the 56th on there is none. */
  lemma BackoffValue(failures: nat)
    requires failures > 0
    ensures failures <= 55 ==>
      Backoff(failures) == (if 15_000_000_000 * Pow2(failures - 1) < 600_000_000_000
                            then 15_000_000_000 * Pow2(failures - 1) else 600_000_000_000)
    ensures failures >= 56 ==> Backoff(failures) == 0
    ensures Backoff(failures) > 0 <==> failures <= 55
  {
    var n := failures - 1;
    PowerConstants();
    if n <= 29 {
      SmallShift(n);
    } else {
      Pow2Monotone(30, n);
      if n <= 54 {
        WrappedShift(n);
      } else {
        VanishedShift(n);
      }
    }
  }

  // ---- reports ----

  /** The error of a failed attempt: an HTTP status, or something without one. */
  datatype Failure = HttpError(status: int) | OtherError

  predicate CoolsDown(f: Failure) {
    !(f.HttpError? && f.status >= 500)
  }

  datatype Report = Succeeded | Failed(failure: Failure, at: int)

  datatype Health = Health(failures: nat, cooldownUntil: int)

  function AfterReport(h: Health, r: Report): Health {
    match r
    case Succeeded => Health(0, ZERO_TIME)
    case Failed(f, at) =>
      if CoolsDown(f) then Health(h.failures + 1, at + Backoff(h.failures + 1)) else h
  }

  class Entry {
    const id: string
    var enabled: bool
    var failures: nat
    var cooldownUntil: int
    var limits: Option<Limits>
    var lastError: string

    constructor (id: string, enabled: bool)
      ensures this.id == id && this.enabled == enabled && this.limits == None
      ensures CurrentHealth() == Health(0, ZERO_TIME) && lastError == ""
    {
      this.id, this.enabled := id, enabled;
      failures, cooldownUntil, limits, lastError := 0, ZERO_TIME, None, "";
    }

    function CurrentHealth(): Health
      reads this
    {
      Health(failures, cooldownUntil)
    }

    /** usable: enabled, not cooling down, not suspended, no window used up. */
    predicate Usable(now: int)
      reads this
    {
      && enabled
      && now >= cooldownUntil
      && (limits.Some? ==> !limits.value.suspended && WorstUsedRatio(limits) < 1.0)
    }

    /** `refresh`: the quota is to be fetched again, as there is none or it is old. */
    method ReportSuccess(now: int) returns (refresh: bool)
      modifies this
      ensures CurrentHealth() == AfterReport(old(CurrentHealth()), Succeeded) == Health(0, 0) && lastError == ""
      ensures enabled == old(enabled) && limits == old(limits)
      ensures refresh <==> limits.None? || now > limits.value.fetchedAt + 600_000_000_000
    {
      failures := 0;
      cooldownUntil := ZERO_TIME;
      lastError := "";
      refresh := limits == None || now - limits.value.fetchedAt > LIMITS_TTL;
    }

    /** `summary` is the one-line text of the error. `refresh`: the account may have lost its access. */
    method ReportFailure(f: Failure, summary: string, now: int) returns (refresh: bool)
      modifies this
      ensures CurrentHealth() == AfterReport(old(CurrentHealth()), Failed(f, now)) && lastError == summary
      ensures CurrentHealth() == if f.HttpError? && f.status >= 500 then old(CurrentHealth())
                                 else Health(old(failures) + 1, now + Backoff(old(failures) + 1))
      ensures enabled == old(enabled) && limits == old(limits)
      ensures refresh <==> f in {HttpError(401), HttpError(403)}
    {
      var is5xx := f.HttpError? && f.status >= 500;
      lastError := summary;
      if !is5xx {
        failures := failures + 1;
        var backoff := ShiftedBase(failures - 1);
        if backoff > MAX_BACKOFF || backoff < 0 {
          backoff := MAX_BACKOFF;
        }
        cooldownUntil := now + backoff;
      }
      refresh := f.HttpError? && (f.status == 401 || f.status == 403);
    }
  }

  /** An account may be picked exactly when it is enabled, its cool-down is over, and its quota, if known, is neither
      suspended nor used up in any window. */
  lemma UsableIff(e: Entry, now: int)
    ensures e.Usable(now) <==>
      && e.enabled && e.cooldownUntil <= now
      && (e.limits.Some? ==> !e.limits.value.suspended && !UsedAtLeast(e.limits.value.windows, 1.0))
  {
    hide Worst, UsedAtLeast;
    if e.limits.Some? {
      WorstIsLeastBound(e.limits.value.windows, 1.0);
    }
  }

  /** The state after a whole history of reports. */
  function HealthAfter(reports: seq<Report>): Health {
    if reports == [] then Health(0, ZERO_TIME)
    else AfterReport(HealthAfter(reports[..|reports| - 1]), reports[|reports| - 1])
  }

  /** Is `i` a failure that cools down, with no success after it? */
  predicate Counts(reports: seq<Report>, i: nat)
    requires i < |reports|
  {
    && reports[i].Failed? && !(reports[i].failure.HttpError? && reports[i].failure.status >= 500)
    && forall j | i < j < |reports| :: reports[j].Failed?
  }

  function Counted(reports: seq<Report>): set<nat> {
    set i: nat | i < |reports| && Counts(reports, i)
  }

  /** `failures` is the number of failures below 500 since the last success, and the cool-down
      runs from the last of them; with none there is no cool-down. */
  lemma {:induction false} HealthIsHistory(reports: seq<Report>)
    ensures var h := HealthAfter(reports);
      && h.failures == |Counted(reports)|
      && (h.failures == 0 ==> h.cooldownUntil == ZERO_TIME)
      && (h.failures > 0 ==> exists i: nat | i in Counted(reports) ::
            (forall j | j in Counted(reports) :: j <= i)
            && h.cooldownUntil == reports[i].at + Backoff(h.failures))
  {
    if reports != [] {
      var before, last := reports[..|reports| - 1], reports[|reports| - 1];
      var n := |before|;
      HealthIsHistory(before);
      CountedStep(before, last);
      assert reports == before + [last];
      match last
      case Succeeded =>
      case Failed(f, at) =>
        if CoolsDown(f) {
          assert n in Counted(reports);
          assert forall j | j in Counted(reports) :: j <= n;
        }
    }
  }

  lemma CountedStep(before: seq<Report>, last: Report)
    ensures Counted(before + [last]) ==
      if last.Succeeded? then {}
      else if CoolsDown(last.failure) then Counted(before) + {|before|}
      else Counted(before)
  {
    var all := before + [last];
    assert all[|before|] == last;
    forall i: nat | i < |before|
      ensures Counts(all, i) <==> last.Failed? && Counts(before, i)
    {
      assert all[i] == before[i];
      if Counts(before, i) && last.Failed? {
        assert forall j | i < j < |all| :: all[j].Failed?;
      }
      if Counts(all, i) {
        assert forall j | i < j < |before| :: before[j] == all[j];
      }
    }
  }

  /** After the n-th failure in a row an account is kept out, unless n is 56 or more. */
  lemma LastFailureCoolsDownIff(reports: seq<Report>, f: Failure, at: int)
    requires !(f.HttpError? && f.status >= 500)
    ensures var h := HealthAfter(reports + [Failed(f, at)]);
      at < h.cooldownUntil <==> |Counted(reports)| < 55
  {
    HealthIsHistory(reports);
    assert (reports + [Failed(f, at)])[..|reports|] == reports;
    BackoffValue(|Counted(reports)| + 1);
  }
}
