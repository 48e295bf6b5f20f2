/** Logins that overlap: the user row is read first and written later, with the count that was read. */
module LockoutRuns {
  import opened Common
  import opened Lockout

  /** The account, and for each login between its read and its write the failure count that it has read. */
  datatype State = State(account: Account, reading: seq<nat>)

  datatype Step =
    | ReadUser(now: nat)
    | WriteFailure(i: nat, now: nat)
    | WriteSuccess(i: nat, now: nat)

  function Failed(a: Account, read: nat, now: nat): Account {
    Account(a.active, read + 1, if read + 1 >= MAX_FAILED_ATTEMPTS then Some(now + LOCKOUT) else a.lockedUntil,
            a.failures + [now])
  }

  function Removed(reading: seq<nat>, i: nat): seq<nat>
    requires i < |reading|
  {
    reading[..i] + reading[i + 1..]
  }

  function Read(s: State, now: nat): State {
    if Locked(s.account, now) then s else s.(reading := s.reading + [s.account.failedLoginAttempts])
  }

  function Fail(s: State, i: nat, now: nat): State {
    if i >= |s.reading| then s else State(Failed(s.account, s.reading[i], now), Removed(s.reading, i))
  }

  function Succeed(s: State, i: nat): State {
    if i >= |s.reading| then s
    else State(if s.account.active then Account(true, 0, None, []) else s.account, Removed(s.reading, i))
  }

  function Apply(s: State, step: Step): State {
    match step
    case ReadUser(now) => Read(s, now)
    case WriteFailure(i, now) => Fail(s, i, now)
    case WriteSuccess(i, now) => Succeed(s, i)
  }

  function Run(s: State, steps: seq<Step>): State
    decreases |steps|
  {
    if steps == [] then s else Run(Apply(s, steps[0]), steps[1..])
  }

  function Start(active: bool): State { State(Account(active, 0, None, []), []) }

  /** A login that runs alone is the login of `Lockout`. */
  lemma AloneIsLogin(a: Account, t: Attempt)
    ensures var write := if t.passwordOk then WriteSuccess(0, t.written) else WriteFailure(0, t.written);
      Run(State(a, []), [ReadUser(t.checked), write]) == State(Login(a, t), [])
  {
    var write := if t.passwordOk then WriteSuccess(0, t.written) else WriteFailure(0, t.written);
    var s, steps := State(a, []), [ReadUser(t.checked), write];
    assert steps[1..] == [write] && [write][1..] == [];
    assert Run(s, steps) == Run(Apply(Apply(s, ReadUser(t.checked)), write), []);
    assert Removed([a.failedLoginAttempts], 0) == [];
  }

  // ----- when every failure is counted -----

  predicate Counted(s: State) { s.account.failedLoginAttempts == |s.account.failures| }

  /** The guard that the write lacks: the row still holds the count that was read. */
  predicate FindsCount(s: State, step: Step) {
    step.WriteFailure? && step.i < |s.reading| ==> s.account.failedLoginAttempts == s.reading[step.i]
  }

  ghost predicate AlwaysCounted(s: State, steps: seq<Step>)
    decreases |steps|
  {
    Counted(s) && (steps == [] || AlwaysCounted(Apply(s, steps[0]), steps[1..]))
  }

  ghost predicate AlwaysFindsCount(s: State, steps: seq<Step>)
    decreases |steps|
  {
    steps == [] || (FindsCount(s, steps[0]) && AlwaysFindsCount(Apply(s, steps[0]), steps[1..]))
  }

  /** The count is the number of failures in every state exactly when each failing login finds the count it has read. */
  lemma {:induction false} CountedIff(s: State, steps: seq<Step>)
    requires Counted(s)
    ensures AlwaysCounted(s, steps) <==> AlwaysFindsCount(s, steps)
    decreases |steps|
  {
    if steps != [] {
      assert Counted(Apply(s, steps[0])) <==> FindsCount(s, steps[0]);
      if FindsCount(s, steps[0]) {
        CountedIff(Apply(s, steps[0]), steps[1..]);
      }
    }
  }

  // ----- what a login under way can still do -----

  /** The failures that a login which has read `count` can still lead to, with `k` logins under way at most. */
  function Worth(k: nat, count: nat): (w: nat)
    ensures w >= 1
    decreases 5 - count
  {
    if count >= MAX_FAILED_ATTEMPTS - 1 then 1 else 1 + Product(k, Worth(k, count + 1))
  }

  function Product(a: nat, b: nat): nat { if a == 0 then 0 else Product(a - 1, b) + b }

  lemma {:induction false} ProductIs(a: nat, b: nat)
    ensures Product(a, b) == a * b
  {
    if a > 0 {
      ProductIs(a - 1, b);
      assert (a - 1) * b + b == a * b;
    }
  }

  lemma ProductOrder(a: nat, b: nat, c: nat)
    requires b <= c
    ensures a * b <= a * c && b * a <= c * a
  {
  }

  lemma ProductAtLeast(k: nat, w: nat)
    requires k > 0
    ensures Product(k, w) >= w
  {
  }

  lemma {:induction false} WorthFalls(k: nat, low: nat, high: nat)
    requires k > 0 && low <= high
    ensures Worth(k, high) <= Worth(k, low)
    decreases high - low
  {
    if low < high && low < MAX_FAILED_ATTEMPTS - 1 {
      WorthFalls(k, low + 1, high);
      ProductAtLeast(k, Worth(k, low + 1));
    }
  }

  function Larger(x: nat, y: nat): nat { if x >= y then x else y }

  /** Each login under way is worth what it has read, but at least `floor`: it may end and start again. */
  function Worths(k: nat, reading: seq<nat>, floor: nat): nat {
    if reading == [] then 0
    else Worths(k, reading[..|reading| - 1], floor) + Larger(Worth(k, reading[|reading| - 1]), floor)
  }

  lemma WorthsSnoc(k: nat, reading: seq<nat>, count: nat, floor: nat)
    ensures Worths(k, reading + [count], floor) == Worths(k, reading, floor) + Larger(Worth(k, count), floor)
  {
    assert (reading + [count])[..|reading|] == reading;
  }

  lemma {:induction false} WorthsWithout(k: nat, reading: seq<nat>, i: nat, floor: nat)
    requires i < |reading|
    ensures Worths(k, Removed(reading, i), floor) + Larger(Worth(k, reading[i]), floor) == Worths(k, reading, floor)
  {
    var n := |reading| - 1;
    if i < n {
      WorthsWithout(k, reading[..n], i, floor);
      assert Removed(reading, i) == Removed(reading[..n], i) + [reading[n]];
      WorthsSnoc(k, Removed(reading[..n], i), reading[n], floor);
    } else {
      assert Removed(reading, i) == reading[..n];
    }
  }

  lemma {:induction false} WorthsRise(k: nat, reading: seq<nat>, floor: nat, newFloor: nat)
    ensures Worths(k, reading, newFloor) <= Worths(k, reading, floor) + Product(|reading|, newFloor)
  {
    if reading != [] {
      WorthsRise(k, reading[..|reading| - 1], floor, newFloor);
    }
  }

  lemma {:induction false} WorthsAtMost(k: nat, reading: seq<nat>, least: nat, most: nat)
    requires k > 0 && least == 0 && most == Worth(k, least)
    ensures Worths(k, reading, most) == Product(|reading|, most)
  {
    if reading != [] {
      WorthsAtMost(k, reading[..|reading| - 1], least, most);
      WorthFalls(k, least, reading[|reading| - 1]);
    }
  }

  /** What a login is worth that starts now; a locked account must wait first, unless the wait is over (`unlocked`). */
  function Floor(k: nat, count: nat, unlocked: bool): nat {
    if count < MAX_FAILED_ATTEMPTS then Worth(k, count) else if unlocked then 1 else 0
  }

  /** All failures that `k` logins can still lead to before the account is locked. */
  function Potential(k: nat, s: State, unlocked: bool): nat
    requires |s.reading| <= k
  {
    var floor := Floor(k, s.account.failedLoginAttempts, unlocked);
    Worths(k, s.reading, floor) + Product(k - |s.reading|, floor)
  }

  /** Failures so far and to come are paid for by the start and by the lockouts that have passed. */
  ghost predicate Bounded(s: State, k: nat, from: nat, now: nat, periods: nat, unlocked: bool) {
    && |s.reading| <= k && k > 0
    && (unlocked ==> s.account.failedLoginAttempts >= MAX_FAILED_ATTEMPTS)
    && |s.account.failures| + Potential(k, s, unlocked) <= Product(k, Worth(k, 0)) + k * periods
    && from + periods * LOCKOUT <= now
    && (s.account.failedLoginAttempts >= MAX_FAILED_ATTEMPTS && !unlocked ==>
          s.account.lockedUntil.Some? && from + (periods + 1) * LOCKOUT <= s.account.lockedUntil.value)
  }

  // ----- every step keeps the bound -----

  lemma ReadKeepsPotential(k: nat, s: State, now: nat, unlocked: bool)
    requires |s.reading| < k && !Locked(s.account, now)
    requires s.account.failedLoginAttempts < MAX_FAILED_ATTEMPTS || unlocked
    ensures Potential(k, Read(s, now), unlocked) == Potential(k, s, unlocked)
  {
    var count := s.account.failedLoginAttempts;
    var floor := Floor(k, count, unlocked);
    WorthsSnoc(k, s.reading, count, floor);
    assert Larger(Worth(k, count), floor) == floor;
  }

  /** The first login to start after a lockout: every login may fail once more. */
  lemma OpeningAddsOneEach(k: nat, s: State)
    requires |s.reading| <= k && s.account.failedLoginAttempts >= MAX_FAILED_ATTEMPTS
    ensures Potential(k, s, true) <= Potential(k, s, false) + k
  {
    WorthsFloor(k, s.reading);
    ProductIs(k - |s.reading|, 1);
    ProductIs(k - |s.reading|, 0);
  }

  lemma {:induction false} WorthsFloor(k: nat, reading: seq<nat>)
    ensures Worths(k, reading, 1) == Worths(k, reading, 0)
  {
    if reading != [] {
      WorthsFloor(k, reading[..|reading| - 1]);
    }
  }

  lemma OnePeriodMore(periods: nat, k: nat)
    ensures k * (periods + 1) == k * periods + k && (periods + 1) * LOCKOUT == periods * LOCKOUT + LOCKOUT
  {
  }

  lemma ReadKeepsBound(s: State, k: nat, from: nat, now: nat, at: nat, periods: nat, unlocked: bool)
    returns (periods': nat, unlocked': bool)
    requires Bounded(s, k, from, now, periods, unlocked) && now <= at && |Read(s, at).reading| <= k
    ensures Bounded(Read(s, at), k, from, at, periods', unlocked')
  {
    periods', unlocked' := periods, unlocked;
    if !Locked(s.account, at) {
      if s.account.failedLoginAttempts >= MAX_FAILED_ATTEMPTS && !unlocked {
        periods', unlocked' := periods + 1, true;
        OnePeriodMore(periods, k);
        OpeningAddsOneEach(k, s);
      }
      ReadKeepsPotential(k, s, at, unlocked');
    }
  }

  lemma {:induction false} ProductsAdd(a: nat, b: nat, c: nat)
    ensures Product(a, c) + Product(b, c) == Product(a + b, c)
  {
    if a > 0 {
      ProductsAdd(a - 1, b, c);
    }
  }

  /** A stale write may lower the count, so that every login is worth more again; what it has read pays for that. */
  lemma WriteIsWorth(k: nat, read: nat)
    ensures Worth(k, read) >= 1 + Product(k, Floor(k, read + 1, false))
  {
    if read + 1 >= MAX_FAILED_ATTEMPTS {
      ProductIs(k, 0);
    }
  }

  lemma PotentialOnceFailed(k: nat, s: State, i: nat, now: nat, newFloor: nat)
    requires |s.reading| <= k && i < |s.reading| && newFloor == Floor(k, s.reading[i] + 1, false)
    ensures Potential(k, Fail(s, i, now), false)
         == Worths(k, Removed(s.reading, i), newFloor) + Product(k - (|s.reading| - 1), newFloor)
  {
  }

  /** The others rise by no more than what the login that writes gives up. */
  lemma RestRises(k: nat, reading: seq<nat>, i: nat, floor: nat, newFloor: nat)
    requires |reading| <= k && i < |reading| && newFloor == Floor(k, reading[i] + 1, false)
    ensures Worths(k, Removed(reading, i), newFloor) + Product(k - (|reading| - 1), newFloor) + 1
      <= Worths(k, reading, floor)
  {
    var n := |reading|;
    WorthsWithout(k, reading, i, floor);
    WorthsRise(k, Removed(reading, i), floor, newFloor);
    ProductsAdd(n - 1, k - (n - 1), newFloor);
    WriteIsWorth(k, reading[i]);
  }

  lemma FailurePays(k: nat, s: State, i: nat, now: nat, unlocked: bool)
    requires |s.reading| <= k && i < |s.reading|
    ensures Potential(k, Fail(s, i, now), false) + 1 <= Potential(k, s, unlocked)
  {
    var floor, newFloor := Floor(k, s.account.failedLoginAttempts, unlocked), Floor(k, s.reading[i] + 1, false);
    PotentialOnceFailed(k, s, i, now, newFloor);
    RestRises(k, s.reading, i, floor, newFloor);
  }

  lemma FailKeepsBound(s: State, k: nat, from: nat, now: nat, i: nat, at: nat, periods: nat, unlocked: bool)
    requires Bounded(s, k, from, now, periods, unlocked) && now <= at && i < |s.reading|
    ensures Bounded(Fail(s, i, at), k, from, at, periods, false)
  {
    FailurePays(k, s, i, at, unlocked);
    OnePeriodMore(periods, k);
  }

  lemma ResetPotential(k: nat, s: State, most: nat)
    requires |s.reading| <= k && k > 0 && s.account.failedLoginAttempts == 0
    requires most == Worth(k, s.account.failedLoginAttempts)
    ensures Potential(k, s, false) == Product(k, most)
  {
    WorthsAtMost(k, s.reading, s.account.failedLoginAttempts, most);
    ProductsAdd(|s.reading|, k - |s.reading|, most);
  }

  /** A login that ends without a write. */
  lemma EndKeepsPotential(k: nat, s: State, i: nat, unlocked: bool)
    requires |s.reading| <= k && i < |s.reading|
    ensures Potential(k, s.(reading := Removed(s.reading, i)), unlocked) <= Potential(k, s, unlocked)
  {
    var floor := Floor(k, s.account.failedLoginAttempts, unlocked);
    WorthsWithout(k, s.reading, i, floor);
  }

  lemma SucceedKeepsBound(s: State, k: nat, from: nat, now: nat, i: nat, at: nat, periods: nat, unlocked: bool)
    returns (unlocked': bool)
    requires Bounded(s, k, from, now, periods, unlocked) && now <= at && i < |s.reading|
    ensures Bounded(Succeed(s, i), k, from, at, periods, unlocked')
  {
    if s.account.active {
      unlocked' := false;
      ResetPotential(k, Succeed(s, i), Worth(k, 0));
    } else {
      unlocked' := unlocked;
      EndKeepsPotential(k, s, i, unlocked);
    }
  }

  /** The clock never goes back. */
  predicate InOrder(steps: seq<Step>, from: nat)
    decreases |steps|
  {
    steps == [] || (from <= steps[0].now && InOrder(steps[1..], steps[0].now))
  }

  function End(steps: seq<Step>, from: nat): nat
    decreases |steps|
  {
    if steps == [] then from else End(steps[1..], steps[0].now)
  }

  /** In no state of the run are more than `k` logins between their read and their write. */
  predicate InFlightAtMost(s: State, steps: seq<Step>, k: nat)
    decreases |steps|
  {
    |s.reading| <= k && (steps == [] || InFlightAtMost(Apply(s, steps[0]), steps[1..], k))
  }

  lemma StepKeepsBound(s: State, step: Step, k: nat, from: nat, now: nat, periods: nat, unlocked: bool)
    returns (periods': nat, unlocked': bool)
    requires Bounded(s, k, from, now, periods, unlocked) && now <= step.now && |Apply(s, step).reading| <= k
    ensures Bounded(Apply(s, step), k, from, step.now, periods', unlocked')
  {
    periods', unlocked' := periods, unlocked;
    match step
    case ReadUser(at) => periods', unlocked' := ReadKeepsBound(s, k, from, now, at, periods, unlocked);
    case WriteFailure(i, at) =>
      if i < |s.reading| {
        FailKeepsBound(s, k, from, now, i, at, periods, unlocked);
        unlocked' := false;
      }
    case WriteSuccess(i, at) =>
      if i < |s.reading| {
        unlocked' := SucceedKeepsBound(s, k, from, now, i, at, periods, unlocked);
      }
  }

  lemma {:induction false} RunKeepsBound(s: State, steps: seq<Step>, k: nat, from: nat, now: nat, periods: nat,
                                         unlocked: bool)
    returns (periods': nat, unlocked': bool)
    requires Bounded(s, k, from, now, periods, unlocked) && InOrder(steps, now) && InFlightAtMost(s, steps, k)
    ensures Bounded(Run(s, steps), k, from, End(steps, now), periods', unlocked')
    decreases |steps|
  {
    periods', unlocked' := periods, unlocked;
    if steps != [] {
      assert InFlightAtMost(Apply(s, steps[0]), steps[1..], k);
      periods', unlocked' := StepKeepsBound(s, steps[0], k, from, now, periods, unlocked);
      periods', unlocked' := RunKeepsBound(Apply(s, steps[0]), steps[1..], k, from, steps[0].now, periods', unlocked');
    }
  }

  lemma WorthOfStart(k: nat)
    ensures Worth(k, 0) == 1 + k * (1 + k * (1 + k * (1 + k)))
  {
    ProductIs(k, Worth(k, 4));
    ProductIs(k, Worth(k, 3));
    ProductIs(k, Worth(k, 2));
    ProductIs(k, Worth(k, 1));
    assert Worth(k, 3) == 1 + k && Worth(k, 2) == 1 + k * Worth(k, 3) && Worth(k, 1) == 1 + k * Worth(k, 2);
  }

  lemma PeriodsPassed(periods: nat, from: nat, now: nat)
    requires from + periods * LOCKOUT <= now
    ensures periods <= (now - from) / LOCKOUT
  {
  }

  /**
   * With at most `k` logins under way, the failures since the last reset number at most k + k^2 + k^3 + k^4 + k^5,
   * plus k for every full lockout that has passed: five plus one a lockout when logins do not overlap.
   */
  lemma OverlappingFailureRate(active: bool, steps: seq<Step>, k: nat, from: nat)
    requires k > 0 && InOrder(steps, from) && InFlightAtMost(Start(active), steps, k)
    ensures from <= End(steps, from)
    ensures |Run(Start(active), steps).account.failures|
      <= k * (1 + k * (1 + k * (1 + k * (1 + k)))) + k * ((End(steps, from) - from) / LOCKOUT)
  {
    var now := End(steps, from);
    WorthOfStart(k);
    ProductIs(k, Worth(k, 0));
    var periods, unlocked := RunKeepsBound(Start(active), steps, k, from, from, 0, false);
    PeriodsPassed(periods, from, now);
    ProductOrder(k, periods, (now - from) / LOCKOUT);
  }

  // ----- failures that count as one -----

  function Repeat(step: Step, n: nat): seq<Step> {
    if n == 0 then [] else [step] + Repeat(step, n - 1)
  }

  lemma RepeatFirst(s: State, step: Step, n: nat, rest: seq<Step>)
    requires n > 0
    ensures Run(s, Repeat(step, n) + rest) == Run(Apply(s, step), Repeat(step, n - 1) + rest)
  {
    var steps := Repeat(step, n) + rest;
    assert steps[0] == step && steps[1..] == Repeat(step, n - 1) + rest;
  }

  function Zeros(n: nat): seq<nat> { seq(n, i => 0) }

  lemma {:induction false} ReadTogether(a: Account, now: nat, c: nat, n: nat, rest: seq<Step>)
    requires !Locked(a, now) && a.failedLoginAttempts == 0
    ensures Run(State(a, Zeros(c)), Repeat(ReadUser(now), n) + rest) == Run(State(a, Zeros(c + n)), rest)
    decreases n
  {
    if n == 0 {
      assert Repeat(ReadUser(now), n) + rest == rest;
    } else {
      RepeatFirst(State(a, Zeros(c)), ReadUser(now), n, rest);
      assert Zeros(c) + [0] == Zeros(c + 1);
      ReadTogether(a, now, c + 1, n - 1, rest);
    }
  }

  lemma FirstFails(a: Account, now: nat, n: nat)
    requires n > 0
    ensures Apply(State(a, Zeros(n)), WriteFailure(0, now)) == State(Failed(a, 0, now), Zeros(n - 1))
  {
    assert Removed(Zeros(n), 0) == Zeros(n - 1);
  }

  lemma {:induction false} FailTogether(a: Account, now: nat, n: nat)
    requires a.lockedUntil == None && n > 0
    ensures var b := Run(State(a, Zeros(n)), Repeat(WriteFailure(0, now), n) + []).account;
      |b.failures| == |a.failures| + n && b.failedLoginAttempts == 1 && b.lockedUntil == None
    decreases n
  {
    RepeatFirst(State(a, Zeros(n)), WriteFailure(0, now), n, []);
    FirstFails(a, now, n);
    if n > 1 {
      FailTogether(Failed(a, 0, now), now, n - 1);
    } else {
      assert Repeat(WriteFailure(0, now), 0) + [] == [];
    }
  }

  /** However many logins fail, if all of them read before any writes, they count as one and lock nothing. */
  lemma OverlappingFailuresCountOnce(active: bool, now: nat, n: nat)
    requires n > 0
    ensures var a := Run(Start(active), Repeat(ReadUser(now), n) + Repeat(WriteFailure(0, now), n)).account;
      |a.failures| == n && a.failedLoginAttempts == 1 && a.lockedUntil == None
  {
    var a := Account(active, 0, None, []);
    assert Start(active) == State(a, Zeros(0));
    assert Repeat(WriteFailure(0, now), n) + [] == Repeat(WriteFailure(0, now), n);
    ReadTogether(a, now, 0, n, Repeat(WriteFailure(0, now), n));
    FailTogether(a, now, n);
  }
}
