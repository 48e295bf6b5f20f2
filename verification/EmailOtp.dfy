/** One-time codes sent by e-mail: issuing and guessing, with the reads and the writes of all calls interleaved. */
module EmailOtp {
  import opened Common

  const RESEND_COOLDOWN := 60 * 1000
  const MAX_ATTEMPTS := 5

  /** A row of one user and purpose; `wins` counts the successful consumptions of the row. */
  datatype Otp = Otp(code: string, createdAt: nat, expiresAt: nat, attempts: nat, consumed: bool, wins: nat)

  /**
   * The rows of one user and purpose in creation order, the guesses that passed the checks but are not yet written,
   * and how many issue calls found the cooldown over but have not yet inserted their row.
   */
  datatype State = State(rows: seq<Otp>, inFlight: multiset<nat>, issuing: nat)

  datatype Step =
    | CheckCooldown(now: nat)
    | Insert(code: string, ttl: nat, now: nat)
    | Check(now: nat)
    | Settle(id: nat, code: string)

  /** `findFirst` with `consumedAt: null`, newest first. */
  function NewestOpen(rows: seq<Otp>): Option<nat> {
    if rows == [] then None
    else if !rows[|rows| - 1].consumed then Some(|rows| - 1)
    else NewestOpen(rows[..|rows| - 1])
  }

  lemma {:induction false} NewestOpenIs(rows: seq<Otp>)
    ensures NewestOpen(rows).Some? ==> var id := NewestOpen(rows).value;
      id < |rows| && !rows[id].consumed && forall k | id < k < |rows| :: rows[k].consumed
    ensures NewestOpen(rows) == None ==> forall k | 0 <= k < |rows| :: rows[k].consumed
  {
    if rows != [] && rows[|rows| - 1].consumed {
      NewestOpenIs(rows[..|rows| - 1]);
    }
  }

  /** The newest row that is not consumed. */
  predicate IsNewestOpen(rows: seq<Otp>, id: nat) {
    id < |rows| && !rows[id].consumed && forall k | id < k < |rows| :: rows[k].consumed
  }

  lemma OneNewestOpen(rows: seq<Otp>, id: nat)
    requires NewestOpen(rows) == Some(id)
    ensures IsNewestOpen(rows, id) && forall k: nat :: IsNewestOpen(rows, k) ==> k == id
  {
    NewestOpenIs(rows);
  }

  /** What a guess that runs alone does to the rows, and its answer. */
  predicate Outcome(before: seq<Otp>, id: nat, code: string, now: nat, after: seq<Otp>, ok: bool)
    requires id < |before|
  {
    var row := before[id];
    if row.expiresAt < now then !ok && after == before
    else if 5 <= row.attempts then !ok && after == before[id := row.(consumed := true)]
    else if row.code == code then ok && after == before[id := row.(consumed := true, wins := row.wins + 1)]
    else !ok && after == before[id := row.(attempts := row.attempts + 1)]
  }

  predicate CooldownOver(rows: seq<Otp>, now: nat) {
    rows == [] || rows[|rows| - 1].createdAt + RESEND_COOLDOWN <= now
  }

  function NewRow(code: string, ttl: nat, now: nat): Otp { Otp(code, now, now + ttl, 0, false, 0) }

  /** The read of `issue`. */
  function StartIssue(s: State, now: nat): State {
    if CooldownOver(s.rows, now) then s.(issuing := s.issuing + 1) else s
  }

  /** The write of `issue`. */
  function InsertRow(s: State, code: string, ttl: nat, now: nat): State {
    if s.issuing == 0 then s else s.(rows := s.rows + [NewRow(code, ttl, now)], issuing := s.issuing - 1)
  }

  /** The reads of `consume`: the row that the guess will be written to, or the row is burnt, or the call fails. */
  function CheckGuess(s: State, now: nat): State {
    match NewestOpen(s.rows)
    case None => s
    case Some(id) =>
      if id >= |s.rows| || s.rows[id].expiresAt < now then s
      else if s.rows[id].attempts >= MAX_ATTEMPTS then s.(rows := s.rows[id := s.rows[id].(consumed := true)])
      else s.(inFlight := s.inFlight + multiset{id})
  }

  /** The conditional update that consumes the row when the code matches, or else counts a wrong guess. */
  function SettleGuess(s: State, id: nat, code: string): State {
    if id !in s.inFlight || id >= |s.rows| then s else
    var row := s.rows[id];
    State(
      s.rows[id := if !row.consumed && row.code == code then row.(consumed := true, wins := row.wins + 1)
                   else row.(attempts := row.attempts + 1)],
      s.inFlight - multiset{id}, s.issuing)
  }

  function Apply(s: State, step: Step): State {
    match step
    case CheckCooldown(now) => StartIssue(s, now)
    case Insert(code, ttl, now) => InsertRow(s, code, ttl, now)
    case Check(now) => CheckGuess(s, now)
    case Settle(id, code) => SettleGuess(s, id, code)
  }

  function Run(s: State, steps: seq<Step>): State
    decreases |steps|
  {
    if steps == [] then s else Run(Apply(s, steps[0]), steps[1..])
  }

  const EMPTY := State([], multiset{}, 0)

  // ----- at most one success per code -----

  predicate ConsumedOnce(rows: seq<Otp>) {
    forall k | 0 <= k < |rows| :: rows[k].wins <= 1 && (rows[k].wins == 1 ==> rows[k].consumed)
  }

  /** However guesses interleave, no code is consumed successfully twice. */
  lemma {:induction false} NoCodeWinsTwice(s: State, steps: seq<Step>)
    requires ConsumedOnce(s.rows)
    ensures ConsumedOnce(Run(s, steps).rows)
    decreases |steps|
  {
    if steps != [] {
      NoCodeWinsTwice(Apply(s, steps[0]), steps[1..]);
    }
  }

  // ----- wrong guesses per code -----

  /** In no state of the run are more than `k` guesses in flight on one row. */
  ghost predicate InFlightAtMost(s: State, steps: seq<Step>, k: nat)
    decreases |steps|
  {
    (forall id :: s.inFlight[id] <= k) && (steps == [] || InFlightAtMost(Apply(s, steps[0]), steps[1..], k))
  }

  ghost predicate GuessesWithin(s: State, k: nat) {
    forall id | 0 <= id < |s.rows| :: s.rows[id].attempts + s.inFlight[id] <= MAX_ATTEMPTS - 1 + k
  }

  /** No guess is in flight on a row that does not exist. */
  ghost predicate Grounded(s: State) {
    forall id | id in s.inFlight :: id < |s.rows|
  }

  lemma InsertKeepsGuesses(s: State, code: string, ttl: nat, now: nat, k: nat)
    requires GuessesWithin(s, k) && Grounded(s) && k > 0
    ensures GuessesWithin(InsertRow(s, code, ttl, now), k) && Grounded(InsertRow(s, code, ttl, now))
  {
    assert |s.rows| !in s.inFlight;
  }

  lemma CheckKeepsGuesses(s: State, now: nat, k: nat)
    requires GuessesWithin(s, k) && Grounded(s) && forall id :: CheckGuess(s, now).inFlight[id] <= k
    ensures GuessesWithin(CheckGuess(s, now), k) && Grounded(CheckGuess(s, now))
  {
    NewestOpenIs(s.rows);
    var s' := CheckGuess(s, now);
    forall id | 0 <= id < |s'.rows| ensures s'.rows[id].attempts + s'.inFlight[id] <= MAX_ATTEMPTS - 1 + k {
      assert s.rows[id].attempts + s.inFlight[id] <= MAX_ATTEMPTS - 1 + k;
      assert s'.rows[id].attempts == s.rows[id].attempts;
      assert s'.inFlight[id] <= k;
    }
  }

  lemma SettleKeepsGuesses(s: State, id: nat, code: string, k: nat)
    requires GuessesWithin(s, k) && Grounded(s)
    ensures GuessesWithin(SettleGuess(s, id, code), k) && Grounded(SettleGuess(s, id, code))
  {
    var s' := SettleGuess(s, id, code);
    forall j | 0 <= j < |s'.rows| ensures s'.rows[j].attempts + s'.inFlight[j] <= MAX_ATTEMPTS - 1 + k {
      assert s.rows[j].attempts + s.inFlight[j] <= MAX_ATTEMPTS - 1 + k;
    }
  }

  lemma StepKeepsGuesses(s: State, step: Step, k: nat)
    requires GuessesWithin(s, k) && Grounded(s) && k > 0 && forall id :: Apply(s, step).inFlight[id] <= k
    ensures GuessesWithin(Apply(s, step), k) && Grounded(Apply(s, step))
  {
    match step
    case CheckCooldown(now) =>
    case Insert(code, ttl, now) => InsertKeepsGuesses(s, code, ttl, now, k);
    case Check(now) => CheckKeepsGuesses(s, now, k);
    case Settle(id, code) => SettleKeepsGuesses(s, id, code, k);
  }

  // ----- no guess counts that was not checked in time -----

  /** A check lets a guess through on the newest open row only, before it expires and before it is used up. */
  lemma CheckedInTime(s: State, now: nat, id: nat)
    requires s.inFlight[id] < CheckGuess(s, now).inFlight[id]
    ensures IsNewestOpen(s.rows, id) && now <= s.rows[id].expiresAt && s.rows[id].attempts < 5
    ensures CheckGuess(s, now).inFlight[id] == s.inFlight[id] + 1
  {
    NewestOpenIs(s.rows);
  }

  /** How many steps of the run check guesses at `expiresAt` or before. */
  function ChecksUntil(steps: seq<Step>, expiresAt: nat): nat {
    if steps == [] then 0
    else (if steps[0].Check? && steps[0].now <= expiresAt then 1 else 0) + ChecksUntil(steps[1..], expiresAt)
  }

  /** Guesses on a row that have passed the check: written as right or wrong, or still in flight. */
  function Guesses(s: State, id: nat): nat {
    s.inFlight[id] + if id < |s.rows| then s.rows[id].wins + s.rows[id].attempts else 0
  }

  lemma StepGuesses(s: State, step: Step, id: nat)
    ensures var s' := Apply(s, step);
      && |s.rows| <= |s'.rows| && (id < |s.rows| ==> s'.rows[id].expiresAt == s.rows[id].expiresAt)
      && Guesses(s', id) <= Guesses(s, id) + 1
      && (Guesses(s', id) > Guesses(s, id) ==>
            step.Check? && id < |s.rows| && step.now <= s.rows[id].expiresAt)
  {
    match step
    case CheckCooldown(now) =>
    case Insert(code, ttl, now) =>
    case Check(now) =>
      NewestOpenIs(s.rows);
      if s.inFlight[id] < CheckGuess(s, now).inFlight[id] {
        CheckedInTime(s, now, id);
      }
    case Settle(other, code) =>
  }

  /** However guesses interleave, each one that was counted, right or wrong, was checked before the code expired. */
  lemma {:induction false} GuessesCheckedInTime(s: State, steps: seq<Step>, id: nat)
    requires id < |Run(s, steps).rows|
    ensures id < |s.rows| ==> Run(s, steps).rows[id].expiresAt == s.rows[id].expiresAt
    ensures Guesses(Run(s, steps), id) <= Guesses(s, id) + ChecksUntil(steps, Run(s, steps).rows[id].expiresAt)
    decreases |steps|
  {
    if steps != [] {
      StepGuesses(s, steps[0], id);
      GuessesCheckedInTime(Apply(s, steps[0]), steps[1..], id);
    }
  }

  /** In particular a code that was never checked in time is never consumed by a guess. */
  lemma NoWinAfterExpiry(steps: seq<Step>, id: nat)
    requires id < |Run(EMPTY, steps).rows| && Run(EMPTY, steps).rows[id].wins > 0
    ensures ChecksUntil(steps, Run(EMPTY, steps).rows[id].expiresAt) > 0
  {
    GuessesCheckedInTime(EMPTY, steps, id);
  }

  // ----- how many codes can be issued -----

  /** In no state of the run have more than `j` issue calls passed the cooldown check without inserting their row. */
  ghost predicate IssuingAtMost(s: State, steps: seq<Step>, j: nat)
    decreases |steps|
  {
    s.issuing <= j && (steps == [] || IssuingAtMost(Apply(s, steps[0]), steps[1..], j))
  }

  predicate InOrder(rows: seq<Otp>, now: nat) {
    && (forall k, l | 0 <= k < l < |rows| :: rows[k].createdAt <= rows[l].createdAt)
    && (rows != [] ==> rows[|rows| - 1].createdAt <= now)
  }

  /** Rows that are `j` apart are a cooldown apart. */
  ghost predicate Spaced(rows: seq<Otp>, j: nat) {
    forall k, l | 0 <= k && l == k + j && l < |rows| :: rows[k].createdAt + RESEND_COOLDOWN <= rows[l].createdAt
  }

  /** While a row is younger than the cooldown, it, the rows after it and the calls still inserting are at most `j`. */
  predicate WindowsWithin(s: State, now: nat, j: nat) {
    forall k | 0 <= k < |s.rows| && now < s.rows[k].createdAt + RESEND_COOLDOWN :: |s.rows| - k + s.issuing <= j
  }

  ghost predicate Paced(s: State, now: nat, j: nat) {
    InOrder(s.rows, now) && Spaced(s.rows, j) && WindowsWithin(s, now, j)
  }

  function Time(step: Step, from: nat): nat {
    match step
    case CheckCooldown(now) => now
    case Insert(_, _, now) => now
    case Check(now) => now
    case Settle(_, _) => from
  }

  /** The clock never goes back. */
  predicate Ordered(steps: seq<Step>, from: nat)
    decreases |steps|
  {
    steps == [] || (from <= Time(steps[0], from) && Ordered(steps[1..], Time(steps[0], from)))
  }

  function End(steps: seq<Step>, from: nat): nat
    decreases |steps|
  {
    if steps == [] then from else End(steps[1..], Time(steps[0], from))
  }

  /** Guesses leave the creation times alone. */
  predicate SameTimes(before: seq<Otp>, after: seq<Otp>) {
    |before| == |after| && forall k | 0 <= k < |before| :: before[k].createdAt == after[k].createdAt
  }

  lemma SameTimesPaced(s: State, s': State, from: nat, now: nat, j: nat)
    requires SameTimes(s.rows, s'.rows) && s.issuing == s'.issuing && Paced(s, from, j) && from <= now
    ensures Paced(s', now, j)
  {
  }

  lemma GuessesKeepTimes(s: State, step: Step)
    requires step.Check? || step.Settle?
    ensures SameTimes(s.rows, Apply(s, step).rows) && Apply(s, step).issuing == s.issuing
  {
    NewestOpenIs(s.rows);
  }

  lemma StartKeepsPaced(s: State, now: nat, from: nat, j: nat)
    requires Paced(s, from, j) && from <= now
    ensures Paced(StartIssue(s, now), now, j)
  {
    if CooldownOver(s.rows, now) {
      forall k | 0 <= k < |s.rows| ensures s.rows[k].createdAt + RESEND_COOLDOWN <= now {
      }
    }
  }

  lemma InsertKeepsPaced(s: State, code: string, ttl: nat, now: nat, from: nat, j: nat)
    requires Paced(s, from, j) && from <= now && s.issuing <= j
    ensures Paced(InsertRow(s, code, ttl, now), now, j)
  {
    if s.issuing > 0 {
      var n := |s.rows|;
      forall k | 0 <= k && n == k + j ensures s.rows[k].createdAt + RESEND_COOLDOWN <= now {
        assert from < s.rows[k].createdAt + RESEND_COOLDOWN ==> n - k + s.issuing <= j;
      }
    }
  }

  lemma StepKeepsPaced(s: State, step: Step, from: nat, j: nat)
    requires Paced(s, from, j) && from <= Time(step, from) && s.issuing <= j
    ensures Paced(Apply(s, step), Time(step, from), j)
  {
    match step
    case CheckCooldown(now) => StartKeepsPaced(s, now, from, j);
    case Insert(code, ttl, now) => InsertKeepsPaced(s, code, ttl, now, from, j);
    case _ =>
      GuessesKeepTimes(s, step);
      SameTimesPaced(s, Apply(s, step), from, Time(step, from), j);
  }

  lemma {:induction false} RunKeepsPaced(s: State, steps: seq<Step>, from: nat, j: nat)
    requires Paced(s, from, j) && Ordered(steps, from) && IssuingAtMost(s, steps, j)
    ensures Paced(Run(s, steps), End(steps, from), j)
    decreases |steps|
  {
    if steps != [] {
      StepKeepsPaced(s, steps[0], from, j);
      RunKeepsPaced(Apply(s, steps[0]), steps[1..], Time(steps[0], from), j);
    }
  }

  lemma {:induction false} RunKeepsGuesses(s: State, steps: seq<Step>, k: nat)
    requires GuessesWithin(s, k) && Grounded(s) && k > 0 && InFlightAtMost(s, steps, k)
    ensures GuessesWithin(Run(s, steps), k)
    decreases |steps|
  {
    if steps != [] {
      var s1 := Apply(s, steps[0]);
      assert forall id :: s1.inFlight[id] <= k by { assert InFlightAtMost(s1, steps[1..], k); }
      StepKeepsGuesses(s, steps[0], k);
      RunKeepsGuesses(s1, steps[1..], k);
    }
  }

  lemma AnotherPeriod(older: nat, newer: nat, now: nat)
    requires older + RESEND_COOLDOWN <= newer <= now
    ensures (now - newer) / RESEND_COOLDOWN + 1 <= (now - older) / RESEND_COOLDOWN
  {
  }

  lemma OneMoreBlock(j: nat, p: nat, q: nat)
    requires p + 1 <= q
    ensures j * (1 + p) + j <= j * (1 + q)
  {
    assert j * (1 + p) + j == j * (2 + p);
    assert j * (2 + p) <= j * (1 + q);
  }

  /** Rows from `from` on come in blocks of `j`, one block a cooldown. */
  lemma {:induction false} RowsWithin(rows: seq<Otp>, j: nat, now: nat, from: nat)
    requires InOrder(rows, now) && Spaced(rows, j) && j > 0 && from < |rows|
    ensures rows[from].createdAt <= now && |rows| - from <= j * (1 + (now - rows[from].createdAt) / RESEND_COOLDOWN)
    decreases |rows| - from
  {
    assert rows[from].createdAt <= rows[|rows| - 1].createdAt;
    var q := (now - rows[from].createdAt) / RESEND_COOLDOWN;
    if from + j < |rows| {
      RowsWithin(rows, j, now, from + j);
      AnotherPeriod(rows[from].createdAt, rows[from + j].createdAt, now);
      OneMoreBlock(j, (now - rows[from + j].createdAt) / RESEND_COOLDOWN, q);
    } else {
      ProductOrder(j, 1, 1 + q);
    }
  }

  /**
   * With at most `j` issue calls between their two steps, at most `j` codes are issued for every cooldown that has
   * begun since the first code: one when calls do not overlap.
   */
  lemma CodeRate(steps: seq<Step>, j: nat, rows: seq<Otp>, now: nat)
    requires j > 0 && IssuingAtMost(EMPTY, steps, j) && Ordered(steps, 0)
    requires rows == Run(EMPTY, steps).rows && rows != [] && now == End(steps, 0)
    ensures rows[0].createdAt <= now && |rows| <= j * (1 + (now - rows[0].createdAt) / RESEND_COOLDOWN)
  {
    RunKeepsPaced(EMPTY, steps, 0, j);
    RowsWithin(rows, j, now, 0);
  }

  lemma ProductOrder(a: nat, b: nat, c: nat)
    requires b <= c
    ensures a * b <= a * c
  {
  }

  // ----- wrong guesses over all codes -----

  function WrongGuesses(rows: seq<Otp>): nat {
    if rows == [] then 0 else WrongGuesses(rows[..|rows| - 1]) + rows[|rows| - 1].attempts
  }

  lemma {:induction false} WrongGuessesWithin(rows: seq<Otp>, k: nat)
    requires forall id | 0 <= id < |rows| :: rows[id].attempts <= MAX_ATTEMPTS - 1 + k
    ensures WrongGuesses(rows) <= (MAX_ATTEMPTS - 1 + k) * |rows|
  {
    if rows != [] {
      WrongGuessesWithin(rows[..|rows| - 1], k);
    }
  }

  /** With at most `k` guesses in flight on a row at a time, a row takes at most `4 + k` wrong guesses. */
  lemma GuessesPerCode(steps: seq<Step>, k: nat, id: nat)
    requires k > 0 && InFlightAtMost(EMPTY, steps, k) && id < |Run(EMPTY, steps).rows|
    ensures Run(EMPTY, steps).rows[id].attempts <= MAX_ATTEMPTS - 1 + k
  {
    RunKeepsGuesses(EMPTY, steps, k);
    var s := Run(EMPTY, steps);
    assert s.rows[id].attempts + s.inFlight[id] <= MAX_ATTEMPTS - 1 + k;
  }

  /** All codes together take at most that many times the codes that can have been issued. */
  lemma GuessRate(steps: seq<Step>, k: nat, j: nat, rows: seq<Otp>, now: nat)
    requires k > 0 && InFlightAtMost(EMPTY, steps, k) && j > 0 && IssuingAtMost(EMPTY, steps, j) && Ordered(steps, 0)
    requires rows == Run(EMPTY, steps).rows && rows != [] && now == End(steps, 0)
    ensures rows[0].createdAt <= now
    ensures WrongGuesses(rows) <= (MAX_ATTEMPTS - 1 + k) * (j * (1 + (now - rows[0].createdAt) / RESEND_COOLDOWN))
  {
    forall id | 0 <= id < |rows| ensures rows[id].attempts <= MAX_ATTEMPTS - 1 + k {
      GuessesPerCode(steps, k, id);
    }
    CodeRate(steps, j, rows, now);
    WrongGuessesWithin(rows, k);
    ProductOrder(MAX_ATTEMPTS - 1 + k, |rows|, j * (1 + (now - rows[0].createdAt) / RESEND_COOLDOWN));
  }

  // ----- the bounds are met -----

  function Repeat(step: Step, n: nat): seq<Step> {
    if n == 0 then [] else [step] + Repeat(step, n - 1)
  }

  lemma RepeatStep(step: Step, n: nat, rest: seq<Step>)
    requires n > 0
    ensures var steps := Repeat(step, n) + rest; steps[0] == step && steps[1..] == Repeat(step, n - 1) + rest
  {
  }

  lemma {:induction false} StartTogether(s: State, now: nat, n: nat, rest: seq<Step>, j: nat)
    requires CooldownOver(s.rows, now) && IssuingAtMost(s.(issuing := s.issuing + n), rest, j)
    ensures Run(s, Repeat(CheckCooldown(now), n) + rest) == Run(s.(issuing := s.issuing + n), rest)
    ensures IssuingAtMost(s, Repeat(CheckCooldown(now), n) + rest, j)
    decreases n
  {
    if n == 0 {
      assert Repeat(CheckCooldown(now), n) + rest == rest;
    } else {
      StartTogether(StartIssue(s, now), now, n - 1, rest, j);
      RepeatStep(CheckCooldown(now), n, rest);
    }
  }

  lemma {:induction false} InsertTogether(s: State, code: string, ttl: nat, now: nat, n: nat, j: nat)
    requires n <= s.issuing <= j
    ensures |Run(s, Repeat(Insert(code, ttl, now), n)).rows| == |s.rows| + n
    ensures IssuingAtMost(s, Repeat(Insert(code, ttl, now), n), j)
    decreases n
  {
    if n > 0 {
      InsertTogether(InsertRow(s, code, ttl, now), code, ttl, now, n - 1, j);
      assert Repeat(Insert(code, ttl, now), n)[1..] == Repeat(Insert(code, ttl, now), n - 1);
    }
  }

  /** The bound on codes is met for every `j`: calls that all read before any of them writes issue as many at once. */
  lemma OverlappingIssuesMeetRate(code: string, ttl: nat, now: nat, j: nat)
    ensures var steps := Repeat(CheckCooldown(now), j) + Repeat(Insert(code, ttl, now), j);
      IssuingAtMost(EMPTY, steps, j) && |Run(EMPTY, steps).rows| == j
  {
    InsertTogether(EMPTY.(issuing := j), code, ttl, now, j, j);
    StartTogether(EMPTY, now, j, Repeat(Insert(code, ttl, now), j), j);
  }

  /** One code issued at `now`, with `a` wrong guesses counted and `n` guesses in flight. */
  function Guessed(code: string, ttl: nat, now: nat, a: nat, n: nat): State {
    State([NewRow(code, ttl, now).(attempts := a)], multiset{}[0 := n], 0)
  }

  /** A run of one step more. */
  lemma StepFirst(s: State, s': State, step: Step, rest: seq<Step>, steps: seq<Step>, k: nat)
    requires steps != [] && steps[0] == step && steps[1..] == rest && Apply(s, step) == s'
    requires (forall id :: s.inFlight[id] <= k) && InFlightAtMost(s', rest, k)
    ensures Run(s, steps) == Run(s', rest) && InFlightAtMost(s, steps, k)
  {
  }

  lemma CheckFirst(code: string, ttl: nat, now: nat, a: nat, n: nat, rest: seq<Step>, steps: seq<Step>, k: nat)
    requires a < MAX_ATTEMPTS && n <= k && steps != [] && steps[0] == Check(now) && steps[1..] == rest
    requires InFlightAtMost(Guessed(code, ttl, now, a, n + 1), rest, k)
    ensures Run(Guessed(code, ttl, now, a, n), steps) == Run(Guessed(code, ttl, now, a, n + 1), rest)
    ensures InFlightAtMost(Guessed(code, ttl, now, a, n), steps, k)
  {
    var s := Guessed(code, ttl, now, a, n);
    assert NewestOpen(s.rows) == Some(0);
    StepFirst(s, Guessed(code, ttl, now, a, n + 1), Check(now), rest, steps, k);
  }

  lemma SettleFirst(
      code: string, ttl: nat, now: nat, a: nat, n: nat, wrong: string, rest: seq<Step>, steps: seq<Step>, k: nat)
    requires wrong != code && 0 < n <= k && steps != [] && steps[0] == Settle(0, wrong) && steps[1..] == rest
    requires InFlightAtMost(Guessed(code, ttl, now, a + 1, n - 1), rest, k)
    ensures Run(Guessed(code, ttl, now, a, n), steps) == Run(Guessed(code, ttl, now, a + 1, n - 1), rest)
    ensures InFlightAtMost(Guessed(code, ttl, now, a, n), steps, k)
  {
    StepFirst(Guessed(code, ttl, now, a, n), Guessed(code, ttl, now, a + 1, n - 1), Settle(0, wrong), rest, steps, k);
  }

  lemma {:induction false} CheckTogether(code: string, ttl: nat, now: nat, a: nat, c: nat, n: nat, end: nat,
                                         rest: seq<Step>, steps: seq<Step>, k: nat)
    requires a < MAX_ATTEMPTS && end == c + n <= k && InFlightAtMost(Guessed(code, ttl, now, a, end), rest, k)
    requires steps == Repeat(Check(now), n) + rest
    ensures Run(Guessed(code, ttl, now, a, c), steps) == Run(Guessed(code, ttl, now, a, end), rest)
    ensures InFlightAtMost(Guessed(code, ttl, now, a, c), steps, k)
    decreases n
  {
    if n == 0 {
      assert steps == rest;
    } else {
      var later := Repeat(Check(now), n - 1) + rest;
      CheckTogether(code, ttl, now, a, c + 1, n - 1, end, rest, later, k);
      RepeatStep(Check(now), n, rest);
      CheckFirst(code, ttl, now, a, c, later, steps, k);
    }
  }

  lemma {:induction false} SettleTogether(code: string, ttl: nat, now: nat, a: nat, n: nat, end: nat, wrong: string,
                                          rest: seq<Step>, steps: seq<Step>, k: nat)
    requires n <= k && wrong != code && end == a + n && InFlightAtMost(Guessed(code, ttl, now, end, 0), rest, k)
    requires steps == Repeat(Settle(0, wrong), n) + rest
    ensures Run(Guessed(code, ttl, now, a, n), steps) == Run(Guessed(code, ttl, now, end, 0), rest)
    ensures InFlightAtMost(Guessed(code, ttl, now, a, n), steps, k)
    decreases n
  {
    if n == 0 {
      assert end == a && steps == rest;
    } else {
      var later := Repeat(Settle(0, wrong), n - 1) + rest;
      SettleTogether(code, ttl, now, a + 1, n - 1, end, wrong, rest, later, k);
      RepeatStep(Settle(0, wrong), n, rest);
      SettleFirst(code, ttl, now, a, n, wrong, later, steps, k);
    }
  }

  /** `n` wrong guesses one after the other. */
  function OneByOne(now: nat, wrong: string, n: nat): seq<Step> {
    if n == 0 then [] else [Check(now), Settle(0, wrong)] + OneByOne(now, wrong, n - 1)
  }

  lemma OneByOneStep(now: nat, wrong: string, n: nat, rest: seq<Step>)
    requires n > 0
    ensures OneByOne(now, wrong, n) + rest == [Check(now)] + ([Settle(0, wrong)] + (OneByOne(now, wrong, n - 1) + rest))
  {
    var later := OneByOne(now, wrong, n - 1);
    assert OneByOne(now, wrong, n) == [Check(now)] + ([Settle(0, wrong)] + later);
  }

  lemma OneWrongGuess(
      code: string, ttl: nat, now: nat, a: nat, wrong: string, rest: seq<Step>, steps: seq<Step>, k: nat)
    requires a < MAX_ATTEMPTS && wrong != code && k > 0 && steps == [Check(now)] + ([Settle(0, wrong)] + rest)
    requires InFlightAtMost(Guessed(code, ttl, now, a + 1, 0), rest, k)
    ensures Run(Guessed(code, ttl, now, a, 0), steps) == Run(Guessed(code, ttl, now, a + 1, 0), rest)
    ensures InFlightAtMost(Guessed(code, ttl, now, a, 0), steps, k)
  {
    SettleFirst(code, ttl, now, a, 1, wrong, rest, [Settle(0, wrong)] + rest, k);
    CheckFirst(code, ttl, now, a, 0, [Settle(0, wrong)] + rest, steps, k);
  }

  lemma {:induction false} OneByOneCounts(
      code: string, ttl: nat, now: nat, a: nat, n: nat, s: State, end: State, wrong: string,
      rest: seq<Step>, steps: seq<Step>, k: nat)
    requires a + n <= MAX_ATTEMPTS && wrong != code && k > 0 && steps == OneByOne(now, wrong, n) + rest
    requires s == Guessed(code, ttl, now, a, 0) && end == Guessed(code, ttl, now, a + n, 0)
    requires InFlightAtMost(end, rest, k)
    ensures Run(s, steps) == Run(end, rest)
    ensures InFlightAtMost(s, steps, k)
    decreases n
  {
    if n == 0 {
      assert end == s && steps == rest;
    } else {
      var next, later := Guessed(code, ttl, now, a + 1, 0), OneByOne(now, wrong, n - 1) + rest;
      OneByOneCounts(code, ttl, now, a + 1, n - 1, next, end, wrong, rest, later, k);
      OneByOneStep(now, wrong, n, rest);
      OneWrongGuess(code, ttl, now, a, wrong, later, steps, k);
    }
  }

  /** One code, four wrong guesses one after the other, then `k` that are all checked before any is written. */
  function Rush(code: string, ttl: nat, now: nat, wrong: string, k: nat): seq<Step> {
    [CheckCooldown(now), Insert(code, ttl, now)]
    + (OneByOne(now, wrong, MAX_ATTEMPTS - 1) + (Repeat(Check(now), k) + Repeat(Settle(0, wrong), k)))
  }

  lemma IssueFirst(code: string, ttl: nat, now: nat, rest: seq<Step>, k: nat)
    requires InFlightAtMost(Guessed(code, ttl, now, 0, 0), rest, k)
    ensures var steps := [CheckCooldown(now), Insert(code, ttl, now)] + rest;
      InFlightAtMost(EMPTY, steps, k) && Run(EMPTY, steps) == Run(Guessed(code, ttl, now, 0, 0), rest)
  {
    var steps := [CheckCooldown(now), Insert(code, ttl, now)] + rest;
    var s := StartIssue(EMPTY, now);
    StepFirst(s, Guessed(code, ttl, now, 0, 0), Insert(code, ttl, now), rest, steps[1..], k);
    StepFirst(EMPTY, s, CheckCooldown(now), steps[1..], steps, k);
  }

  /** The bound on wrong guesses is met for every `k`. */
  lemma OverlappingGuessesMeetBound(code: string, ttl: nat, now: nat, wrong: string, k: nat)
    requires wrong != code && k > 0
    ensures var steps := Rush(code, ttl, now, wrong, k);
      && InFlightAtMost(EMPTY, steps, k)
      && |Run(EMPTY, steps).rows| == 1 && Run(EMPTY, steps).rows[0].attempts == MAX_ATTEMPTS - 1 + k
  {
    var a := MAX_ATTEMPTS - 1;
    var settling := Repeat(Settle(0, wrong), k);
    var rushing := Repeat(Check(now), k) + settling;
    var guessing := OneByOne(now, wrong, a) + rushing;
    assert settling == settling + [];
    SettleTogether(code, ttl, now, a, k, a + k, wrong, [], settling, k);
    CheckTogether(code, ttl, now, a, 0, k, k, settling, rushing, k);
    OneByOneCounts(code, ttl, now, 0, a, Guessed(code, ttl, now, 0, 0), Guessed(code, ttl, now, a, 0), wrong,
                   rushing, guessing, k);
    IssueFirst(code, ttl, now, guessing, k);
  }

  // ----- the service object -----

  class OtpStore {
    var rows: seq<Otp>

    /** An issue call that runs alone: read and write at one time. */
    method IssueCode(code: string, ttl: nat, now: nat) returns (ok: bool)
      modifies this
      ensures ok <==> old(rows) == [] || old(rows)[|old(rows)| - 1].createdAt + 60_000 <= now
      ensures rows == old(rows) + if ok then [Otp(code, now, now + ttl, 0, false, 0)] else []
      ensures rows == InsertRow(StartIssue(State(old(rows), multiset{}, 0), now), code, ttl, now).rows
    {
      ok := rows == [] || rows[|rows| - 1].createdAt + RESEND_COOLDOWN <= now;
      if ok {
        rows := rows + [NewRow(code, ttl, now)];
      }
    }

    method FindNewestOpen() returns (found: Option<nat>)
      ensures found == NewestOpen(rows)
    {
      var k := |rows|;
      assert rows[..k] == rows;
      while k > 0
        invariant 0 <= k <= |rows| && NewestOpen(rows) == NewestOpen(rows[..k])
      {
        assert rows[..k][..k - 1] == rows[..k - 1];
        if !rows[k - 1].consumed {
          return Some(k - 1);
        }
        k := k - 1;
      }
      found := None;
    }

    /**
     * A guess that runs alone. It is right exactly when the newest open code is not expired, has taken fewer than five
     * wrong guesses and is the code guessed. An expired code stays as it is, and a used up one is only consumed.
     */
    method Consume(code: string, now: nat) returns (ok: bool)
      modifies this
      ensures (forall id: nat :: !IsNewestOpen(old(rows), id)) ==> !ok && rows == old(rows)
      ensures forall id: nat :: IsNewestOpen(old(rows), id) ==> Outcome(old(rows), id, code, now, rows, ok)
      ensures var checked := CheckGuess(State(old(rows), multiset{}, 0), now);
        && (checked.inFlight == multiset{} ==> rows == checked.rows && !ok)
        && (forall id | id in checked.inFlight ::
              && rows == SettleGuess(checked, id, code).rows
              && (ok <==> old(rows)[id].code == code))
    {
      NewestOpenIs(rows);
      var found := FindNewestOpen();
      if found == None {
        return false;
      }
      var id := found.value;
      OneNewestOpen(rows, id);
      if rows[id].expiresAt < now {
        return false;
      }
      if rows[id].attempts >= MAX_ATTEMPTS {
        rows := rows[id := rows[id].(consumed := true)];
        return false;
      }
      ok := !rows[id].consumed && rows[id].code == code;
      if ok {
        rows := rows[id := rows[id].(consumed := true, wins := rows[id].wins + 1)];
      } else {
        rows := rows[id := rows[id].(attempts := rows[id].attempts + 1)];
      }
    }
  }
}
