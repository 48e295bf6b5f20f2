/** Failed logins and the lockout: how many password guesses an account can take over time. */
module Lockout {
  import opened Common

  const MAX_FAILED_ATTEMPTS := 5
  const LOCKOUT := 15 * 60_000

  /** The lockout fields of a user row, and the times of the failures since the last reset. */
  datatype Account = Account(active: bool, failedLoginAttempts: nat, lockedUntil: Option<nat>, failures: seq<nat>)

  /** One login: the lock is looked at at time `checked`, the outcome is written at time `written`. */
  datatype Attempt = Attempt(checked: nat, written: nat, passwordOk: bool)

  predicate Locked(a: Account, now: nat) { a.lockedUntil.Some? && a.lockedUntil.value > now }

  function Login(a: Account, t: Attempt): Account {
    if Locked(a, t.checked) then a
    else if !t.passwordOk then
      var attempts := a.failedLoginAttempts + 1;
      Account(a.active, attempts,
              if attempts >= MAX_FAILED_ATTEMPTS then Some(t.written + LOCKOUT) else a.lockedUntil,
              a.failures + [t.written])
    else if !a.active then a
    else Account(true, 0, None, [])
  }

  function Run(a: Account, attempts: seq<Attempt>): Account
    decreases |attempts|
  {
    if attempts == [] then a else Run(Login(a, attempts[0]), attempts[1..])
  }

  /** The clock never goes back and logins do not overlap. */
  predicate Ordered(attempts: seq<Attempt>, from: nat)
    decreases |attempts|
  {
    || attempts == []
    || (from <= attempts[0].checked <= attempts[0].written && Ordered(attempts[1..], attempts[0].written))
  }

  /** From the fifth failure on, each failure is followed by a full lockout. */
  ghost predicate Inv(a: Account, now: nat) {
    && |a.failures| == a.failedLoginAttempts
    && (forall k | 0 <= k < |a.failures| :: a.failures[k] <= now)
    && (|a.failures| < MAX_FAILED_ATTEMPTS ==> a.lockedUntil == None)
    && (|a.failures| >= MAX_FAILED_ATTEMPTS ==> a.lockedUntil == Some(a.failures[|a.failures| - 1] + LOCKOUT))
    && (forall k, l | MAX_FAILED_ATTEMPTS <= l < |a.failures| && k == l - 1 :: a.failures[k] + LOCKOUT <= a.failures[l])
  }

  lemma LoginKeepsInv(a: Account, t: Attempt, now: nat)
    requires Inv(a, now) && now <= t.checked <= t.written
    ensures Inv(Login(a, t), t.written)
  {
  }

  lemma {:induction false} RunKeepsInv(a: Account, attempts: seq<Attempt>, from: nat) returns (now: nat)
    requires Inv(a, from) && Ordered(attempts, from)
    ensures Inv(Run(a, attempts), now)
    decreases |attempts|
  {
    if attempts == [] {
      now := from;
    } else {
      LoginKeepsInv(a, attempts[0], from);
      now := RunKeepsInv(Login(a, attempts[0]), attempts[1..], attempts[0].written);
    }
  }

  lemma {:induction false} Spread(a: Account, now: nat, k: nat)
    requires Inv(a, now) && MAX_FAILED_ATTEMPTS <= k + 1 <= |a.failures|
    ensures a.failures[MAX_FAILED_ATTEMPTS - 1] + (k + 1 - MAX_FAILED_ATTEMPTS) * LOCKOUT <= a.failures[k]
  {
    if k >= MAX_FAILED_ATTEMPTS {
      Spread(a, now, k - 1);
    }
  }

  /**
   * Over any run, the failures since the last reset number at most five plus one for every full lockout period
   * between the fifth and the last of them.
   */
  lemma FailureRate(active: bool, attempts: seq<Attempt>)
    requires Ordered(attempts, 0)
    ensures var a := Run(Account(active, 0, None, []), attempts);
      && a.failedLoginAttempts == |a.failures|
      && (|a.failures| >= MAX_FAILED_ATTEMPTS ==>
            a.failedLoginAttempts
              <= MAX_FAILED_ATTEMPTS + (a.failures[|a.failures| - 1] - a.failures[MAX_FAILED_ATTEMPTS - 1]) / LOCKOUT)
  {
    var a := Run(Account(active, 0, None, []), attempts);
    var now := RunKeepsInv(Account(active, 0, None, []), attempts, 0);
    if |a.failures| >= MAX_FAILED_ATTEMPTS {
      Spread(a, now, |a.failures| - 1);
    }
  }

  class LoginGuard {
    var active: bool
    var failedLoginAttempts: nat
    var lockedUntil: Option<nat>
    ghost var failures: seq<nat>

    ghost function Snapshot(): Account
      reads this
    {
      Account(active, failedLoginAttempts, lockedUntil, failures)
    }

    /** The part of `login` that reads and writes the user row; `ok` is true when a session may start. */
    method TryLogin(t: Attempt) returns (ok: bool)
      modifies this
      ensures Snapshot() == Login(old(Snapshot()), t)
      ensures ok <==> !(old(lockedUntil).Some? && t.checked < old(lockedUntil).value) && t.passwordOk && old(active)
      ensures active == old(active)
      ensures ok ==> failedLoginAttempts == 0 && lockedUntil == None
      ensures (old(lockedUntil).Some? && t.checked < old(lockedUntil).value) || (t.passwordOk && !old(active)) ==>
        failedLoginAttempts == old(failedLoginAttempts) && lockedUntil == old(lockedUntil)
      ensures !(old(lockedUntil).Some? && t.checked < old(lockedUntil).value) && !t.passwordOk ==>
        && failedLoginAttempts == old(failedLoginAttempts) + 1
        && lockedUntil == if old(failedLoginAttempts) >= 4 then Some(t.written + 900_000) else old(lockedUntil)
    {
      if lockedUntil.Some? && lockedUntil.value > t.checked {
        return false;
      }
      if !t.passwordOk {
        failedLoginAttempts := failedLoginAttempts + 1;
        failures := failures + [t.written];
        if failedLoginAttempts >= MAX_FAILED_ATTEMPTS {
          lockedUntil := Some(t.written + LOCKOUT);
        }
        return false;
      }
      if !active {
        return false;
      }
      failedLoginAttempts, lockedUntil, failures := 0, None, [];
      ok := true;
    }
  }
}
