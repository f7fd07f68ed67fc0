/** The loop that waits for a game's lock: attempts and sleeps until a deadline. Times are in milliseconds. */
module LockRetry {
  import opened Domain

  const LockWait: int := 5_000
  const FirstDelay: int := 2
  const DelayCap: int := 50

  /** The delay after n failed attempts. */
  function Delay(n: nat): int {
    if n == 0 then FirstDelay
    else if Delay(n - 1) < DelayCap then 2 * Delay(n - 1) else Delay(n - 1)
  }

  /** Total of the first n delays. */
  function Slept(n: nat): int {
    if n == 0 then 0 else Slept(n - 1) + Delay(n - 1)
  }

  /** 2, 4, 8, 16, 32, then 64 for ever. */
  lemma {:induction false} DelaysLevelOff(n: nat)
    ensures Delay(0) == 2 && Delay(1) == 4 && Delay(2) == 8 && Delay(3) == 16 && Delay(4) == 32
    ensures n >= 5 ==> Delay(n) == 64
  {
    var first := Delay(1);
    assert Delay(2) == 8 && Delay(3) == 16 && Delay(4) == 32 && Delay(5) == 64;
    if n > 5 { DelaysLevelOff(n - 1); }
  }

  lemma {:induction false} SleptClosedForm(n: nat)
    requires n >= 5
    ensures Slept(n) == 62 + 64 * (n - 5)
  {
    DelaysLevelOff(n);
    if n == 5 {
      assert Slept(1) == 2 && Slept(2) == 6 && Slept(3) == 14 && Slept(4) == 30;
    } else {
      DelaysLevelOff(n - 1);
      SleptClosedForm(n - 1);
    }
  }

  lemma {:induction false} SleptGrows(m: nat, n: nat)
    requires m <= n
    ensures Slept(m) <= Slept(n)
    decreases n
  {
    if m < n {
      if n - 1 >= 5 { DelaysLevelOff(n - 1); } else { DelaysLevelOff(5); }
      SleptGrows(m, n - 1);
    }
  }

  /** Only after 83 sleeps is the wait over, 54 ms late. */
  lemma WaitOver(n: nat)
    ensures Slept(n) > LockWait <==> n >= 83
    ensures n <= 83 ==> Slept(n) <= 5_054
    ensures n == 83 ==> Slept(n) == 5_054
  {
    SleptClosedForm(83);
    SleptClosedForm(82);
    if n >= 83 { SleptGrows(83, n); } else { SleptGrows(n, 82); }
  }

  datatype Reply = Free | Taken | Broken

  /** The outside world: the reply to attempt i and how long it takes, how long sleep i really lasts, and cancellation. */
  datatype World = World(reply: nat -> Reply, latency: nat -> int, sleep: nat -> int, cancelled: nat -> bool)

  datatype Outcome = Locked | GaveUp | Cancelled | Failed

  ghost predicate Plausible(w: World) {
    forall i :: w.latency(i) >= 0 && w.sleep(i) >= Delay(i)
  }

  /** Sleeps last exactly their delay and calls take no time. */
  ghost predicate Exact(w: World) {
    forall i :: w.latency(i) == 0 && w.sleep(i) == Delay(i)
  }

  lemma OneRound(w: World, i: nat)
    requires Plausible(w)
    ensures w.latency(i) >= 0 && w.sleep(i) >= Delay(i)
    ensures Exact(w) ==> w.latency(i) == 0 && w.sleep(i) == Delay(i)
    ensures Slept(i + 1) == Slept(i) + Delay(i)
    ensures Delay(i + 1) == if Delay(i) < DelayCap then 2 * Delay(i) else Delay(i)
  {
  }

  /** How long the first n attempts and the sleeps after them really take. */
  ghost function Spent(w: World, n: nat): int {
    if n == 0 then 0 else Spent(w, n - 1) + w.latency(n - 1) + w.sleep(n - 1)
  }

  lemma {:induction false} SpentAndSlept(w: World, n: nat)
    requires Plausible(w)
    ensures Spent(w, n) >= Slept(n) && (Exact(w) ==> Spent(w, n) == Slept(n))
  {
    if n > 0 {
      SpentAndSlept(w, n - 1);
      OneRound(w, n - 1);
    }
  }

  /**
   * The loop ends within 84 attempts. It takes the lock at the first attempt that
   * finds it free, and gives up only when the wait is over.
   */
  method Lock(w: World) returns (outcome: Outcome, attempts: nat, elapsed: int)
    requires Plausible(w)
    ensures 1 <= attempts <= 84
    ensures forall i :: 0 <= i < attempts - 1 ==> w.reply(i) == Taken && !w.cancelled(i)
    ensures outcome == Locked <==> w.reply(attempts - 1) == Free
    ensures outcome == Failed <==> w.reply(attempts - 1) == Broken
    ensures outcome == GaveUp <==> w.reply(attempts - 1) == Taken && elapsed > LockWait
    ensures outcome == Cancelled ==> w.cancelled(attempts - 1)
    ensures elapsed == Spent(w, attempts - 1) + w.latency(attempts - 1) >= Slept(attempts - 1)
    ensures Exact(w) ==> elapsed == Slept(attempts - 1) <= 5_054
    ensures Exact(w) && outcome == GaveUp ==> attempts == 84 && elapsed == 5_054
  {
    attempts, elapsed := 0, 0;
    var delay := FirstDelay;
    while true
      invariant 0 <= attempts <= 83
      invariant delay == Delay(attempts)
      invariant elapsed == Spent(w, attempts)
      invariant forall i :: 0 <= i < attempts ==> w.reply(i) == Taken && !w.cancelled(i)
      decreases 84 - attempts
    {
      var i := attempts;
      WaitOver(i);
      OneRound(w, i);
      SpentAndSlept(w, i);
      attempts := attempts + 1;
      elapsed := elapsed + w.latency(i);
      var reply := w.reply(i);
      if reply == Broken { return Failed, attempts, elapsed; }
      if reply == Free { return Locked, attempts, elapsed; }
      if elapsed > LockWait { return GaveUp, attempts, elapsed; }
      if w.cancelled(i) { return Cancelled, attempts, elapsed; }
      elapsed := elapsed + w.sleep(i);
      if delay < DelayCap { delay := 2 * delay; }
    }
  }
}
