/** Rotation of provider credentials: one reconcile reads the stored expiry, rotates when the
    pre-rotation time has passed, and says when it wants to run again. Times are nanoseconds. */
module Rotation {
  import opened Wrappers

  const SECOND := 1_000_000_000
  const MINUTE := 60 * SECOND

  /** What happens during one reconcile: the clock at IsExpired and at time.Until, whether the
      Secret can be read, and the expiry a rotation yields if it succeeds. */
  datatype Attempt = Attempt(start: int, end: int, readOk: bool, rotated: Option<int>)

  /** The expiry annotation has whole seconds (RFC 3339). */
  function Annotated(expiry: int): int {
    expiry - expiry % SECOND
  }

  function RotationTime(expiry: int, window: int): int {
    Annotated(expiry) - window
  }

  /** IsExpired: strictly before; a missing Secret reads as the zero time, long past. */
  predicate Due(stored: Option<int>, window: int, now: int) {
    stored.None? || RotationTime(stored.value, window) < now
  }

  /** The credential stored after a reconcile, and whether the reconcile succeeds. */
  function Stored(stored: Option<int>, window: int, a: Attempt): Option<int> {
    if a.readOk && Due(stored, window, a.start) && a.rotated.Some? then a.rotated else stored
  }

  predicate Succeeds(stored: Option<int>, window: int, a: Attempt) {
    a.readOk && (Due(stored, window, a.start) ==> a.rotated.Some? && a.rotated.value - window > a.end)
  }

  function Wakeup(stored: Option<int>, window: int, a: Attempt): int
    requires Succeeds(stored, window, a)
  {
    if Due(stored, window, a.start) then a.rotated.value - window else RotationTime(stored.value, window)
  }

  class RotationController {
    var stored: Option<int>
    const window: int

    constructor (stored: Option<int>, window: int)
      ensures this.stored == stored && this.window == window
    {
      this.stored, this.window := stored, window;
    }

    /** executeRotation: the requeue is a minute unless the reconcile succeeds. */
    method ExecuteRotation(a: Attempt) returns (requeue: int, ok: bool)
      modifies this
      ensures stored == Stored(old(stored), window, a)
      ensures ok <==> Succeeds(old(stored), window, a)
      ensures requeue == if ok then Wakeup(old(stored), window, a) - a.end else MINUTE
    {
      requeue, ok := MINUTE, true;
      if !a.readOk {
        ok := false;
      } else if stored.None? || RotationTime(stored.value, window) < a.start {
        if a.rotated.None? {
          ok := false;
        } else {
          stored := a.rotated;
          var rotationTime := a.rotated.value - window;
          var r := rotationTime - a.end;
          if r > 0 {
            requeue := r;
          } else {
            ok := false;
          }
        }
      } else {
        requeue := RotationTime(stored.value, window) - a.end;
      }
    }
  }

  /** The guard of the failing branch: the rotation time falls between the two readings. */
  predicate Stalls(stored: Option<int>, window: int, a: Attempt) {
    a.readOk && stored.Some? && a.start <= RotationTime(stored.value, window) <= a.end
  }

  /** A success asks for a strictly positive delay exactly when it does not stall; a delay
      that is not positive is not scheduled at all. */
  lemma PositiveRequeueIff(stored: Option<int>, window: int, a: Attempt)
    requires Succeeds(stored, window, a)
    ensures Wakeup(stored, window, a) - a.end > 0 <==> !Stalls(stored, window, a)
  {}

  /** Even with a single clock reading it stalls: at the rotation time to the dot. */
  lemma OnTheDotStalls()
    ensures var a := Attempt(10 * SECOND, 10 * SECOND, true, None);
            Succeeds(Some(20 * SECOND), 10 * SECOND, a) && Wakeup(Some(20 * SECOND), 10 * SECOND, a) - a.end == 0
  {}

  // ------------------------------------------------------------------- whole runs

  /** Consecutive reconciles: `stored[i]` is what attempt `i` finds. After a success with a
      positive delay the next reconcile starts at most `late` after the requested time;
      after a failure, or without a schedule, it starts at any later time. */
  ghost predicate IsRun(run: seq<Attempt>, stored: seq<Option<int>>, window: int, late: nat) {
    && |stored| == |run| + 1
    && (forall i :: 0 <= i < |run| ==> run[i].start <= run[i].end && stored[i + 1] == Stored(stored[i], window, run[i]))
    && (forall i :: 0 < i < |run| ==> Follows(stored[i - 1], window, late, run[i - 1], run[i]))
  }

  predicate Follows(stored: Option<int>, window: int, late: nat, a: Attempt, b: Attempt) {
    && a.end <= b.start
    && (Succeeds(stored, window, a) && Wakeup(stored, window, a) > a.end ==>
        b.start <= Wakeup(stored, window, a) + late)
  }

  /** When the reconcile that is now failing or succeeding was first attempted. */
  ghost function FirstTry(run: seq<Attempt>, stored: seq<Option<int>>, window: int, i: nat): int
    requires |stored| == |run| + 1 && i < |run|
  {
    if i == 0 || Succeeds(stored[i - 1], window, run[i - 1]) then run[i].start else FirstTry(run, stored, window, i - 1)
  }

  /** Lateness and the time spent on failed tries, up to the end of try `i`, fit the window;
      rotations outlive the window; no try stalls. */
  ghost predicate Fits(run: seq<Attempt>, stored: seq<Option<int>>, window: int, late: nat, i: nat)
    requires |stored| == |run| + 1 && i < |run|
  {
    && late + (run[i].end - FirstTry(run, stored, window, i)) < window
    && (run[i].rotated.Some? ==> run[i].rotated.value - window > run[i].end)
    && !Stalls(stored[i], window, run[i])
  }

  lemma {:induction false} FirstTryIsEarly(run: seq<Attempt>, stored: seq<Option<int>>, window: int, late: nat, i: nat)
    requires IsRun(run, stored, window, late) && 0 < i < |run|
    requires Succeeds(stored[0], window, run[0]) && forall k :: 0 <= k <= i ==> Fits(run, stored, window, late, k)
    ensures stored[i].Some? && FirstTry(run, stored, window, i) <= stored[i].value - window + late
    ensures FirstTry(run, stored, window, i) <= run[i].start
  {
    var a := run[i - 1];
    assert Fits(run, stored, window, late, i - 1);
    assert Follows(stored[i - 1], window, late, a, run[i]);
    if Succeeds(stored[i - 1], window, a) {
      PositiveRequeueIff(stored[i - 1], window, a);
    } else {
      assert i > 1;
      FirstTryIsEarly(run, stored, window, late, i - 1);
    }
  }

  /** From the first successful reconcile on, at every instant the stored credential has not
      expired, be it the one found or the one written by the reconcile under way. */
  lemma CredentialNeverExpires(run: seq<Attempt>, stored: seq<Option<int>>, window: int, late: nat, i: nat, t: int)
    requires IsRun(run, stored, window, late) && 0 < i < |run|
    requires Succeeds(stored[0], window, run[0]) && forall k :: 0 <= k <= i ==> Fits(run, stored, window, late, k)
    requires run[i - 1].end <= t <= run[i].end
    ensures stored[i].Some? && t < stored[i].value
    ensures stored[i + 1].Some? && t < stored[i + 1].value
  {
    FirstTryIsEarly(run, stored, window, late, i);
    assert Fits(run, stored, window, late, i);
    assert stored[i + 1] == Stored(stored[i], window, run[i]);
  }

  /** A stall really lets the credential expire: every run that ends in one goes on, within
      all other bounds, to a reconcile that finds the credential expired. */
  lemma StallLetsItExpire(run: seq<Attempt>, stored: seq<Option<int>>, window: int, late: nat) returns (a: Attempt)
    requires IsRun(run, stored, window, late) && run != [] && 0 <= late < window
    requires Stalls(stored[|run| - 1], window, run[|run| - 1])
    ensures var found := stored[|run|];
            && IsRun(run + [a], stored + [Stored(found, window, a)], window, late)
            && Fits(run + [a], stored + [Stored(found, window, a)], window, late, |run|)
            && found.Some? && found.value <= a.start
  {
    var n := |run|;
    var last, found := run[n - 1], stored[n];
    assert found == Stored(stored[n - 1], window, last) == stored[n - 1];
    var now := if found.value > last.end then found.value else last.end;
    a := Attempt(now, now, true, Some(now + window + 1));
    var run', stored' := run + [a], stored + [Stored(found, window, a)];
    assert forall k :: 0 <= k < n ==> run'[k] == run[k] && stored'[k] == stored[k];
    assert run'[n] == a && stored'[n] == found;
    assert Succeeds(stored'[n - 1], window, run'[n - 1]);
    assert Follows(stored'[n - 1], window, late, last, a);
    assert IsRun(run', stored', window, late) by {
      forall k | 0 < k < |run'| ensures Follows(stored'[k - 1], window, late, run'[k - 1], run'[k]) {
        if k < n {
          assert Follows(stored[k - 1], window, late, run[k - 1], run[k]);
        }
      }
    }
  }
}
