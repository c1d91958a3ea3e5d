/** One pending alarm and the per-policy table its delivery window is derived from. */
module AlarmArbiter {
  import opened Window

  class Alarm {
    /** The elapsed time the requester originally asked for. */
    const requestedElapsed: nat
    /** The requested window length: the requester slot's slack. */
    const windowLength: nat
    /** Per-slot slack, fixed for the lifetime of the alarm. */
    const slack: seq<nat>
    /** Per-slot proposed elapsed times, overwritten in place by the policies. */
    const policyElapsed: array<nat>

    ghost predicate Valid()
      reads this
    {
      policyElapsed.Length == NUM_POLICIES && slack == RequesterOnly(windowLength)
    }

    /** Construction from the requested elapsed time and window length: the
        requester slot holds the request, every other slot holds 0. */
    constructor (requestedElapsed: nat, windowLength: nat)
      ensures Valid() && fresh(policyElapsed)
      ensures this.requestedElapsed == requestedElapsed && this.windowLength == windowLength
      ensures policyElapsed[..] == RequesterOnly(requestedElapsed)
      ensures WhenElapsed() == requestedElapsed
      ensures MaxWhenElapsed() == requestedElapsed + windowLength
    {
      this.requestedElapsed := requestedElapsed;
      this.windowLength := windowLength;
      slack := RequesterOnly(windowLength);
      var table := new nat[NUM_POLICIES](_ => 0);
      table[REQUESTER_POLICY_INDEX] := requestedElapsed;
      policyElapsed := table;
      new;
      assert policyElapsed[..] == RequesterOnly(requestedElapsed);
      InitialWindow(requestedElapsed, windowLength);
    }

    /** The value last stored for `slot`; it never lies beyond the floor. */
    function GetPolicyElapsed(slot: nat): (v: nat)
      requires Valid() && slot < NUM_POLICIES
      reads this, policyElapsed
      ensures v == policyElapsed[..][slot]
      ensures v <= WhenElapsed()
    {
      policyElapsed[slot]
    }

    /** whenElapsed: no slot's proposed elapsed time lies beyond it, and some
        slot proposes exactly it. */
    function WhenElapsed(): (w: nat)
      requires Valid()
      reads this, policyElapsed
      ensures forall i :: 0 <= i < NUM_POLICIES ==> policyElapsed[i] <= w
      ensures exists i :: 0 <= i < NUM_POLICIES && policyElapsed[i] == w
    {
      MaxOf(policyElapsed[..])
    }

    /** maxWhenElapsed: the requester's elapsed plus the window, or the floor
        if some hard-floor slot lies beyond that; never below the floor. */
    function MaxWhenElapsed(): (m: nat)
      requires Valid()
      reads this, policyElapsed
      ensures m == Max(policyElapsed[REQUESTER_POLICY_INDEX] + windowLength, WhenElapsed())
      ensures WhenElapsed() <= m
    {
      MaxWhenIsRequesterCeilingOrWhen(policyElapsed[..], slack);
      MaxWhenOf(policyElapsed[..], slack)
    }

    /** Recomputes both bounds from the table in one pass over the slots. */
    method ComputeBounds() returns (when: nat, maxWhen: nat)
      requires Valid()
      ensures when == WhenElapsed() && maxWhen == MaxWhenElapsed()
    {
      when, maxWhen := 0, 0;
      var ceilings := Ceilings(policyElapsed[..], slack);
      for i := 0 to policyElapsed.Length
        invariant when == MaxOf(policyElapsed[..i])
        invariant maxWhen == MaxOf(ceilings[..i])
      {
        assert policyElapsed[..i + 1] == policyElapsed[..i] + [policyElapsed[i]];
        assert ceilings[..i + 1] == ceilings[..i] + [ceilings[i]];
        assert ceilings[i] == policyElapsed[i] + slack[i];
        when := Max(when, policyElapsed[i]);
        maxWhen := Max(maxWhen, policyElapsed[i] + slack[i]);
      }
      assert policyElapsed[..policyElapsed.Length] == policyElapsed[..];
      assert ceilings[..policyElapsed.Length] == ceilings;
    }

    /** Stores `v` for `slot` unconditionally and reports whether either bound
        of the window moved. */
    method SetPolicyElapsed(slot: nat, v: nat) returns (changed: bool)
      requires Valid() && slot < NUM_POLICIES
      modifies policyElapsed
      ensures Valid()
      ensures policyElapsed[..] == old(policyElapsed[..])[slot := v]
      ensures changed == (old(WhenElapsed()) != WhenElapsed()
                          || old(MaxWhenElapsed()) != MaxWhenElapsed())
    {
      var oldWhen, oldMaxWhen := ComputeBounds();
      policyElapsed[slot] := v;
      var newWhen, newMaxWhen := ComputeBounds();
      changed := oldWhen != newWhen || oldMaxWhen != newMaxWhen;
    }
  }
}
