/** Pure combination rules of an alarm's delivery window.

    Every policy slot proposes an elapsed time (a floor) and carries a slack.
    The window is [MaxOf(e), MaxWhenOf(e, s)]: the latest floor, and the
    latest personal ceiling (floor plus slack) over all slots. */
module Window {

  /** Slot of the application that requested the alarm; the only one with slack. */
  const REQUESTER_POLICY_INDEX: nat := 0
  /** Slot of the app-standby throttling policy; a hard floor. */
  const APP_STANDBY_POLICY_INDEX: nat := 1
  /** Number of policy slots every alarm carries. */
  const NUM_POLICIES: nat := 2

  function Max(a: nat, b: nat): nat {
    if a < b then b else a
  }

  /** The largest element of `s`, or 0 when `s` is empty (no constraint).
      Applied to the elapsed table it is whenElapsed, the binding floor. */
  function MaxOf(s: seq<nat>): (r: nat)
    ensures forall k :: 0 <= k < |s| ==> s[k] <= r
    ensures |s| == 0 ==> r == 0
    ensures |s| > 0 ==> r in s
  {
    if |s| == 0 then 0
    else
      var rest := MaxOf(s[..|s| - 1]);
      assert s[..|s| - 1] + [s[|s| - 1]] == s;
      Max(rest, s[|s| - 1])
  }

  /** Each slot's personal ceiling: its proposed elapsed time plus its slack. */
  function Ceilings(e: seq<nat>, slack: seq<nat>): seq<nat>
    requires |e| == |slack|
  {
    seq(|e|, i requires 0 <= i < |e| => e[i] + slack[i])
  }

  /** maxWhenElapsed: the latest of all personal ceilings. */
  function MaxWhenOf(e: seq<nat>, slack: seq<nat>): nat
    requires |e| == |slack|
  {
    MaxOf(Ceilings(e, slack))
  }

  /** A table holding `x` in the requester slot and 0 in every other slot.
      A new alarm requested at `r` with window `w` has elapsed table
      RequesterOnly(r) and slack table RequesterOnly(w). */
  function RequesterOnly(x: nat): (t: seq<nat>)
    ensures |t| == NUM_POLICIES && t[REQUESTER_POLICY_INDEX] == x
    ensures forall i :: 0 <= i < |t| && i != REQUESTER_POLICY_INDEX ==> t[i] == 0
  {
    [x, 0]
  }

  /** Only the requester slot may carry slack. */
  ghost predicate HardFloorsOnly(slack: seq<nat>) {
    REQUESTER_POLICY_INDEX < |slack| &&
    forall i :: 0 <= i < |slack| && i != REQUESTER_POLICY_INDEX ==> slack[i] == 0
  }

  /** Any upper bound of every element bounds the maximum. */
  lemma MaxOfLeast(s: seq<nat>, b: nat)
    requires forall k :: 0 <= k < |s| ==> s[k] <= b
    ensures MaxOf(s) <= b
  {
  }

  /** The window is never empty: the floor never exceeds the ceiling. */
  lemma WhenAtMostMaxWhen(e: seq<nat>, slack: seq<nat>)
    requires |e| == |slack|
    ensures MaxOf(e) <= MaxWhenOf(e, slack)
  {
    var c := Ceilings(e, slack);
    forall k | 0 <= k < |e| ensures e[k] <= MaxOf(c) {
      assert e[k] <= c[k];
    }
    MaxOfLeast(e, MaxOf(c));
  }

  /** Overwriting one slot: the new maximum is the larger of the written value
      and the maximum with that slot cleared to 0. On the elapsed table this
      is the floor after a write to slot `i`. */
  lemma MaxOfUpdate(s: seq<nat>, i: nat, v: nat)
    requires i < |s|
    ensures MaxOf(s[i := v]) == Max(MaxOf(s[i := 0]), v)
  {
    var t, z := s[i := v], s[i := 0];
    forall k | 0 <= k < |t| ensures t[k] <= Max(MaxOf(z), v) {
      if k != i { assert t[k] == z[k]; }
    }
    MaxOfLeast(t, Max(MaxOf(z), v));
    forall k | 0 <= k < |z| ensures z[k] <= MaxOf(t) {
      if k != i { assert z[k] == t[k]; }
    }
    MaxOfLeast(z, MaxOf(t));
    assert t[i] == v;
  }

  /** Writing `v` into slot `i` moves each ceiling only at slot `i`. */
  lemma CeilingsUpdate(e: seq<nat>, slack: seq<nat>, i: nat, v: nat)
    requires |e| == |slack| && i < |e|
    ensures Ceilings(e[i := v], slack) == Ceilings(e, slack)[i := v + slack[i]]
  {
  }

  /** The current floor splits at any slot `i`: it is the larger of that
      slot's value and the maximum of the other slots. */
  lemma FloorSplitsAtSlot(e: seq<nat>, i: nat)
    requires i < |e|
    ensures MaxOf(e) == Max(MaxOf(e[i := 0]), e[i])
  {
    assert e[i := e[i]] == e;
    MaxOfUpdate(e, i, e[i]);
  }

  /** The ceiling after a write to slot `i`, in terms of the other slots. */
  lemma MaxWhenAfterWrite(e: seq<nat>, slack: seq<nat>, i: nat, v: nat)
    requires |e| == |slack| && i < |e|
    ensures MaxWhenOf(e[i := v], slack)
            == Max(MaxOf(Ceilings(e, slack)[i := 0]), v + slack[i])
    ensures MaxWhenOf(e, slack)
            == Max(MaxOf(Ceilings(e, slack)[i := 0]), e[i] + slack[i])
  {
    var c := Ceilings(e, slack);
    CeilingsUpdate(e, slack, i, v);
    MaxOfUpdate(c, i, v + slack[i]);
    assert c[i := c[i]] == c;
    MaxOfUpdate(c, i, c[i]);
  }

  /** When only the requester carries slack, the ceiling is the requester's
      own ceiling unless some floor lies beyond it: maxWhenElapsed equals
      max(requester elapsed + window, whenElapsed). */
  lemma MaxWhenIsRequesterCeilingOrWhen(e: seq<nat>, slack: seq<nat>)
    requires |e| == |slack| && HardFloorsOnly(slack)
    ensures MaxWhenOf(e, slack)
            == Max(e[REQUESTER_POLICY_INDEX] + slack[REQUESTER_POLICY_INDEX], MaxOf(e))
  {
    var c := Ceilings(e, slack);
    var r := REQUESTER_POLICY_INDEX;
    var m := Max(e[r] + slack[r], MaxOf(e));
    forall k | 0 <= k < |c| ensures c[k] <= m {
      if k != r { assert c[k] == e[k]; }
    }
    MaxOfLeast(c, m);
    WhenAtMostMaxWhen(e, slack);
    assert c[r] <= MaxOf(c);
  }

  /** A hard-floor slot's ceiling is its own elapsed value: in a two-slot table
      the standby value sets maxWhenElapsed only when it lies beyond the
      requester's elapsed plus window. */
  lemma StandbyDominatesOnlyBeyondRequesterCeiling(requester: nat, standby: nat, w: nat)
    ensures MaxWhenOf([requester, standby], RequesterOnly(w))
            == if standby > requester + w then standby else requester + w
  {
    MaxWhenIsRequesterCeilingOrWhen([requester, standby], RequesterOnly(w));
  }

  /** A freshly constructed alarm has window [r, r + w]. */
  lemma InitialWindow(r: nat, w: nat)
    ensures MaxOf(RequesterOnly(r)) == r
    ensures MaxWhenOf(RequesterOnly(r), RequesterOnly(w)) == r + w
  {
    MaxWhenIsRequesterCeilingOrWhen(RequesterOnly(r), RequesterOnly(w));
  }

  /** A write to a slot that is dominated both before and after, in floor and
      in ceiling, leaves the whole window where it was. */
  lemma DominatedWriteIsSilent(e: seq<nat>, slack: seq<nat>, i: nat, v: nat)
    requires |e| == |slack| && i < |e|
    requires e[i] <= MaxOf(e[i := 0]) && v <= MaxOf(e[i := 0])
    requires e[i] + slack[i] <= MaxOf(Ceilings(e, slack)[i := 0])
    requires v + slack[i] <= MaxOf(Ceilings(e, slack)[i := 0])
    ensures MaxOf(e[i := v]) == MaxOf(e)
    ensures MaxWhenOf(e[i := v], slack) == MaxWhenOf(e, slack)
  {
    MaxOfUpdate(e, i, v);
    FloorSplitsAtSlot(e, i);
    MaxWhenAfterWrite(e, slack, i, v);
  }

  /** A write that changes the value of the slot that alone sets the floor
      always moves whenElapsed. */
  lemma SoleFloorWriteMovesWhen(e: seq<nat>, i: nat, v: nat)
    requires i < |e| && MaxOf(e[i := 0]) < e[i] && v != e[i]
    ensures MaxOf(e[i := v]) != MaxOf(e)
  {
    MaxOfUpdate(e, i, v);
    FloorSplitsAtSlot(e, i);
  }
}
