/** The observable behaviour of an alarm, replayed step by step from the
    unit tests of the alarm's delivery window. Each method drives a fresh
    alarm, checks every expected value at the point the test observes it,
    and returns the observations. */
module AlarmScenarios {
  import opened Window
  import opened AlarmArbiter

  /** Construction stores the request in the requester slot only. */
  method InitSetsOnlyRequesterPolicy() returns (requester: nat, standby: nat)
    ensures requester == 4567 && standby == 0
  {
    var a := new Alarm(4567, 2);
    requester := a.GetPolicyElapsed(REQUESTER_POLICY_INDEX);
    standby := a.GetPolicyElapsed(APP_STANDBY_POLICY_INDEX);
  }

  /** whenElapsed follows the largest slot; lowering the dominant slot exposes
      the value stored earlier in the other one. */
  method WhenElapsedScenario() returns (observed: seq<nat>)
    ensures observed == [10, 12, 10, 7, 7]
  {
    var a := new Alarm(0, 0);
    var _ := a.SetPolicyElapsed(REQUESTER_POLICY_INDEX, 4);
    var _ := a.SetPolicyElapsed(APP_STANDBY_POLICY_INDEX, 10);
    var w0 := a.WhenElapsed();
    assert w0 == 10;
    var _ := a.SetPolicyElapsed(REQUESTER_POLICY_INDEX, 12);
    var w1 := a.WhenElapsed();
    assert w1 == 12;
    var _ := a.SetPolicyElapsed(REQUESTER_POLICY_INDEX, 7);
    var w2 := a.WhenElapsed();
    assert w2 == 10;
    var _ := a.SetPolicyElapsed(APP_STANDBY_POLICY_INDEX, 2);
    var w3 := a.WhenElapsed();
    assert w3 == 7;
    var _ := a.SetPolicyElapsed(APP_STANDBY_POLICY_INDEX, 7);
    var w4 := a.WhenElapsed();
    assert w4 == 7;
    observed := [w0, w1, w2, w3, w4];
  }

  /** maxWhenElapsed tracks requester elapsed plus window; the standby slot
      adds no slack and wins only beyond that ceiling. */
  method MaxWhenElapsedScenario() returns (observed: seq<nat>)
    ensures observed == [22, 27, 14, 14, 16, 14]
  {
    var a := new Alarm(10, 12);
    var m0 := a.MaxWhenElapsed();
    assert m0 == 22;
    var _ := a.SetPolicyElapsed(REQUESTER_POLICY_INDEX, 15);
    var m1 := a.MaxWhenElapsed();
    assert m1 == 27;
    var _ := a.SetPolicyElapsed(REQUESTER_POLICY_INDEX, 2);
    var m2 := a.MaxWhenElapsed();
    assert m2 == 14;
    var _ := a.SetPolicyElapsed(APP_STANDBY_POLICY_INDEX, 5);
    var m3 := a.MaxWhenElapsed();
    assert m3 == 14;
    var _ := a.SetPolicyElapsed(APP_STANDBY_POLICY_INDEX, 16);
    var m4 := a.MaxWhenElapsed();
    assert m4 == 16;
    var _ := a.SetPolicyElapsed(APP_STANDBY_POLICY_INDEX, 12);
    var m5 := a.MaxWhenElapsed();
    assert m5 == 14;
    observed := [m0, m1, m2, m3, m4, m5];
  }

  /** Change reporting on an exact alarm (window 0): silent writes are still
      stored, so the last requester write exposes the standby value 8.
      `storedStandby` is the standby slot after its unreported write of 8,
      `finalWhen` is whenElapsed after the last write. */
  method ExactAlarmChanges() returns (reported: seq<bool>, storedStandby: nat, finalWhen: nat)
    ensures reported == [true, true, false, false, false, true]
    ensures storedStandby == 8 && finalWhen == 8
  {
    var a := new Alarm(10, 0);
    var c0 := a.SetPolicyElapsed(REQUESTER_POLICY_INDEX, 4);
    assert c0;
    var c1 := a.SetPolicyElapsed(APP_STANDBY_POLICY_INDEX, 10);
    assert c1;
    var c2 := a.SetPolicyElapsed(REQUESTER_POLICY_INDEX, 8);
    assert !c2;
    var c3 := a.SetPolicyElapsed(REQUESTER_POLICY_INDEX, 10);
    assert !c3;
    var c4 := a.SetPolicyElapsed(APP_STANDBY_POLICY_INDEX, 8);
    assert !c4;
    storedStandby := a.GetPolicyElapsed(APP_STANDBY_POLICY_INDEX);
    assert storedStandby == 8;
    var c5 := a.SetPolicyElapsed(REQUESTER_POLICY_INDEX, 7);
    assert c5;
    finalWhen := a.WhenElapsed();
    assert finalWhen == 8;
    reported := [c0, c1, c2, c3, c4, c5];
  }

  /** Change reporting on an inexact alarm (window 5): a requester write that
      leaves whenElapsed alone still moves maxWhenElapsed and is reported.
      `whenAround` and `maxWhenAround` are both bounds just before and just
      after the requester write of 8. */
  method InexactAlarmChanges() returns (reported: seq<bool>, whenAround: (nat, nat), maxWhenAround: (nat, nat))
    ensures reported == [true, true, true, true, false]
    ensures whenAround == (10, 10) && maxWhenAround == (10, 13)
  {
    var a := new Alarm(10, 5);
    var c0 := a.SetPolicyElapsed(REQUESTER_POLICY_INDEX, 4);
    assert c0;
    var c1 := a.SetPolicyElapsed(APP_STANDBY_POLICY_INDEX, 10);
    assert c1;
    var whenBefore, maxWhenBefore := a.WhenElapsed(), a.MaxWhenElapsed();
    assert whenBefore == 10 && maxWhenBefore == 10;
    var c2 := a.SetPolicyElapsed(REQUESTER_POLICY_INDEX, 8);
    assert c2;
    var whenAfter, maxWhenAfter := a.WhenElapsed(), a.MaxWhenElapsed();
    assert whenAfter == 10 && maxWhenAfter == 13;
    var c3 := a.SetPolicyElapsed(REQUESTER_POLICY_INDEX, 10);
    assert c3;
    var c4 := a.SetPolicyElapsed(APP_STANDBY_POLICY_INDEX, 8);
    assert !c4;
    reported := [c0, c1, c2, c3, c4];
    whenAround, maxWhenAround := (whenBefore, whenAfter), (maxWhenBefore, maxWhenAfter);
  }
}
