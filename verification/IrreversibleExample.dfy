/**
 A run in which the last irreversible block moves back: a schedule of two producers takes over, one of them with a low
 implied number from the schedule before.
 */
module IrreversibleExample {
  import opened Wrappers
  import opened HeaderState
  import opened HeaderRuns
  import opened HeaderViews

  lemma LibOfFour(v: nat, a: nat, b: nat, c: nat, d: nat)
    requires a >= v && b >= v && c >= v && d <= v && (a == v || b == v || c == v)
    ensures LastIrreversible(map[1 := a, 2 := b, 3 := c, 4 := d]) == v
  {
    var m: map<Name, nat> := map[1 := a, 2 := b, 3 := c, 4 := d];
    var all: set<Name> := {1, 2, 3, 4};
    assert m.Keys == all && |m| == 4;
    var reach, more: set<Name> := {1, 2, 3}, if a == v then {2, 3} else if b == v then {1, 3} else {1, 2};
    assert |reach| == 3 && |more| == 2;
    LibIs(m, v, reach, more);
  }

  lemma LibOfTwo(v: nat, b: nat)
    requires b >= v
    ensures LastIrreversible(map[4 := v, 5 := b]) == v
  {
    var m: map<Name, nat> := map[4 := v, 5 := b];
    var reach, more: set<Name> := {4, 5}, {5};
    assert m.Keys == reach && |m| == 2 && |more| == 1;
    LibIs(m, v, reach, more);
  }

  // ----- The run -----

  const FOUR := Schedule(1, [ProducerKey(1, 0), ProducerKey(2, 0), ProducerKey(3, 0), ProducerKey(4, 0)])
  const TWO := Schedule(2, [ProducerKey(4, 0), ProducerKey(5, 0)])

  function V4(): View {
    View(4, 5, 4, 3, [2], {1, 2, 3, 4}, 4, 1, TWO, 5,
         map[1 := 5, 2 := 3, 3 := 3, 4 := 3], map[1 := 4, 2 := 3, 3 := 3, 4 := 3])
  }

  function V5(): View {
    View(5, 6, 4, 3, [1, 2], {1, 2, 3, 4}, 4, 1, TWO, 5,
         map[1 := 5, 2 := 6, 3 := 3, 4 := 3], map[1 := 4, 2 := 4, 3 := 3, 4 := 3])
  }

  function V6(): View {
    View(6, 7, 5, 4, [1, 2], {1, 2, 3, 4}, 4, 1, TWO, 5,
         map[1 := 5, 2 := 6, 3 := 7, 4 := 3], map[1 := 4, 2 := 4, 3 := 4, 4 := 3])
  }

  function V7(): View {
    View(7, 8, 6, 4, [1, 2], {1, 2, 3, 4}, 4, 1, TWO, 5,
         map[1 := 8, 2 := 6, 3 := 7, 4 := 3], map[1 := 5, 2 := 4, 3 := 4, 4 := 3])
  }

  function V8(): View {
    View(8, 9, 7, 4, [1, 2], {1, 2, 3, 4}, 4, 1, TWO, 5,
         map[1 := 8, 2 := 9, 3 := 7, 4 := 3], map[1 := 5, 2 := 6, 3 := 4, 4 := 3])
  }

  function V9(): View {
    View(9, 10, 8, 5, [1, 2], {4, 5}, 2, 2, Schedule(2, []), 5,
         map[4 := 3, 5 := 5, 3 := 10], map[4 := 3, 5 := 5])
  }

  ghost function V10(): View
    requires Able(V9(), 5, 0, None)
  {
    Then(V9(), 5, 0, None)
  }

  lemma NamesAre()
    ensures Names(FOUR.producers) == {1, 2, 3, 4} && Names(TWO.producers) == {4, 5}
  {
    assert FOUR.producers[0].name == 1 && FOUR.producers[1].name == 2;
    assert FOUR.producers[2].name == 3 && FOUR.producers[3].name == 4;
    assert TWO.producers[0].name == 4 && TWO.producers[1].name == 5;
  }

  lemma CountFirst(num: nat, proposed: nat)
    requires num >= 1
    ensures Confirm([3], 0, 1, num, proposed) == Confirmation([2], proposed)
  {
    assert [3][0 := 2] == [2];
  }

  lemma CountTwo(num: nat, proposed: nat)
    requires num >= 2
    ensures Confirm([2, 3], 1, 2, num, proposed) == Confirmation([1, 2], proposed)
  {
    assert [2, 3][1 := 2] == [2, 2] && [2, 2][0 := 1] == [1, 2];
    assert Confirm([2, 2], 0, 1, num, proposed) == Confirmation([1, 2], proposed);
  }

  lemma CountThree(num: nat, proposed: nat)
    requires num >= 3
    ensures Confirm([1, 2, 3], 2, 3, num, proposed) == Confirmation([1, 2], num - 2)
  {
    assert [1, 2, 3][2 := 2] == [1, 2, 2] && [1, 2, 2][1 := 1] == [1, 1, 2] && [1, 1, 2][1..] == [1, 2];
    assert Confirm([1, 1, 2], 0, 1, num, proposed) == Confirmation([1, 2], num - 2);
    assert Confirm([1, 2, 2], 1, 2, num, proposed) == Confirmation([1, 2], num - 2);
  }

  lemma Growing()
    ensures Grown([], Quorum(4)) == [3] && Grown([2], Quorum(4)) == [2, 3] && Grown([1, 2], Quorum(4)) == [1, 2, 3]
  {
  }

  lemma FourTakeOver()
    ensures V3(FOUR) == View(3, 4, 4, 3, [], {1, 2, 3, 4}, 4, 1, Schedule(1, []), 3,
                             map[1 := 4, 2 := 3, 3 := 3, 4 := 3], map[1 := 3, 2 := 3, 3 := 3, 4 := 3])
  {
    NamesAre();
    hide Names;
  }

  lemma Step3()
    ensures Leads(V3(FOUR), Move(1, 0, Some(TWO)), V4())
  {
    FourTakeOver();
    Growing();
    CountFirst(5, 4);
    LibOfFour(3, 4, 3, 3, 3);
    hide Confirm, Grown, LastIrreversible, Names, Carried;
    StepsSo(V3(FOUR), 1, 0, Some(TWO), [3], Confirmation([2], 4), map[1 := 4, 2 := 3, 3 := 3, 4 := 3], 3, V4());
  }

  lemma Step4()
    ensures Leads(V4(), Move(2, 1, None), V5())
  {
    Growing();
    CountTwo(6, 4);
    LibOfFour(3, 4, 4, 3, 3);
    hide Confirm, Grown, LastIrreversible, Names;
    StepsSo(V4(), 2, 1, None, [2, 3], Confirmation([1, 2], 4), map[1 := 4, 2 := 4, 3 := 3, 4 := 3], 3, V5());
  }

  lemma Step5()
    ensures Leads(V5(), Move(3, 2, None), V6())
  {
    Growing();
    CountThree(7, 4);
    LibOfFour(4, 4, 4, 4, 3);
    hide Confirm, Grown, LastIrreversible, Names;
    StepsSo(V5(), 3, 2, None, [1, 2, 3], Confirmation([1, 2], 5), map[1 := 4, 2 := 4, 3 := 4, 4 := 3], 4, V6());
  }

  lemma Step6()
    ensures Leads(V6(), Move(1, 2, None), V7())
  {
    Growing();
    CountThree(8, 5);
    LibOfFour(4, 5, 4, 4, 3);
    hide Confirm, Grown, LastIrreversible, Names;
    StepsSo(V6(), 1, 2, None, [1, 2, 3], Confirmation([1, 2], 6), map[1 := 5, 2 := 4, 3 := 4, 4 := 3], 4, V7());
  }

  lemma Step7()
    ensures Leads(V7(), Move(2, 2, None), V8())
  {
    Growing();
    CountThree(9, 6);
    LibOfFour(4, 5, 6, 4, 3);
    hide Confirm, Grown, LastIrreversible, Names;
    StepsSo(V7(), 2, 2, None, [1, 2, 3], Confirmation([1, 2], 7), map[1 := 5, 2 := 6, 3 := 4, 4 := 3], 4, V8());
  }

  lemma CarriedTwo(m: map<Name, nat>, lib: nat)
    requires 4 in m && 5 !in m
    ensures Carried(m, TWO.producers, lib) == map[4 := m[4], 5 := lib]
  {
    NamesAre();
    hide Names;
  }

  /**
   The schedule of two takes over: the fourth producer's number is carried over, the fifth starts at the
   irreversible one.
   */
  lemma Step8()
    ensures Leads(V8(), Move(3, 2, None), V9())
  {
    NamesAre();
    Growing();
    CountThree(10, 7);
    LibOfFour(5, 5, 6, 7, 3);
    CarriedTwo(map[1 := 8, 2 := 9, 3 := 10, 4 := 3], 5);
    CarriedTwo(map[1 := 5, 2 := 6, 3 := 7, 4 := 3], 5);
    hide Confirm, Grown, LastIrreversible, Names, Carried;
    assert V8().produced[3 := 10] == map[1 := 8, 2 := 9, 3 := 10, 4 := 3];
    StepsSo(V8(), 3, 2, None, [1, 2, 3], Confirmation([1, 2], 8), map[1 := 5, 2 := 6, 3 := 7, 4 := 3], 5, V9());
  }

  lemma Step9()
    ensures Able(V9(), 5, 0, None) && Leads(V9(), Move(5, 0, None), V10()) && V9().lib == 5 && V10().lib == 3
  {
    LibOfTwo(3, 8);
    hide Confirm, Grown, LastIrreversible;
    assert V9().implied[5 := 8] == map[4 := 3, 5 := 8];
  }

  /**
   Ten blocks after genesis, with claims and schedules that fit, the last irreversible block moves
   from 5 back to 3.
   */
  lemma IrreversibleMovesBack() returns (states: seq<State>, headers: seq<Header>)
    ensures IsRun(states, headers) && ClaimsFit(headers) && SchedulesFit(headers) && |headers| == 10
    ensures states[9].irreversible == 5 && states[10].irreversible == 3
  {
    hide IsRun, Leads, Looks, Able, V0, V1, V2, V3, V4, V5, V6, V7, V8, V9, V10;
    Start(FOUR);
    Step3(); Step4(); Step5(); Step6(); Step7(); Step8(); Step9();
    var views := [V0(), V1(), V2(FOUR), V3(FOUR), V4(), V5(), V6(), V7(), V8(), V9(), V10()];
    var moves := [
      Move(1, 0, None), Move(1, 0, Some(FOUR)), Move(1, 0, None), Move(1, 0, Some(TWO)), Move(2, 1, None),
      Move(3, 2, None), Move(1, 2, None), Move(2, 2, None), Move(3, 2, None), Move(5, 0, None)];
    states, headers := RunAlong(views, moves);
    LooksLib(states[9], views[9]);
    LooksLib(states[10], views[10]);
    assert forall i :: 0 <= i < |headers| ==> Says(headers[i], moves[i]);
  }

  lemma LooksLib(s: State, x: View)
    requires Looks(s, x)
    ensures s.irreversible == x.lib
  {
  }
}
