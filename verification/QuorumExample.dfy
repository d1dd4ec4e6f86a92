/**
 Runs in which one producer is taken for a quorum: schedules too large for the 8-bit counters, which
 next accepts from any header, since their size is checked only where a contract proposes them; and
 claims that are repeated because the check of what a producer has claimed before wraps around.
 */
module QuorumExample {
  import opened Wrappers
  import opened HeaderState
  import opened HeaderRuns
  import opened HeaderViews
  import opened Confirmations
  import opened IrreversibleExample

  function Many(n: nat): Schedule {
    Schedule(1, seq(n, i requires 0 <= i => ProducerKey(i + 1, 0)))
  }

  /**
   Four blocks after genesis, with claims that fit, a block is proposed irreversible by the claim of
   one producer out of 384, where 257 make a quorum: the counter starts at one.
   */
  lemma OneClaimIsTakenForAQuorum() returns (states: seq<State>, headers: seq<Header>)
    ensures IsRun(states, headers) && ClaimsFit(headers) && |headers| == 4
    ensures states[4].proposed == 5 && Required(states, 5) == 257 && Claimers(headers, 4, 5) == {1}
  {
    hide IsRun, Leads, Looks, V0, V1, V2, V3, Quorum;
    var many, last := Many(384), Move(1, 0, None);
    Start(many);
    var x := V3(many);
    var y := OneClaim(many);
    states, headers := RunAlong([V0(), V1(), V2(many), x, y], [last, Move(1, 0, Some(many)), last, last]);
    LooksSo(states[3], x);
    LooksSo(states[4], y);
    LargeQuorums();
    assert forall i :: 0 <= i < |headers| ==> Says(headers[i], [last, Move(1, 0, Some(many)), last, last][i]);
    assert ClaimsBlock(headers, 3, 5);
  }

  lemma LargeQuorums()
    ensures Quorum(383) == 256 && Quorum(384) == 257
  {
  }

  lemma LooksSo(s: State, x: View)
    requires Looks(s, x)
    ensures s.proposed == x.proposed && |s.active.producers| == x.n
  {
  }

  /** The fourth block, by producer 1, when 384 are scheduled. */
  lemma OneClaim(many: Schedule) returns (y: View)
    requires many == Many(384)
    ensures Leads(V3(many), Move(1, 0, None), y) && y.proposed == 5 && V3(many).n == 384
  {
    assert many.producers[0].name == 1;
    y := Then(V3(many), 1, 0, None);
    CountOne(5, 4);
    hide Confirm;
  }

  /** With 383 producers the counter of the fourth block starts at zero, and its first count-down underflows. */
  lemma CounterUnderflows() returns (states: seq<State>, headers: seq<Header>)
    ensures IsRun(states, headers) && |headers| == 3 && Bytes(states[3].confirmCount)
    ensures 0 in Grown(states[3].confirmCount, Quorum(|states[3].active.producers|))
  {
    hide IsRun, Leads, Looks, V0, V1, V2, Quorum;
    var many, last := Many(383), Move(1, 0, None);
    Start(many);
    states, headers := RunAlong([V0(), V1(), V2(many), V3(many)], [last, Move(1, 0, Some(many)), last]);
    LooksSo(states[3], V3(many));
    LargeQuorums();
    UnderflowIff(states, headers, 3);
  }

  // ---------------------------------------------------------------- repeated claims

  /** A step while no schedule is pending. */
  lemma Counting(x: View, p: Name, confirmed: nat, grown: seq<nat>, c: Confirmation) returns (y: View)
    requires Able(x, p, confirmed, None) && x.pending.producers == []
    requires grown == Grown(x.counts, Quorum(x.n)) && 0 < |grown| <= x.blockNum + 1
    requires c == Confirm(grown, |grown| - 1, confirmed + 1, x.blockNum + 1, x.proposed)
    ensures Leads(x, Move(p, confirmed, None), y)
    ensures y.blockNum == x.blockNum + 1 && y.counts == c.counts && y.proposed == c.proposed
    ensures y.names == x.names && y.n == x.n && y.version == x.version && y.pending == x.pending
    ensures y.produced == x.produced[p := x.blockNum + 1]
  {
    hide Confirm, Grown, LastIrreversible, Quorum;
    y := Then(x, p, confirmed, None);
  }

  /** Three blocks of producer 1 out of four, the last two claiming more blocks than exist. */
  lemma ThreeTimes() returns (a: View, b: View, c: View)
    ensures Leads(V3(FOUR), Move(1, 0, None), a) && Leads(a, Move(1, 7, None), b) && Leads(b, Move(1, 8, None), c)
    ensures c.proposed == 5 && V3(FOUR).n == 4
  {
    FourTakeOver();
    Growing();
    CountFirst(5, 4);
    ThreeDown();
    hide Confirm, Grown, LastIrreversible, Quorum, V3, Then;
    a := Counting(V3(FOUR), 1, 0, [3], Confirmation([2], 4));
    b := Counting(a, 1, 7, [2, 3], Confirmation([1, 2], 4));
    c := Counting(b, 1, 8, [1, 2, 3], Confirmation([1, 2], 5));
  }

  lemma ThreeDown()
    ensures Confirm([2, 3], 1, 8, 6, 4) == Confirmation([1, 2], 4)
    ensures Confirm([1, 2, 3], 2, 9, 7, 4) == Confirmation([1, 2], 5)
  {
    assert [2, 3][1 := 2] == [2, 2] && [2, 2][0 := 1] == [1, 2];
    assert Confirm([2, 2], 0, 7, 6, 4) == Confirmation([1, 2], 4);
    assert [1, 2, 3][2 := 2] == [1, 2, 2] && [1, 2, 2][1 := 1] == [1, 1, 2] && [1, 1, 2][1..] == [1, 2];
    assert Confirm([1, 1, 2], 0, 7, 7, 4) == Confirmation([1, 2], 5);
    assert Confirm([1, 2, 2], 1, 8, 7, 4) == Confirmation([1, 2], 5);
  }

  /** One of four producers confirms block 5 three times, and so it is proposed, although three make a quorum. */
  lemma RepeatedClaimsAreTakenForAQuorum() returns (states: seq<State>, headers: seq<Header>)
    ensures IsRun(states, headers) && SchedulesFit(headers) && |headers| == 6
    ensures states[6].proposed == 5 && Required(states, 5) == 3 && Claimers(headers, 6, 5) == {1}
  {
    hide IsRun, Leads, Looks, V0, V1, V2, V3;
    Start(FOUR);
    var a, b, c := ThreeTimes();
    var first := Move(1, 0, None);
    var moves := [first, Move(1, 0, Some(FOUR)), first, first, Move(1, 7, None), Move(1, 8, None)];
    var views := [V0(), V1(), V2(FOUR), V3(FOUR), a, b, c];
    states, headers := RunAlong(views, moves);
    LooksSo(states[3], views[3]);
    LooksSo(states[6], views[6]);
    assert forall i :: 0 <= i < |headers| ==> Says(headers[i], moves[i]);
    assert ClaimsBlock(headers, 3, 5);
  }
}
