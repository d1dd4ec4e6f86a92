/**
 The last irreversible block: the greatest number that more than two thirds of the producers imply.
 */
module Irreversibility {
  import opened Basics
  import opened Shuffle
  import opened HeaderState
  import opened HeaderRuns
  import opened Confirmations

  // ---------------------------------------------------------------- the order statistic

  /** The number is one of the entries. */
  lemma LastIrreversibleIsAnEntry(m: map<Name, nat>) returns (p: Name)
    requires m != map[]
    ensures p in m && m[p] == LastIrreversible(m)
  {
    var v := LastIrreversible(m);
    BackersShrink(m, v, v + 1);
    assert Backers(m, v) != Backers(m, v + 1);
    p :| p in Backers(m, v) && p !in Backers(m, v + 1);
  }

  /** Raising an entry never lowers the number. */
  lemma RaisingOneEntry(m: map<Name, nat>, p: Name, v: nat)
    requires p in m && m[p] <= v
    ensures LastIrreversible(m) <= LastIrreversible(m[p := v])
  {
    var m', r := m[p := v], LastIrreversible(m);
    assert m'.Keys == m.Keys;
    assert Backers(m, r) <= Backers(m', r);
    SubsetSize(Backers(m, r), Backers(m', r));
    if LastIrreversible(m') < r {
      BackedDownwards(m', LastIrreversible(m') + 1, r);
    }
  }

  // ---------------------------------------------------------------- where the entries come from

  /** The proposed numbers of the first k + 1 states. */
  function ProposedSoFar(states: seq<State>, k: nat): set<nat>
    requires k < |states|
  {
    set i | 0 <= i <= k :: states[i].proposed
  }

  /** Every implied number, and the last irreversible one, has been the proposed number of some earlier state. */
  ghost predicate FromProposed(states: seq<State>, k: nat, s: State)
    requires k < |states|
  {
    && s.irreversible in ProposedSoFar(states, k)
    && forall p :: p in s.lastImplied ==> s.lastImplied[p] in ProposedSoFar(states, k)
  }

  lemma StepFromProposed(states: seq<State>, k: nat, s: State, h: Header, c: State, t: State)
    requires k < |states| && s == states[k] && FromProposed(states, k, s)
    requires c.active.producers != [] && Advances(s, h, c) && Schedules(c, h, t)
    ensures FromProposed(states, k, t)
    ensures t.irreversible == c.irreversible
    ensures !PromotionDue(c) ==> t.lastImplied == c.lastImplied
  {
    hide Shuffled, Displacement;
    var p := LastIrreversibleIsAnEntry(c.lastImplied);
    assert s.proposed in ProposedSoFar(states, k);
    assert c.lastImplied[p] in ProposedSoFar(states, k);
  }

  lemma {:induction false} RunFromProposed(states: seq<State>, headers: seq<Header>, k: nat)
    requires IsRun(states, headers) && k < |states|
    ensures FromProposed(states, k, states[k])
  {
    hide Next, Counts, Schedules, Advances, FromProposed, Sound, Step;
    if k == 0 {
      var id, slot, system :| states[0] == Genesis(id, slot, system);
      FromProposedFirst(states, id, slot, system);
    } else {
      RunFromProposed(states, headers, k - 1);
      RunSound(states, headers, k - 1);
      assert Step(states[k - 1], headers[k - 1], states[k]);
      var c := StepParts(states[k - 1], headers[k - 1], states[k]);
      StepFromProposed(states, k - 1, states[k - 1], headers[k - 1], c, states[k]);
      FromProposedLater(states, k, states[k]);
    }
  }

  lemma FromProposedFirst(states: seq<State>, id: BlockId, slot: nat, system: ProducerKey)
    requires states != [] && states[0] == Genesis(id, slot, system)
    ensures FromProposed(states, 0, states[0])
  {
    assert states[0].proposed in ProposedSoFar(states, 0);
  }

  lemma FromProposedLater(states: seq<State>, k: nat, s: State)
    requires 0 < k < |states| && FromProposed(states, k - 1, s)
    ensures FromProposed(states, k, s)
  {
    assert ProposedSoFar(states, k - 1) <= ProposedSoFar(states, k);
  }

  // ---------------------------------------------------------------- the theorems

  /**
   Safety of irreversibility: the last irreversible block of every reachable state is at most the
   proposed one and has the claims it needed. Where its quorum fits a counter and no claim is
   repeated, more than two thirds of the producers scheduled when it was made have claimed it.
   */
  lemma IrreversibleHasQuorum(states: seq<State>, headers: seq<Header>, k: nat)
    requires IsRun(states, headers) && k < |states|
    ensures states[k].irreversible <= states[k].proposed <= states[k].blockNum == k + 1
    ensures var b := states[k].irreversible;
      b > 0 ==>
        && 2 <= b && |Claims(headers, k, b)| >= Needed(states, b)
        && (Required(states, b) <= 256 && !Repeats(headers, k, b) ==>
              |Claimers(headers, k, b)| >= Required(states, b))
  {
    assert |headers| + 1 == |states|;
    RunFromProposed(states, headers, k);
    hide IsRun, Required, Needed, Claims, Claimers, Repeats;
    var b := states[k].irreversible;
    var i :| 0 <= i <= k && states[i].proposed == b;
    ProposedIffQuorum(states, headers, i);
    ProposedIffQuorum(states, headers, k);
    ProposedGrows(states, headers, i, k);
    ClaimsMonotone(headers, i, k, b);
    ClaimersDistinctIff(states, headers, k, b);
  }

  /** With headers that fit, every block that is proposed or irreversible has its quorum. */
  lemma FittingRunHasQuorums(states: seq<State>, headers: seq<Header>, k: nat, b: nat)
    requires IsRun(states, headers) && ClaimsFit(headers) && SchedulesFit(headers) && k < |states|
    requires b > 0 && (b == states[k].proposed || b == states[k].irreversible)
    ensures 2 <= b <= k + 1 && |Claimers(headers, k, b)| >= Required(states, b)
  {
    assert |headers| + 1 == |states|;
    hide IsRun, Required, Needed, Claims, Claimers, Repeats, ClaimsFit, SchedulesFit;
    ProposedIffQuorum(states, headers, k);
    IrreversibleHasQuorum(states, headers, k);
    FittingHeaders(states, headers, k, b);
  }

  lemma ClaimsMonotone(headers: seq<Header>, i: nat, k: nat, b: nat)
    requires i <= k <= |headers|
    ensures |Claims(headers, i, b)| <= |Claims(headers, k, b)|
  {
    SubsetSize(Claims(headers, i, b), Claims(headers, k, b));
  }

  /** A number is reached exactly when more than two thirds of the entries reach it. */
  lemma ReachedIff(m: map<Name, nat>, l: nat)
    requires m != map[]
    ensures l <= LastIrreversible(m) <==> Backed(m, l)
  {
    var v := LastIrreversible(m);
    if l <= v { BackedDownwards(m, l, v); }
    if Backed(m, l) && l > v { BackedDownwards(m, v + 1, l); }
  }

  /**
   On any step of any run the last irreversible block does not move back if and only if it is still backed by
   the implied numbers of the producers then scheduled, with the new block's producer at the proposed number.
   */
  lemma IrreversibleStepIff(states: seq<State>, headers: seq<Header>, k: nat)
    requires IsRun(states, headers) && k < |headers|
    ensures states[k].irreversible <= states[k + 1].irreversible <==>
      Backed(states[k].lastImplied[headers[k].producer := states[k].proposed], states[k].irreversible)
  {
    hide Next, Counts, Schedules, Promotes, Backed;
    var c := HalfStep(states, headers, k);
    assert headers[k].producer in c.lastImplied;
    ReachedIff(c.lastImplied, states[k].irreversible);
  }

  /**
   The last irreversible block never moves back on a step out of a state whose own block did not
   promote a schedule. (A promotion replaces the set of producers the number is taken over.)
   */
  lemma IrreversibleGrows(states: seq<State>, headers: seq<Header>, k: nat)
    requires IsRun(states, headers)
    requires 0 < k < |headers| && !Promotes(states[k - 1], headers[k - 1])
    ensures states[k].irreversible <= states[k + 1].irreversible
  {
    hide Next, Counts, Schedules, Promotes;
    var c := HalfStep(states, headers, k - 1);
    var d := HalfStep(states, headers, k);
    RunSound(states, headers, k);
    ImpliedAtMostProposed(states, headers, k);
    RaisingOneEntry(states[k].lastImplied, headers[k].producer, states[k].proposed);
  }

  lemma HalfStep(states: seq<State>, headers: seq<Header>, k: nat) returns (c: State)
    requires IsRun(states, headers) && k < |headers|
    ensures Advances(states[k], headers[k], c)
    ensures PromotionDue(c) <==> Promotes(states[k], headers[k])
    ensures states[k + 1].irreversible == c.irreversible
    ensures !PromotionDue(c) ==> states[k + 1].lastImplied == c.lastImplied
  {
    hide Next, Counts;
    RunSound(states, headers, k);
    RunFromProposed(states, headers, k);
    assert Step(states[k], headers[k], states[k + 1]);
    c := StepParts(states[k], headers[k], states[k + 1]);
    StepFromProposed(states, k, states[k], headers[k], c, states[k + 1]);
  }

  lemma ImpliedAtMostProposed(states: seq<State>, headers: seq<Header>, k: nat)
    requires IsRun(states, headers) && k < |states|
    ensures forall p :: p in states[k].lastImplied ==> states[k].lastImplied[p] <= states[k].proposed
  {
    RunFromProposed(states, headers, k);
    forall p | p in states[k].lastImplied ensures states[k].lastImplied[p] <= states[k].proposed {
      var i :| 0 <= i <= k && states[i].proposed == states[k].lastImplied[p];
      ProposedGrows(states, headers, i, k);
    }
  }
}
