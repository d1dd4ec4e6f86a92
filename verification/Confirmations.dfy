/**
 Who confirmed what. A header made by producer p for block m with `confirmed == c` claims the blocks
 m - c .. m. The claims are read off the headers alone; the theorems say that the state machine
 counts exactly them, on every run. A block is proposed irreversible exactly when it has as many
 claims as its 8-bit counter asks for; these make a quorum of distinct producers exactly when the
 quorum is at most 256 and no producer has repeated its claim by claiming more blocks than exist.
 */
module Confirmations {
  import opened Wrappers
  import opened Basics
  import opened Shuffle
  import opened HeaderState
  import opened HeaderRuns

  predicate ClaimsBlock(headers: seq<Header>, i: nat, b: nat)
    requires i < |headers|
  {
    Num(i) - headers[i].confirmed <= b <= Num(i)
  }

  /** The producers that claimed block b in the first k headers. */
  function Claimers(headers: seq<Header>, k: nat, b: nat): set<Name>
    requires k <= |headers|
  {
    set i | 0 <= i < k && ClaimsBlock(headers, i, b) :: headers[i].producer
  }

  /** The headers among the first k that claim block b. */
  function Claims(headers: seq<Header>, k: nat, b: nat): set<nat>
    requires k <= |headers|
  {
    set i | 0 <= i < k && ClaimsBlock(headers, i, b)
  }

  // ---------------------------------------------------------------- no producer claims a block twice

  /**
   A producer the state knows is remembered at or after its last block. One it has forgotten, by
   leaving the schedule, last produced before the schedule now pending was proposed; so if that
   schedule brings it back, the entry it restarts with is not too low.
   */
  ghost predicate Remembers(headers: seq<Header>, k: nat, s: State)
    requires k <= |headers|
  {
    forall i :: 0 <= i < k ==>
      var p := headers[i].producer;
      if p in s.lastProduced then Num(i) <= s.lastProduced[p]
      else s.pending.producers != [] ==> Num(i) < s.pendingLib
  }

  lemma PromotionRemembers(headers: seq<Header>, k: nat, c: State)
    requires k < |headers| && PromotionDue(c)
    requires Remembers(headers, k, c) && c.producer == headers[k].producer && c.blockNum == Num(k)
    ensures Remembers(headers, k + 1, Promoted(c))
  {
    var t := Promoted(c);
    forall i | 0 <= i < k + 1 && headers[i].producer in t.lastProduced
      ensures Num(i) <= t.lastProduced[headers[i].producer]
    {
      var p := headers[i].producer;
      if p != c.producer && p !in c.lastProduced {
        assert Num(i) < c.pendingLib <= c.irreversible == t.lastProduced[p];
      }
    }
  }

  lemma StepRemembers(headers: seq<Header>, k: nat, s: State, t: State)
    requires k < |headers| && Sound(s) && s.blockNum == k + 1
    requires Step(s, headers[k], t)
    requires Remembers(headers, k, s)
    ensures Remembers(headers, k + 1, t)
  {
    hide Next, Counts, LastIrreversible, Shuffled;
    var c := StepParts(s, headers[k], t);
    if PromotionDue(c) {
      PromotionRemembers(headers, k, c);
    } else {
      ReshuffleKeeps(c);
    }
  }

  lemma {:induction false} RunRemembers(states: seq<State>, headers: seq<Header>, k: nat)
    requires IsRun(states, headers) && k < |states|
    ensures Remembers(headers, k, states[k])
  {
    hide Next;
    if k > 0 {
      var s, t := states[k - 1], states[k];
      RunRemembers(states, headers, k - 1);
      RunSound(states, headers, k - 1);
      assert Step(s, headers[k - 1], t);
      StepRemembers(headers, k - 1, s, t);
    }
  }

  /**
   Two blocks of the same producer claim a block in common exactly when the later header claims more
   blocks than there are, so that the 32-bit subtraction in the double-confirm check wraps around.
   */
  lemma ClaimsOverlapIffWrapped(states: seq<State>, headers: seq<Header>, i: nat, j: nat)
    requires IsRun(states, headers) && i < j < |headers|
    requires headers[i].producer == headers[j].producer
    ensures (Num(j) - headers[j].confirmed <= Num(i)) <==> headers[j].confirmed > Num(j)
  {
    RunRemembers(states, headers, j);
    RunSound(states, headers, j);
    var s, h := states[j], headers[j];
    assert Step(s, h, states[j + 1]);
    var c := StepParts(s, h, states[j + 1]);
    assert ScheduledProducer(s, h.slot) in s.active.producers;
    assert h.producer in s.lastProduced;
    assert Num(i) <= s.lastProduced[h.producer];
  }

  /** With claims that fit the chain, no producer claims a block twice, whatever schedules come and go. */
  lemma NoDoubleConfirm(states: seq<State>, headers: seq<Header>, i: nat, j: nat, b: nat)
    requires IsRun(states, headers) && ClaimsFit(headers)
    requires i < j < |headers|
    requires ClaimsBlock(headers, i, b) && ClaimsBlock(headers, j, b)
    ensures headers[i].producer != headers[j].producer
  {
    if headers[i].producer == headers[j].producer {
      ClaimsOverlapIffWrapped(states, headers, i, j);
    }
  }

  lemma ClaimsGrow(headers: seq<Header>, k: nat, b: nat)
    requires k < |headers|
    ensures |Claims(headers, k + 1, b)| == |Claims(headers, k, b)| + if ClaimsBlock(headers, k, b) then 1 else 0
  {
    var before, after := Claims(headers, k, b), Claims(headers, k + 1, b);
    assert after == if ClaimsBlock(headers, k, b) then before + {k} else before;
  }

  /** A producer that has claimed block b later claims more blocks than exist. */
  predicate Repeats(headers: seq<Header>, k: nat, b: nat)
    requires k <= |headers|
  {
    exists i, j :: 0 <= i < j < k && headers[i].producer == headers[j].producer &&
      ClaimsBlock(headers, i, b) && headers[j].confirmed > Num(j)
  }

  /** A header that claims block b does so for the second time exactly when its producer is among the claimers. */
  lemma RepeatsIff(states: seq<State>, headers: seq<Header>, k: nat, b: nat)
    requires IsRun(states, headers) && k < |headers|
    ensures Repeats(headers, k + 1, b) <==>
      Repeats(headers, k, b) || (ClaimsBlock(headers, k, b) && headers[k].producer in Claimers(headers, k, b))
  {
    hide IsRun;
    if ClaimsBlock(headers, k, b) && headers[k].producer in Claimers(headers, k, b) {
      var i :| 0 <= i < k && ClaimsBlock(headers, i, b) && headers[i].producer == headers[k].producer;
      ClaimsOverlapIffWrapped(states, headers, i, k);
    }
  }

  /** Block b has as many claimers as claims unless a claim is repeated. */
  lemma {:induction false} ClaimersDistinctIff(states: seq<State>, headers: seq<Header>, k: nat, b: nat)
    requires IsRun(states, headers) && k <= |headers|
    ensures |Claimers(headers, k, b)| <= |Claims(headers, k, b)|
    ensures |Claimers(headers, k, b)| == |Claims(headers, k, b)| <==> !Repeats(headers, k, b)
  {
    hide IsRun, Repeats;
    if k == 0 {
      assert !Repeats(headers, 0, b) by { NothingRepeatedYet(headers, b); }
    } else {
      ClaimersDistinctIff(states, headers, k - 1, b);
      RepeatsIff(states, headers, k - 1, b);
      ClaimsGrow(headers, k - 1, b);
      var claimed := ClaimsBlock(headers, k - 1, b);
      var before := Claimers(headers, k - 1, b);
      assert Claimers(headers, k, b) == if claimed then before + {headers[k - 1].producer} else before;
    }
  }

  lemma NothingRepeatedYet(headers: seq<Header>, b: nat)
    ensures !Repeats(headers, 0, b)
  {
  }

  /** With claims that fit the chain no claim is repeated. */
  lemma FittingClaimsDiffer(headers: seq<Header>, k: nat, b: nat)
    requires k <= |headers| && ClaimsFit(headers)
    ensures !Repeats(headers, k, b)
  {
  }

  /** The wrap-around is reachable: two headers of the only producer, the second claiming five blocks at block 3. */
  lemma WrappedClaimIsAccepted() returns (states: seq<State>, headers: seq<Header>)
    ensures IsRun(states, headers) && |headers| == 2
    ensures headers[0].producer == headers[1].producer
    ensures ClaimsBlock(headers, 0, 2) && ClaimsBlock(headers, 1, 2)
  {
    hide Next;
    var genesis, h0, s1 := FirstBlock();
    var h1 := Header(2, 12, 7, 5, 1, 0, None, 0, 70);
    SecondBlock(s1, h1);
    var s2 := Next(s1, h1, true).value;
    assert Step(s1, h1, s2);
    states, headers := [genesis, s1, s2], [h0, h1];
  }

  lemma SecondBlock(s: State, h: Header)
    requires s.id == 1 && s.blockNum == 2 && s.slot == 11 && s.shuffleSlot == 11
    requires s.active == Schedule(0, [ProducerKey(7, 70)]) && s.pending.producers == []
    requires s.lastProduced == map[7 := 2] && s.confirmCount == []
    requires h == Header(2, 12, 7, 5, 1, 0, None, 0, 70)
    ensures Usable(s) && Next(s, h, true).Ok?
  {
    hide Shuffled, LastIrreversible;
    var g := GenerateNext(s, 12).value;
    assert g.producer == 7 && g.confirmCount == [1] && g.pending.producers == [];
    assert !DoubleConfirms(s, h);
    assert UpdateActiveSchedule(SetConfirmed(g, 5)).Ok? by {
      hide Confirm;
    }
    assert Finish(g, h).Ok?;
  }

  lemma FirstBlock() returns (genesis: State, h: Header, s: State)
    ensures genesis == Genesis(0, 10, ProducerKey(7, 70)) && Step(genesis, h, s)
    ensures h == Header(1, 11, 7, 0, 0, 0, None, 0, 70)
    ensures s.id == 1 && s.blockNum == 2 && s.slot == 11 && s.shuffleSlot == 11
    ensures s.active == Schedule(0, [ProducerKey(7, 70)]) && s.pending.producers == []
    ensures s.lastProduced == map[7 := 2] && s.confirmCount == []
    ensures Usable(s)
  {
    genesis := Genesis(0, 10, ProducerKey(7, 70));
    h := Header(1, 11, 7, 0, 0, 0, None, 0, 70);
    LastIrreversibleOfOne(7, 0);
    assert Confirm([1], 0, 1, 2, 0) == Confirmation([], 2);
    assert Grown([], Quorum(1)) == [1];
    hide ShuffledFrom, XorShift, LastIrreversible, Confirm, Grown, Reshuffled;
    s := Next(genesis, h, true).value;
    assert ScheduledProducer(genesis, 11) == ProducerKey(7, 70);
    assert Counted(genesis, h).lastProduced == map[7 := 2];
  }

  lemma LastIrreversibleOfOne(p: Name, v: nat)
    ensures LastIrreversible(map[p := v]) == v
  {
    var m := map[p := v];
    assert m.Keys == {p};
    assert Backers(m, v) == {p};
    assert Backers(m, v + 1) == {};
    LastIrreversibleUnique(m, v);
  }

  // ---------------------------------------------------------------- the counters count claims

  /** A quorum of the schedule that was active when block b was made. */
  function Required(states: seq<State>, b: nat): nat
    requires 2 <= b < |states| + 2
  {
    Quorum(|states[b - 2].active.producers|)
  }

  /** The claims an 8-bit counter asks for when it starts at the low byte of a quorum. */
  function Threshold(quorum: nat): (r: nat)
    requires quorum > 0
    ensures 0 < r <= 256 && r <= quorum
    ensures r == quorum <==> quorum <= 256
  {
    (quorum - 1) % 256 + 1
  }

  /** The claims with which block b is proposed. */
  function Needed(states: seq<State>, b: nat): (r: nat)
    requires 2 <= b < |states| + 2
    ensures 0 < r <= 256 && r <= Required(states, b)
    ensures r == Required(states, b) <==> Required(states, b) <= 256
  {
    Threshold(Required(states, b))
  }

  predicate Tracked(s: State, b: int)
  {
    s.blockNum - |s.confirmCount| < b <= s.blockNum
  }

  /** The counter kept for block b. */
  function Counter(s: State, b: int): nat
    requires Tracked(s, b)
  {
    s.confirmCount[b - (s.blockNum - |s.confirmCount| + 1)]
  }

  /** How often an 8-bit counter can be counted down until it is zero: one that is zero wraps around first. */
  function Left(c: nat): nat
  {
    if c == 0 then 256 else c
  }

  lemma LeftOfQuorum(quorum: nat)
    requires quorum > 0
    ensures Left(quorum % 256) == Threshold(quorum)
  {
  }

  function Min(a: nat, b: nat): nat { if a < b then a else b }

  /** The blocks after the proposed one and after genesis are tracked, but at most MAX_TRACKED of them. */
  predicate WindowOk(s: State)
  {
    && s.proposed <= s.blockNum
    && 1 <= s.blockNum
    && |s.confirmCount| == Min(MAX_TRACKED, s.blockNum - Max(s.proposed, 1))
  }

  ghost predicate CountersOk(states: seq<State>, headers: seq<Header>, k: nat, s: State)
    requires k <= |headers| && k <= |states| && s.blockNum == k + 1
  {
    && WindowOk(s)
    && (forall b :: Tracked(s, b) ==> 0 < Counter(s, b) == Needed(states, b) - |Claims(headers, k, b)|)
    && (s.proposed > 0 ==> 2 <= s.proposed && |Claims(headers, k, s.proposed)| >= Needed(states, s.proposed))
  }

  /** Counting down stops at the first counter with one left, whatever the bytes were. */
  lemma {:induction false} ConfirmShape(counts: seq<nat>, i: int, k: nat, num: nat, proposed: nat) returns (z: int)
    requires -1 <= i < |counts| <= num
    requires Bytes(counts)
    ensures -1 <= z <= i
    ensures var r := Confirm(counts, i, k, num, proposed);
      if z == -1 then
        && r.proposed == proposed && |r.counts| == |counts|
        && forall j :: 0 <= j < |counts| ==>
          Left(r.counts[j]) == Left(counts[j]) - if i - k < j <= i then 1 else 0
      else
        && i - k < z && counts[z] == 1
        && r.proposed == num - (|counts| - 1 - z) && |r.counts| == |counts| - 1 - z
        && forall j :: 0 <= j < |r.counts| ==>
          Left(r.counts[j]) == Left(counts[z + 1 + j]) - if z + 1 + j <= i then 1 else 0
    decreases k
  {
    if i < 0 || k == 0 {
      z := -1;
    } else if counts[i] == 1 {
      z := i;
    } else {
      z := ConfirmShape(counts[i := Dec8(counts[i])], i - 1, k - 1, num, proposed);
    }
  }

  /** The template of the new block, as far as counters go. */
  function GrownState(s: State): State
    requires Bytes(s.confirmCount)
  {
    s.(blockNum := s.blockNum + 1, confirmCount := Grown(s.confirmCount, Quorum(|s.active.producers|)))
  }

  lemma GrownTracks(s: State, b: int)
    requires WindowOk(s) && Bytes(s.confirmCount)
    ensures var g := GrownState(s);
      && |g.confirmCount| == Min(MAX_TRACKED, g.blockNum - Max(g.proposed, 1))
      && Tracked(g, g.blockNum) && Left(Counter(g, g.blockNum)) == Threshold(Quorum(|s.active.producers|))
      && (Tracked(g, b) && b != g.blockNum ==> Tracked(s, b) && Counter(g, b) == Counter(s, b))
  {
    LeftOfQuorum(Quorum(|s.active.producers|));
    hide Quorum, Threshold, Left;
  }

  /** Counting down takes one from the counter of every block still tracked that the header claims. */
  lemma CountDown(g: State, h: Header, c: State)
    requires g.proposed < g.blockNum && 2 <= g.blockNum == c.blockNum
    requires |g.confirmCount| == Min(MAX_TRACKED, g.blockNum - Max(g.proposed, 1))
    requires Bytes(g.confirmCount)
    requires Confirmation(c.confirmCount, c.proposed)
          == Confirm(g.confirmCount, |g.confirmCount| - 1, h.confirmed + 1, g.blockNum, g.proposed)
    ensures WindowOk(c) && c.proposed >= g.proposed
    ensures forall b :: Tracked(c, b) ==>
      Tracked(g, b) && Left(Counter(c, b)) == Left(Counter(g, b)) - if b >= g.blockNum - h.confirmed then 1 else 0
    ensures c.proposed != g.proposed ==>
      && Tracked(g, c.proposed) && Left(Counter(g, c.proposed)) == 1
      && c.proposed >= g.blockNum - h.confirmed
  {
    var z := ConfirmShape(g.confirmCount, |g.confirmCount| - 1, h.confirmed + 1, g.blockNum, g.proposed);
    hide Confirm, Bytes;
  }

  /** Nobody claims a block before it is made, and the header that makes it does. */
  lemma FirstClaim(headers: seq<Header>, k: nat)
    requires k <= |headers|
    ensures Claims(headers, k, k + 2) == {}
    ensures forall b: nat :: 2 <= b < k + 2 ==> |Claims(headers, k, b)| > 0
  {
    forall b: nat | 2 <= b < k + 2 ensures |Claims(headers, k, b)| > 0 {
      assert ClaimsBlock(headers, b - 2, b);
      assert b - 2 in Claims(headers, k, b);
    }
  }

  /** In the template every tracked block, the new one included, still lacks its missing claims. */
  lemma GrownCounters(states: seq<State>, headers: seq<Header>, k: nat)
    requires k < |states| && k <= |headers|
    requires states[k].blockNum == k + 1 && Bytes(states[k].confirmCount)
    requires CountersOk(states, headers, k, states[k])
    ensures var g := GrownState(states[k]);
      && |g.confirmCount| == Min(MAX_TRACKED, g.blockNum - Max(g.proposed, 1))
      && forall b :: Tracked(g, b) ==>
        2 <= b && Left(Counter(g, b)) == Needed(states, b) - |Claims(headers, k, b)|
  {
    hide Claims, Grown, Threshold, Quorum;
    var s := states[k];
    var g := GrownState(s);
    GrownTracks(s, g.blockNum);
    forall b | Tracked(g, b)
      ensures 2 <= b && Left(Counter(g, b)) == Needed(states, b) - |Claims(headers, k, b)|
    {
      GrownTracks(s, b);
      if b == g.blockNum {
        FirstClaim(headers, k);
      }
    }
  }

  lemma StepCounters(states: seq<State>, headers: seq<Header>, k: nat, c: State)
    requires k < |headers| && k < |states| && states[k].blockNum == k + 1
    requires Counts(states[k], headers[k], c) && c.blockNum == k + 2
    requires CountersOk(states, headers, k, states[k])
    ensures CountersOk(states, headers, k + 1, c) && c.proposed >= states[k].proposed
    ensures c.proposed != states[k].proposed ==>
      |Claims(headers, k + 1, c.proposed)| == Needed(states, c.proposed)
  {
    hide Claims, Confirm, Grown, Quorum, Required, Needed, Counter;
    var g, h := GrownState(states[k]), headers[k];
    GrownCounters(states, headers, k);
    CountDown(g, h, c);
    hide Counts, Bytes;
    FirstClaim(headers, k + 1);
    forall b | Tracked(c, b)
      ensures 0 < Counter(c, b) == Needed(states, b) - |Claims(headers, k + 1, b)|
    {
      assert Tracked(g, b);
      ClaimsGrow(headers, k, b);
    }
    if c.proposed > 0 {
      ClaimsGrow(headers, k, c.proposed);
    }
  }

  lemma {:induction false} RunCounters(states: seq<State>, headers: seq<Header>, k: nat)
    requires IsRun(states, headers) && k < |states|
    ensures states[k].blockNum == k + 1
    ensures CountersOk(states, headers, k, states[k])
    ensures k > 0 ==> states[k - 1].proposed <= states[k].proposed
    ensures k > 0 && states[k - 1].proposed != states[k].proposed ==>
      |Claims(headers, k, states[k].proposed)| == Needed(states, states[k].proposed)
  {
    hide Next, CountersOk, Counts, Schedules, Advances, Sound, Step, Claims, Needed;
    RunSound(states, headers, k);
    if k == 0 {
      var id, slot, system :| states[0] == Genesis(id, slot, system);
      GenesisCounters(states, headers, id, slot, system);
    } else {
      RunCounters(states, headers, k - 1);
      assert Step(states[k - 1], headers[k - 1], states[k]);
      var c := CountedStep(states, headers, k - 1);
      StepCounters(states, headers, k - 1, c);
      SameCounters(states, headers, k, c, states[k]);
    }
  }

  lemma GenesisCounters(states: seq<State>, headers: seq<Header>, id: BlockId, slot: nat, system: ProducerKey)
    requires states != [] && states[0] == Genesis(id, slot, system)
    ensures CountersOk(states, headers, 0, states[0])
  {
  }

  /** The counting half of the step from state k; the schedule half leaves its counters. */
  lemma CountedStep(states: seq<State>, headers: seq<Header>, k: nat) returns (c: State)
    requires IsRun(states, headers) && k < |headers|
    ensures Counts(states[k], headers[k], c) && c.blockNum == k + 2 == states[k + 1].blockNum
    ensures states[k + 1].confirmCount == c.confirmCount && states[k + 1].proposed == c.proposed
  {
    hide Next, Counts, LastIrreversible, Shuffled;
    RunSound(states, headers, k);
    assert Step(states[k], headers[k], states[k + 1]);
    c := StepParts(states[k], headers[k], states[k + 1]);
    ScheduleHalfSettles(c, headers[k], states[k + 1]);
  }

  lemma SameCounters(states: seq<State>, headers: seq<Header>, k: nat, c: State, t: State)
    requires k <= |headers| && k <= |states| && c.blockNum == k + 1 == t.blockNum
    requires CountersOk(states, headers, k, c)
    requires t.confirmCount == c.confirmCount && t.proposed == c.proposed
    ensures CountersOk(states, headers, k, t)
  {
    hide Claims, Needed;
    assert forall b :: Tracked(t, b) ==> Counter(t, b) == Counter(c, b);
  }

  // ---------------------------------------------------------------- schedules that fit

  /** The schedules in force and pending have quorums that a counter can count. */
  predicate Fits(s: State)
  {
    Quorum(|s.active.producers|) <= 256 && Quorum(|s.pending.producers|) <= 256
  }

  lemma ScheduleHalfFits(c: State, h: Header, t: State)
    requires c.active.producers != [] && Fits(c) && Schedules(c, h, t)
    requires h.newProducers.Some? ==> Quorum(|h.newProducers.value.producers|) <= 256
    ensures Fits(t)
  {
    hide Shuffled, Carried, Quorum, Displacement;
    assert Quorum(|Schedule(0, []).producers|) <= 256 by { QuorumOfNone(); }
  }

  lemma QuorumOfNone()
    ensures Quorum(0) == 1
  {
  }

  lemma {:induction false} RunFits(states: seq<State>, headers: seq<Header>, k: nat)
    requires IsRun(states, headers) && SchedulesFit(headers) && k < |states|
    ensures Fits(states[k])
  {
    hide Next, Counts, Schedules, Advances, Sound, Fits, Quorum, Step;
    if k == 0 {
      var id, slot, system :| states[0] == Genesis(id, slot, system);
      GenesisFits(id, slot, system);
    } else {
      RunFits(states, headers, k - 1);
      RunSound(states, headers, k - 1);
      assert Step(states[k - 1], headers[k - 1], states[k]);
      var c := StepParts(states[k - 1], headers[k - 1], states[k]);
      AdvancesFits(states[k - 1], headers[k - 1], c);
      ScheduleHalfFits(c, headers[k - 1], states[k]);
    }
  }

  lemma GenesisFits(id: BlockId, slot: nat, system: ProducerKey)
    ensures Fits(Genesis(id, slot, system))
  {
  }

  lemma AdvancesFits(s: State, h: Header, c: State)
    requires Fits(s) && Advances(s, h, c)
    ensures Fits(c)
  {
    hide Quorum, LastIrreversible;
  }

  // ---------------------------------------------------------------- the theorems about proposed blocks

  /**
   In every reachable state the proposed block has the claims it needed, which are a quorum of
   distinct producers where quorums fit and claims are not repeated; no later block still tracked
   has them yet, let alone a quorum.
   */
  lemma ProposedIffQuorum(states: seq<State>, headers: seq<Header>, k: nat)
    requires IsRun(states, headers) && k < |states|
    ensures states[k].proposed <= states[k].blockNum - |states[k].confirmCount| && states[k].blockNum == k + 1
    ensures var b := states[k].proposed;
      b > 0 ==>
        && 2 <= b && |Claims(headers, k, b)| >= Needed(states, b)
        && (Required(states, b) <= 256 && !Repeats(headers, k, b) ==>
              |Claimers(headers, k, b)| >= Required(states, b))
    ensures forall b :: Max(1, states[k].proposed) < b <= k + 1 && k + 1 < b + 1024 ==>
      |Claims(headers, k, b)| < Needed(states, b) && |Claimers(headers, k, b)| < Required(states, b)
  {
    assert |headers| + 1 == |states|;
    hide IsRun, Claims, Claimers, Required, Needed, Repeats, Counter;
    RunCounters(states, headers, k);
    var s := states[k];
    ClaimersDistinctIff(states, headers, k, s.proposed);
    forall b | Max(1, s.proposed) < b <= k + 1 && k + 1 < b + MAX_TRACKED
      ensures |Claims(headers, k, b)| < Needed(states, b) && |Claimers(headers, k, b)| < Required(states, b)
    {
      assert Tracked(s, b);
      ClaimersDistinctIff(states, headers, k, b);
    }
  }

  /**
   The quorum, exactly. Whenever a block becomes proposed it has just reached the claims it needed,
   and a quorum of distinct producers has claimed it if and only if that quorum is at most 256 and
   no producer has repeated its claim.
   */
  lemma QuorumIff(states: seq<State>, headers: seq<Header>, k: nat)
    requires IsRun(states, headers) && 0 < k < |states| && states[k].proposed != states[k - 1].proposed
    ensures var b := states[k].proposed;
      && 2 <= b <= k + 1 && |Claims(headers, k, b)| == Needed(states, b)
      && (|Claimers(headers, k, b)| >= Required(states, b) <==>
            Required(states, b) <= 256 && !Repeats(headers, k, b))
  {
    assert |headers| + 1 == |states|;
    hide IsRun, Claims, Claimers, Required, Needed, Repeats;
    RunCounters(states, headers, k);
    ClaimersDistinctIff(states, headers, k, states[k].proposed);
  }

  /** Headers that claim no more than there is and propose no schedule beyond the counters always give a quorum. */
  lemma FittingHeaders(states: seq<State>, headers: seq<Header>, k: nat, b: nat)
    requires IsRun(states, headers) && ClaimsFit(headers) && SchedulesFit(headers)
    requires k <= |headers| && 2 <= b <= k + 1
    ensures Required(states, b) <= 256 && !Repeats(headers, k, b)
  {
    RunFits(states, headers, b - 2);
    hide IsRun;
    FittingClaimsDiffer(headers, k, b);
  }

  /**
   The confirmation window of every reachable state: counter i belongs to block
   blockNum - (size - 1 - i), holds the claims that block still lacks, and is positive; nothing at
   or below the proposed block is tracked.
   */
  lemma WindowCounts(states: seq<State>, headers: seq<Header>, k: nat, i: nat)
    requires IsRun(states, headers) && k < |states|
    requires i < |states[k].confirmCount|
    ensures var b := states[k].blockNum - (|states[k].confirmCount| - 1 - i);
      && 2 <= b < |states| + 2 && states[k].proposed < b
      && 0 < states[k].confirmCount[i] == Needed(states, b) - |Claims(headers, k, b)|
  {
    hide IsRun, Claims, Needed;
    RunCounters(states, headers, k);
    var s := states[k];
    var b := s.blockNum - (|s.confirmCount| - 1 - i);
    assert Tracked(s, b) && Counter(s, b) == s.confirmCount[i];
  }

  /**
   So only the counter of a new block can be counted down from zero, on its first claim, and it is
   exactly when the low byte of the quorum is zero.
   */
  lemma UnderflowIff(states: seq<State>, headers: seq<Header>, k: nat)
    requires IsRun(states, headers) && k < |states|
    ensures Bytes(states[k].confirmCount)
    ensures var quorum := Quorum(|states[k].active.producers|);
      0 in Grown(states[k].confirmCount, quorum) <==> quorum % 256 == 0
  {
    RunSound(states, headers, k);
    hide IsRun, Claims, Needed, Quorum;
    var s := states[k];
    forall i | 0 <= i < |s.confirmCount| ensures s.confirmCount[i] > 0 {
      WindowCounts(states, headers, k, i);
    }
    var g := Grown(s.confirmCount, Quorum(|s.active.producers|));
    assert g[|g| - 1] == Quorum(|s.active.producers|) % 256;
  }

  /** The proposed block only moves forward, also when the window is full and slides. */
  lemma {:induction false} ProposedGrows(states: seq<State>, headers: seq<Header>, j: nat, k: nat)
    requires IsRun(states, headers) && j <= k < |states|
    ensures states[j].proposed <= states[k].proposed
  {
    hide IsRun;
    if j < k {
      ProposedGrows(states, headers, j, k - 1);
      RunCounters(states, headers, k);
    }
  }
}
