/** Runs of the header state machine from genesis, and what every state of every run satisfies. */
module HeaderRuns {
  import opened Wrappers
  import opened Shuffle
  import opened HeaderState

  /** Accepting h on top of s gives t. Signature checking only removes transitions, so it is off here. */
  ghost predicate Step(s: State, h: Header, t: State)
  {
    Usable(s) && Next(s, h, true) == Ok(t)
  }

  /** states[0] is a genesis state and headers[i] leads from states[i] to states[i + 1]. */
  ghost predicate IsRun(states: seq<State>, headers: seq<Header>)
  {
    && |states| == |headers| + 1
    && (exists id, slot, system :: states[0] == Genesis(id, slot, system))
    && forall i :: 0 <= i < |headers| ==> Step(states[i], headers[i], states[i + 1])
  }

  /** The number of the block that headers[i] makes. Genesis is block 1. */
  function Num(i: nat): nat { i + 2 }

  /** No proposed schedule is so large that an 8-bit counter cannot count its quorum. */
  predicate SchedulesFit(headers: seq<Header>)
  {
    forall i :: 0 <= i < |headers| && headers[i].newProducers.Some? ==>
      Quorum(|headers[i].newProducers.value.producers|) <= 256
  }

  /** No header claims more blocks than there are: the subtraction in the double-confirm check cannot wrap. */
  predicate ClaimsFit(headers: seq<Header>)
  {
    forall i :: 0 <= i < |headers| ==> headers[i].confirmed <= Num(i)
  }

  // ---------------------------------------------------------------- one step, taken apart

  /** The state of the step after the confirmations are counted and before schedules change. */
  ghost function Counted(s: State, h: Header): State
    requires Usable(s) && h.slot > s.slot
  {
    SetConfirmed(GenerateNext(s, h.slot).value, h.confirmed)
  }

  /** Accepting h on top of s promotes the pending schedule. */
  ghost predicate Promotes(s: State, h: Header)
  {
    Usable(s) && h.slot > s.slot && PromotionDue(Counted(s, h))
  }

  lemma SignatureCheckOnlyRejects(s: State, h: Header)
    requires Usable(s) && Next(s, h, false).Ok?
    ensures Next(s, h, true) == Next(s, h, false)
  {
  }

  // ---------------------------------------------------------------- what every state keeps

  ghost predicate Sound(s: State)
  {
    && Usable(s)
    && s.shuffleSlot <= s.slot
    && |s.confirmCount| < s.blockNum
  }

  /** After the first block: one entry per scheduled producer, and the round started less than a round ago. */
  ghost predicate Settled(s: State)
  {
    && Names(s.active.producers) <= s.lastProduced.Keys
    && s.lastImplied.Keys == Names(s.active.producers)
    && s.slot < s.shuffleSlot + |s.active.producers|
  }

  lemma ConfirmShortens(counts: seq<nat>, i: int, k: nat, blockNum: nat, proposed: nat)
    requires -1 <= i < |counts| <= blockNum
    requires Bytes(counts)
    ensures |Confirm(counts, i, k, blockNum, proposed).counts| <= |counts|
    decreases k
  {
  }

  lemma NamesOfPermutation(a: seq<ProducerKey>, b: seq<ProducerKey>)
    requires multiset(a) == multiset(b)
    ensures Names(a) == Names(b)
  {
    forall k ensures k in a <==> k in b {
      assert k in multiset(a) <==> k in multiset(b);
    }
  }

  lemma ReshufflePermutes(c: State)
    requires c.active.producers != []
    ensures multiset(Reshuffled(c).active.producers) == multiset(c.active.producers)
  {
    var n := |c.active.producers|;
    var next := c.shuffleSlot + n;
    if c.slot >= next {
      ShufflePermutes(c.active.producers, Displacement(c.slot, next, n), XorShift(next));
    }
  }

  lemma ReshuffleKeeps(c: State)
    requires c.active.producers != [] && c.shuffleSlot <= c.slot
    ensures var r := Reshuffled(c);
      && r == c.(active := r.active, shuffleSlot := r.shuffleSlot)
      && r.active.version == c.active.version
      && Names(r.active.producers) == Names(c.active.producers)
      && |r.active.producers| == |c.active.producers|
      && r.shuffleSlot <= r.slot < r.shuffleSlot + |r.active.producers|
  {
    ReshufflePermutes(c);
    NamesOfPermutation(Reshuffled(c).active.producers, c.active.producers);
  }

  lemma PromotionSettles(c: State)
    requires PromotionDue(c)
    ensures Settled(Promoted(c)) && Promoted(c).active.producers != []
  {
    ShufflePermutes(c.pending.producers, 0, XorShift(c.slot));
    NamesOfPermutation(Promoted(c).active.producers, c.pending.producers);
  }

  /** Counting confirmations: the window grows by the new block and the header's claims are counted down. */
  ghost predicate Counts(s: State, h: Header, c: State)
  {
    && Bytes(s.confirmCount)
    && var grown := Grown(s.confirmCount, Quorum(|s.active.producers|));
    && |grown| <= s.blockNum + 1
    && Confirmation(c.confirmCount, c.proposed)
        == Confirm(grown, |grown| - 1, h.confirmed + 1, s.blockNum + 1, s.proposed)
  }

  /** The fields the counting half of a step sets, and those it leaves. */
  ghost predicate Advances(s: State, h: Header, c: State)
  {
    && c.blockNum == s.blockNum + 1
    && c.slot == h.slot > s.slot
    && c.producer == h.producer && h.producer in Names(s.active.producers)
    && c.active == s.active && c.shuffleSlot == s.shuffleSlot
    && c.pending == s.pending && c.pendingLib == s.pendingLib
    && c.lastProduced == s.lastProduced[h.producer := c.blockNum]
    && c.lastImplied == s.lastImplied[h.producer := s.proposed]
    && c.irreversible == LastIrreversible(c.lastImplied)
    && c.bft == s.bft
  }

  /** The schedule half of a step. */
  ghost predicate Schedules(c: State, h: Header, t: State)
    requires c.active.producers != []
  {
    if PromotionDue(c) then h.newProducers.None? && t == Promoted(c).(id := h.id)
    else
      var r := Reshuffled(c).(id := h.id);
      match h.newProducers
      case None => t == r
      case Some(p) => c.pending.producers == [] && t == r.(pending := p, pendingLib := r.blockNum)
  }

  lemma CountedAdvances(s: State, h: Header)
    requires Sound(s) && h.slot > s.slot && ScheduledProducer(s, h.slot).name == h.producer
    ensures var c := Counted(s, h);
      Usable(c) && Advances(s, h, c) && Counts(s, h, c) && |c.confirmCount| < c.blockNum
  {
    hide LastIrreversible;
    var g := GenerateNext(s, h.slot).value;
    ConfirmShortens(g.confirmCount, |g.confirmCount| - 1, h.confirmed + 1, g.blockNum, g.proposed);
    assert ScheduledProducer(s, h.slot) in s.active.producers;
  }

  /** A step is a counting half followed by a schedule half. */
  lemma StepParts(s: State, h: Header, t: State) returns (c: State)
    requires Sound(s) && Step(s, h, t)
    ensures Usable(c) && Advances(s, h, c) && Counts(s, h, c) && Schedules(c, h, t)
    ensures |c.confirmCount| < c.blockNum
    ensures !DoubleConfirms(s, h)
    ensures ScheduledProducer(s, h.slot).name == h.producer
    ensures PromotionDue(c) <==> Promotes(s, h)
  {
    hide Advances, Counts, LastIrreversible, Confirm, Grown, Promoted, Shuffled;
    c := Counted(s, h);
    CountedAdvances(s, h);
  }

  lemma ScheduleHalfSettles(c: State, h: Header, t: State)
    requires c.active.producers != [] && c.shuffleSlot <= c.slot
    requires Schedules(c, h, t)
    ensures t.active.producers != [] && t.shuffleSlot <= t.slot < t.shuffleSlot + |t.active.producers|
    ensures t.blockNum == c.blockNum && t.slot == c.slot && t.confirmCount == c.confirmCount
    ensures PromotionDue(c) ==> Settled(t)
    ensures !PromotionDue(c) ==>
      && t == c.(id := t.id, active := t.active, shuffleSlot := t.shuffleSlot, pending := t.pending,
                 pendingLib := t.pendingLib)
      && Names(t.active.producers) == Names(c.active.producers)
      && |t.active.producers| == |c.active.producers|
  {
    if PromotionDue(c) {
      PromotionSettles(c);
    } else {
      ReshuffleKeeps(c);
    }
  }

  lemma StepSound(s: State, h: Header, t: State)
    requires Sound(s) && Step(s, h, t)
    ensures Sound(t) && t.blockNum == s.blockNum + 1 && t.slot == h.slot > s.slot
    ensures Promotes(s, h) || Settled(s) ==> Settled(t)
  {
    var c := StepParts(s, h, t);
    ScheduleHalfSettles(c, h, t);
  }

  lemma FirstStepPromotes(s: State, h: Header, t: State)
    requires exists id, slot, system :: s == Genesis(id, slot, system)
    requires Step(s, h, t)
    ensures Promotes(s, h)
  {
  }

  /** Every state of a run is usable, so the next header is always judged and never hits an undefined operation. */
  lemma {:induction false} RunSound(states: seq<State>, headers: seq<Header>, k: nat)
    requires IsRun(states, headers) && k < |states|
    ensures Sound(states[k]) && states[k].blockNum == k + 1
    ensures k > 0 ==> Settled(states[k]) && states[k].slot == headers[k - 1].slot
  {
    if k > 0 {
      RunSound(states, headers, k - 1);
      assert Step(states[k - 1], headers[k - 1], states[k]);
      if k == 1 {
        FirstStepPromotes(states[0], headers[0], states[1]);
      }
      StepSound(states[k - 1], headers[k - 1], states[k]);
    }
  }

  /**
   The assertions on the active schedule inside update_active_schedule never fire: whatever header
   comes next on a reachable state, it is not rejected for them.
   */
  lemma ScheduleAssertsNeverFire(states: seq<State>, headers: seq<Header>, k: nat, h: Header, skip: bool)
    requires IsRun(states, headers) && k < |states|
    ensures Usable(states[k])
    ensures Next(states[k], h, skip) != Err(NoActiveProducers)
    ensures Next(states[k], h, skip) != Err(WrongShuffleSlot)
  {
    RunSound(states, headers, k);
    ScheduleAssertsHold(states[k], h, skip);
  }

  lemma ScheduleAssertsHold(s: State, h: Header, skip: bool)
    requires Sound(s)
    ensures Next(s, h, skip) != Err(NoActiveProducers) && Next(s, h, skip) != Err(WrongShuffleSlot)
  {
    if h.slot > s.slot {
      var g := GenerateNext(s, h.slot).value;
      assert UpdateActiveSchedule(SetConfirmed(g, h.confirmed)).Ok?;
      assert Finish(g, h).Ok?
          || Finish(g, h) in {Err(PromotedAndProposed), Err(WrongPendingVersion), Err(PendingExists)};
    }
  }
}
