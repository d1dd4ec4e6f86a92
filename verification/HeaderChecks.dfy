/**
 Which headers next accepts on top of a state, and for which of its checks it refuses the others, told
 from the state and the header alone; and how the headers of a run are linked.
 */
module HeaderChecks {
  import opened Wrappers
  import opened Arithmetic
  import opened Shuffle
  import opened HeaderState
  import opened HeaderRuns
  import opened Confirmations

  // ---------------------------------------------------------------- the owner of a slot

  /** The slots after a shuffle belong to the scheduled producers in their order, round after round. */
  lemma SlotOwner(s: State, i: nat, round: nat)
    requires i < |s.active.producers|
    ensures ScheduledProducer(s, s.shuffleSlot + 1 + i + |s.active.producers| * round) == s.active.producers[i]
  {
    var n := |s.active.producers|;
    DivModUnique(i + n * round, n, round, i);
  }

  // ---------------------------------------------------------------- the checks of a header, in order

  predicate Timely(s: State, h: Header) { h.slot > s.slot }

  /** The producer has made no block among those the header claims, as far as 32-bit subtraction tells. */
  predicate ClaimsNew(s: State, h: Header)
  {
    h.producer in s.lastProduced ==> s.lastProduced[h.producer] < Sub32(s.blockNum + 1, h.confirmed)
  }

  /** The pending schedule takes over with this block: the block that proposed it is irreversible by then. */
  ghost predicate TakesOver(s: State, h: Header)
  {
    s.pending.producers != [] && LastIrreversible(s.lastImplied[h.producer := s.proposed]) >= s.pendingLib
  }

  /** A new schedule may be proposed when none is pending and none takes over, and only with the next version. */
  ghost predicate MayPropose(s: State, h: Header)
  {
    h.newProducers.Some? ==>
      && !TakesOver(s, h) && s.pending.producers == []
      && h.newProducers.value.version == s.active.version + 1
  }

  /** Everything next asks of a header, about the key that made it only when the signature is checked. */
  ghost predicate Acceptable(s: State, h: Header, skipSignee: bool)
    requires s.active.producers != []
  {
    && h.extensions == 0
    && Timely(s, h)
    && h.previous == s.id
    && h.producer == ScheduledProducer(s, h.slot).name
    && h.scheduleVersion == s.active.version
    && ClaimsNew(s, h)
    && (TakesOver(s, h) || h.slot > s.shuffleSlot)
    && MayPropose(s, h)
    && (skipSignee || h.signee == ScheduledProducer(s, h.slot).key)
  }

  /** The template of the block has the scheduled producer and its key, and promotes when the schedule takes over. */
  lemma TemplateIs(s: State, h: Header)
    requires Usable(s) && h.slot > s.slot && h.slot > 0
    ensures var g := GenerateNext(s, h.slot);
      && g.Ok? && |g.value.confirmCount| <= g.value.blockNum && Bytes(g.value.confirmCount)
      && g.value.producer == ScheduledProducer(s, h.slot).name && g.value.signingKey == ScheduledProducer(s, h.slot).key
      && g.value.slot == h.slot && g.value.active == s.active && g.value.pending == s.pending
      && g.value.shuffleSlot == s.shuffleSlot && g.value.pendingLib == s.pendingLib
      && g.value.irreversible == LastIrreversible(s.lastImplied[g.value.producer := s.proposed])
  {
    hide LastIrreversible;
  }

  /** What is left after the template matches fails only over schedules. */
  lemma FinishIs(g: State, h: Header)
    requires |g.confirmCount| <= g.blockNum && Bytes(g.confirmCount)
    ensures var due := g.pending.producers != [] && g.irreversible >= g.pendingLib;
      match Finish(g, h)
      case Ok(t) =>
        && (due || (g.active.producers != [] && g.slot > g.shuffleSlot))
        && (h.newProducers.Some? ==>
              !due && g.pending.producers == [] && h.newProducers.value.version == g.active.version + 1)
      case Err(e) =>
        if !due && g.active.producers == [] then e == NoActiveProducers
        else if !due && g.slot <= g.shuffleSlot then e == WrongShuffleSlot
        else
          && h.newProducers.Some?
          && if due then e == PromotedAndProposed
             else if h.newProducers.value.version != g.active.version + 1 then e == WrongPendingVersion
             else e == PendingExists && g.pending.producers != []
  {
    hide Confirm, Promoted, Shuffled, Displacement;
    var c := SetConfirmed(g, h.confirmed);
    if !PromotionDue(c) && g.active.producers != [] { ReshuffledVersion(c); }
  }

  lemma ReshuffledVersion(c: State)
    requires c.active.producers != []
    ensures Reshuffled(c).active.version == c.active.version && Reshuffled(c).pending == c.pending
  {
  }

  /** next accepts a header if and only if it passes every check. */
  lemma NextAcceptsIff(s: State, h: Header, skipSignee: bool)
    requires Usable(s)
    ensures Next(s, h, skipSignee).Ok? <==> Acceptable(s, h, skipSignee)
  {
    hide GenerateNext, Finish, LastIrreversible, ScheduledProducer;
    if h.slot > s.slot {
      TemplateIs(s, h);
      FinishIs(GenerateNext(s, h.slot).value, h);
    }
  }

  /** An error names the first check that fails. */
  lemma NextErrors(s: State, h: Header, skipSignee: bool)
    requires Usable(s) && Next(s, h, skipSignee).Err?
    ensures var e := Next(s, h, skipSignee).error;
      if h.slot == 0 then e == EmptyTimestamp
      else if h.extensions != 0 then e == UnsupportedExtensions
      else if !Timely(s, h) then e == NotLater
      else if h.previous != s.id then e == Unlinkable
      else if h.producer != ScheduledProducer(s, h.slot).name then e == WrongProducer
      else if h.scheduleVersion != s.active.version then e == WrongScheduleVersion
      else if !ClaimsNew(s, h) then e == DoubleConfirm
      else if !TakesOver(s, h) && h.slot <= s.shuffleSlot then e == WrongShuffleSlot
      else if !MayPropose(s, h) then
        if TakesOver(s, h) then e == PromotedAndProposed
        else if h.newProducers.value.version != s.active.version + 1 then e == WrongPendingVersion
        else e == PendingExists
      else e == WrongSigningKey && !skipSignee && h.signee != ScheduledProducer(s, h.slot).key
  {
    hide GenerateNext, Finish, LastIrreversible, ScheduledProducer;
    if h.slot > s.slot {
      TemplateIs(s, h);
      FinishIs(GenerateNext(s, h.slot).value, h);
    }
  }

  // ---------------------------------------------------------------- the headers of a run

  /** What a step sets and leaves besides counters and schedules. */
  lemma StepSets(s: State, h: Header, t: State)
    requires Sound(s) && Step(s, h, t)
    ensures t.id == h.id && t.blockNum == s.blockNum + 1 && t.slot == h.slot && t.producer == h.producer
    ensures t.bft == s.bft && t.signingKey == ScheduledProducer(s, h.slot).key
    ensures t.irreversible == LastIrreversible(s.lastImplied[h.producer := s.proposed])
    ensures TakesOver(s, h) <==> Promotes(s, h)
  {
    hide Confirm, Grown, LastIrreversible, Shuffled, Carried, Displacement, Dec8, Quorum;
    TemplateIs(s, h);
  }

  /**
   In every run each header is built on the block before it, in its schedule, is made by the producer
   of its slot, and its block takes its id; so the headers form one chain.
   */
  lemma RunLinked(states: seq<State>, headers: seq<Header>, k: nat)
    requires IsRun(states, headers) && k < |headers|
    ensures states[k].active.producers != [] && Acceptable(states[k], headers[k], true)
    ensures states[k + 1].id == headers[k].id && headers[k].previous == states[k].id
    ensures k > 0 ==> headers[k].previous == headers[k - 1].id && headers[k].slot > headers[k - 1].slot
    ensures states[k + 1].signingKey == ScheduledProducer(states[k], headers[k].slot).key
    ensures states[k + 1].bft == states[0].bft
  {
    hide Next, Acceptable, LastIrreversible;
    RunStep(states, headers, k);
    if k > 0 {
      RunStep(states, headers, k - 1);
      RunSound(states, headers, k);
    }
    BftStays(states, headers, k + 1);
    assert headers[k].previous == states[k].id by { AcceptedLinks(states[k], headers[k]); }
    assert k > 0 ==> headers[k].slot > states[k].slot by { AcceptedLinks(states[k], headers[k]); }
  }

  lemma AcceptedLinks(s: State, h: Header)
    requires s.active.producers != [] && Acceptable(s, h, true)
    ensures h.previous == s.id && h.slot > s.slot
  {
  }

  lemma RunStep(states: seq<State>, headers: seq<Header>, k: nat)
    requires IsRun(states, headers) && k < |headers|
    ensures Sound(states[k]) && Step(states[k], headers[k], states[k + 1])
    ensures Acceptable(states[k], headers[k], true) && states[k + 1].id == headers[k].id
    ensures states[k + 1].signingKey == ScheduledProducer(states[k], headers[k].slot).key
    ensures states[k + 1].bft == states[k].bft
  {
    hide Next, Acceptable, LastIrreversible, ScheduledProducer;
    RunSound(states, headers, k);
    assert Step(states[k], headers[k], states[k + 1]);
    NextAcceptsIff(states[k], headers[k], true);
    StepSets(states[k], headers[k], states[k + 1]);
  }

  lemma {:induction false} BftStays(states: seq<State>, headers: seq<Header>, k: nat)
    requires IsRun(states, headers) && k < |states|
    ensures states[k].bft == states[0].bft
  {
    hide IsRun;
    if k > 0 {
      BftStays(states, headers, k - 1);
      assert k - 1 < |headers| by { RunSize(states, headers); }
      RunStep(states, headers, k - 1);
    }
  }

  lemma RunSize(states: seq<State>, headers: seq<Header>)
    requires IsRun(states, headers)
    ensures |states| == |headers| + 1
  {
  }
}
