/**
 Where the schedules of a run come from: each one in force was proposed by a header, and took over with
 the first block by which the block that proposed it had become irreversible.
 */
module ScheduleHistory {
  import opened Wrappers
  import opened Shuffle
  import opened HeaderState
  import opened HeaderRuns
  import opened HeaderChecks

  /** The same producers, in any order, under the same version. */
  predicate SameSchedule(a: Schedule, b: Schedule)
  {
    a.version == b.version && multiset(a.producers) == multiset(b.producers)
  }

  /** The entry of a producer that stays or comes. */
  function EntryOf(m: map<Name, nat>, p: Name, initial: nat): nat
  {
    if p in m then m[p] else initial
  }

  /**
   What a promotion sets: the pending schedule, shuffled by the slot, is in force and no other is
   pending; the round starts at the slot; exactly the new producers, and the maker of the block, have
   entries, carried over or starting at the irreversible number. Nothing else changes.
   */
  lemma PromotionSets(c: State)
    requires PromotionDue(c)
    ensures var t := Promoted(c);
      && t == c.(active := t.active, pending := Schedule(c.pending.version, []), shuffleSlot := c.slot,
                 lastProduced := t.lastProduced, lastImplied := t.lastImplied)
      && SameSchedule(t.active, c.pending)
      && t.active.producers == Shuffled(c.pending.producers, 0, XorShift(c.slot))
      && t.lastImplied.Keys == Names(c.pending.producers)
      && t.lastProduced.Keys == Names(c.pending.producers) + {c.producer}
      && (forall p :: p in t.lastImplied ==> t.lastImplied[p] == EntryOf(c.lastImplied, p, c.irreversible))
      && forall p :: p in t.lastProduced ==>
        t.lastProduced[p] == if p == c.producer then c.blockNum else EntryOf(c.lastProduced, p, c.irreversible)
  {
    ShufflePermutes(c.pending.producers, 0, XorShift(c.slot));
    NamesOfPermutation(Promoted(c).active.producers, c.pending.producers);
    hide Shuffled, Names;
  }

  /**
   What a reshuffle does: nothing before the round of n slots is over; then the slots of the round that
   the block's slot lies in are dealt out again, but those up to the block's own stay as they were.
   */
  lemma ReshuffleSets(c: State)
    requires c.active.producers != [] && c.shuffleSlot <= c.slot
    ensures var r, n := Reshuffled(c), |c.active.producers|;
      && r == c.(active := r.active, shuffleSlot := r.shuffleSlot) && SameSchedule(r.active, c.active)
      && (c.slot < c.shuffleSlot + n ==> r == c)
      && (c.slot >= c.shuffleSlot + n ==>
            && r.shuffleSlot <= c.slot < r.shuffleSlot + n && (r.shuffleSlot - c.shuffleSlot) % n == 0
            && r.active.producers
               == Shuffled(c.active.producers, c.slot - r.shuffleSlot, XorShift(c.shuffleSlot + n)))
  {
    ReshufflePermutes(c);
    hide Shuffled;
    var n := |c.active.producers|;
    if c.slot >= c.shuffleSlot + n {
      var x := c.slot - (c.shuffleSlot + n);
      Arithmetic.WithoutRemainder(x, n);
      Arithmetic.AddMultiple(x - x % n, n, 1);
    }
  }

  // ---------------------------------------------------------------- proposals in a run

  /** Header j proposed the schedule. */
  predicate ProposedBy(headers: seq<Header>, j: nat, schedule: Schedule)
    requires j < |headers|
  {
    headers[j].newProducers == Some(schedule)
  }

  /** The schedule in force is the first one or was proposed before, and so was the one that is pending. */
  ghost predicate FromHeaders(states: seq<State>, headers: seq<Header>, k: nat, s: State)
    requires k <= |headers| && states != []
  {
    && (|| SameSchedule(s.active, states[0].active)
        || exists j :: 0 <= j < k && headers[j].newProducers.Some?
                    && SameSchedule(s.active, headers[j].newProducers.value))
    && (s.pending.producers != [] && k > 0 ==>
          && s.pending.version == s.active.version + 1
          && exists j :: 0 <= j < k && ProposedBy(headers, j, s.pending) && s.pendingLib == Num(j))
  }

  lemma StepFromHeaders(states: seq<State>, headers: seq<Header>, k: nat, c: State, t: State)
    requires k < |headers| && k < |states| && states[k].active.producers != [] && states[k].blockNum == k + 1
    requires k == 0 ==> states[0].pending == states[0].active && PromotionDue(c)
    requires FromHeaders(states, headers, k, states[k])
    requires Advances(states[k], headers[k], c) && Schedules(c, headers[k], t)
    requires c.shuffleSlot <= c.slot && MayPropose(states[k], headers[k])
    ensures FromHeaders(states, headers, k + 1, t)
    ensures t.active.version == c.active.version + if PromotionDue(c) && k > 0 then 1 else 0
    ensures PromotionDue(c) ==> SameSchedule(t.active, states[k].pending) && t.pending.producers == []
    ensures !PromotionDue(c) ==> SameSchedule(t.active, states[k].active)
  {
    hide Shuffled, LastIrreversible, Promoted, Reshuffled, Displacement;
    var s, h := states[k], headers[k];
    if PromotionDue(c) {
      PromotionSets(c);
      if k > 0 {
        var j :| 0 <= j < k && ProposedBy(headers, j, s.pending) && s.pendingLib == Num(j);
        assert headers[j].newProducers.Some? && SameSchedule(t.active, headers[j].newProducers.value);
      }
    } else {
      ReshuffleSets(c);
      if h.newProducers.Some? {
        assert ProposedBy(headers, k, t.pending) && t.pendingLib == Num(k);
      } else if t.pending.producers != [] && k > 0 {
        var j :| 0 <= j < k && ProposedBy(headers, j, s.pending) && s.pendingLib == Num(j);
        assert ProposedBy(headers, j, t.pending);
      }
    }
  }

  /** In every state of every run the schedules in force and pending come from the headers before. */
  lemma {:induction false} RunFromHeaders(states: seq<State>, headers: seq<Header>, k: nat)
    requires IsRun(states, headers) && k < |states|
    ensures FromHeaders(states, headers, k, states[k])
    ensures states[0].pending == states[0].active
  {
    hide Next, Counts, Schedules, Advances, FromHeaders, Sound, Step, Acceptable;
    var id, slot, system :| states[0] == Genesis(id, slot, system);
    if k == 0 {
      FirstFromHeaders(states, headers);
    } else {
      RunFromHeaders(states, headers, k - 1);
      var c := ScheduleStep(states, headers, k - 1);
    }
  }

  lemma FirstFromHeaders(states: seq<State>, headers: seq<Header>)
    requires states != []
    ensures FromHeaders(states, headers, 0, states[0])
  {
  }

  /** The step from state k, taken apart, does to the schedules what its header says. */
  lemma ScheduleStep(states: seq<State>, headers: seq<Header>, k: nat) returns (c: State)
    requires IsRun(states, headers) && k < |headers| && FromHeaders(states, headers, k, states[k])
    requires states[0].pending == states[0].active
    ensures FromHeaders(states, headers, k + 1, states[k + 1])
    ensures c.irreversible == states[k + 1].irreversible && c.pending == states[k].pending
    ensures c.pendingLib == states[k].pendingLib && c.active == states[k].active
    ensures states[k + 1].active.version == c.active.version + if PromotionDue(c) && k > 0 then 1 else 0
    ensures PromotionDue(c) ==>
      SameSchedule(states[k + 1].active, states[k].pending) && states[k + 1].pending.producers == []
    ensures !PromotionDue(c) ==> SameSchedule(states[k + 1].active, states[k].active)
  {
    hide Next, Counts, FromHeaders, LastIrreversible, Shuffled;
    RunStep(states, headers, k);
    RunSound(states, headers, k);
    c := StepParts(states[k], headers[k], states[k + 1]);
    if k == 0 { FirstStepPromotes(states[0], headers[0], states[1]); }
    StepFromHeaders(states, headers, k, c, states[k + 1]);
    StepSets(states[k], headers[k], states[k + 1]);
  }

  /**
   On every step of every run: the pending schedule takes over if and only if the block whose header
   proposed it is irreversible by then. It is then in force, shuffled, with its own version, and nothing
   is pending; otherwise the same schedule stays in force. Versions go up one by one.
   */
  lemma TakeOverIff(states: seq<State>, headers: seq<Header>, k: nat) returns (j: nat)
    requires IsRun(states, headers) && 0 < k < |headers| && states[k].pending.producers != []
    ensures j < k && ProposedBy(headers, j, states[k].pending)
    ensures if Num(j) <= states[k + 1].irreversible
      then
        && SameSchedule(states[k + 1].active, headers[j].newProducers.value)
        && states[k + 1].pending.producers == []
        && states[k + 1].active.version == states[k].active.version + 1
      else
        && SameSchedule(states[k + 1].active, states[k].active)
        && states[k + 1].pending == states[k].pending
  {
    hide IsRun, FromHeaders;
    RunSize(states, headers);
    RunFromHeaders(states, headers, k);
    j := Proposer(states, headers, k);
    var c := ScheduleStep(states, headers, k);
    if !PromotionDue(c) { PendingStays(states, headers, k); }
  }

  lemma Proposer(states: seq<State>, headers: seq<Header>, k: nat) returns (j: nat)
    requires 0 < k <= |headers| && k < |states| && FromHeaders(states, headers, k, states[k])
    requires states[k].pending.producers != []
    ensures j < k && ProposedBy(headers, j, states[k].pending) && states[k].pendingLib == Num(j)
  {
    j :| 0 <= j < k && ProposedBy(headers, j, states[k].pending) && states[k].pendingLib == Num(j);
  }

  /** A schedule that a header proposes is pending from its block on, and none was before. */
  lemma ProposalWaits(states: seq<State>, headers: seq<Header>, k: nat)
    requires IsRun(states, headers) && k < |headers| && headers[k].newProducers.Some?
    ensures states[k].pending.producers == [] && states[k + 1].pending == headers[k].newProducers.value
    ensures states[k + 1].pendingLib == Num(k) && states[k + 1].pending.version == states[k].active.version + 1
  {
    hide Next, Counts, LastIrreversible, Shuffled, Carried;
    RunStep(states, headers, k);
    RunSound(states, headers, k);
    var c := StepParts(states[k], headers[k], states[k + 1]);
    ReshuffleSets(c);
  }

  /** While a schedule is pending no other can be proposed. */
  lemma PendingStays(states: seq<State>, headers: seq<Header>, k: nat)
    requires IsRun(states, headers) && k < |headers| && states[k].pending.producers != []
    ensures states[k + 1].pending == states[k].pending || states[k + 1].pending.producers == []
    ensures states[k + 1].irreversible < states[k].pendingLib ==> states[k + 1].pending == states[k].pending
  {
    hide Next, Counts, LastIrreversible, Shuffled, Carried;
    RunStep(states, headers, k);
    RunSound(states, headers, k);
    var c := StepParts(states[k], headers[k], states[k + 1]);
    if !PromotionDue(c) { ReshuffleSets(c); }
  }
}
