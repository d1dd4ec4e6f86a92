/** The header state as the object a node updates in place, each method proved to compute the transition on values. */
module HeaderObject {
  import opened Wrappers
  import opened Shuffle
  import opened HeaderState

  // ---------------------------------------------------------------- sorting the implied numbers

  predicate Ascending(a: seq<nat>)
  {
    forall i, j :: 0 <= i < j < |a| ==> a[i] <= a[j]
  }

  /** How many of the numbers are at least v. */
  function CountFrom(a: seq<nat>, v: nat): nat
  {
    if a == [] then 0 else CountFrom(a[..|a| - 1], v) + if a[|a| - 1] >= v then 1 else 0
  }

  lemma {:induction false} CountSplit(a: seq<nat>, b: seq<nat>, v: nat)
    ensures CountFrom(a + b, v) == CountFrom(a, v) + CountFrom(b, v)
  {
    if b == [] {
      assert a + b == a;
    } else {
      assert (a + b)[..|a + b| - 1] == a + b[..|b| - 1];
      CountSplit(a, b[..|b| - 1], v);
    }
  }

  lemma {:induction false} CountAll(a: seq<nat>, v: nat)
    ensures (forall i :: 0 <= i < |a| ==> a[i] >= v) ==> CountFrom(a, v) == |a|
    ensures (forall i :: 0 <= i < |a| ==> a[i] < v) ==> CountFrom(a, v) == 0
    ensures CountFrom(a, v) <= |a|
  {
    if a != [] { CountAll(a[..|a| - 1], v); }
  }

  lemma InsertCounts(a: seq<nat>, i: nat, x: nat, v: nat)
    requires i <= |a|
    ensures CountFrom(a[..i] + [x] + a[i..], v) == CountFrom(a + [x], v)
  {
    hide CountFrom;
    assert a == a[..i] + a[i..];
    assert a[..i] + [x] + a[i..] == a[..i] + ([x] + a[i..]);
    CountSplit(a[..i], a[i..], v);
    CountSplit(a[..i], [x] + a[i..], v);
    CountSplit([x], a[i..], v);
    CountSplit(a, [x], v);
  }

  method InsertSorted(a: seq<nat>, x: nat) returns (r: seq<nat>)
    requires Ascending(a)
    ensures Ascending(r) && |r| == |a| + 1
    ensures forall v :: CountFrom(r, v) == CountFrom(a + [x], v)
  {
    hide CountFrom;
    var i := |a|;
    while i > 0 && a[i - 1] > x
      invariant 0 <= i <= |a|
      invariant forall j :: i <= j < |a| ==> a[j] > x
    {
      i := i - 1;
    }
    r := a[..i] + [x] + a[i..];
    forall v ensures CountFrom(r, v) == CountFrom(a + [x], v) { InsertCounts(a, i, x, v); }
  }

  method Sort(values: seq<nat>) returns (sorted: seq<nat>)
    ensures Ascending(sorted) && |sorted| == |values|
    ensures forall v :: CountFrom(sorted, v) == CountFrom(values, v)
  {
    hide CountFrom;
    sorted := [];
    for n := 0 to |values|
      invariant Ascending(sorted) && |sorted| == n
      invariant forall v :: CountFrom(sorted, v) == CountFrom(values[..n], v)
    {
      ghost var was := sorted;
      sorted := InsertSorted(sorted, values[n]);
      forall v ensures CountFrom(sorted, v) == CountFrom(values[..n + 1], v) {
        assert values[..n + 1] == values[..n] + [values[n]];
        CountSplit(was, [values[n]], v);
        CountSplit(values[..n], [values[n]], v);
      }
    }
    assert values[..|values|] == values;
  }

  lemma QuorumPastThird(n: nat)
    requires n > 0
    ensures n - (n - 1) / 3 == Quorum(n)
  {
  }

  /** One third into the ascending list, just over two thirds of it are at least as great. */
  lemma ThirdOfSorted(a: seq<nat>)
    requires Ascending(a) && a != []
    ensures var v := a[(|a| - 1) / 3];
      CountFrom(a, v) >= Quorum(|a|) && CountFrom(a, v + 1) < Quorum(|a|)
  {
    QuorumPastThird(|a|);
    PositionOfSorted(a, (|a| - 1) / 3);
  }

  lemma PositionOfSorted(a: seq<nat>, k: nat)
    requires Ascending(a) && k < |a|
    ensures CountFrom(a, a[k]) >= |a| - k && CountFrom(a, a[k] + 1) < |a| - k
  {
    hide CountFrom, Ascending;
    FromPosition(a, k);
    AbovePosition(a, k);
  }

  lemma FromPosition(a: seq<nat>, k: nat)
    requires Ascending(a) && k < |a|
    ensures CountFrom(a, a[k]) >= |a| - k
  {
    hide CountFrom;
    assert a == a[..k] + a[k..];
    CountSplit(a[..k], a[k..], a[k]);
    CountAll(a[k..], a[k]);
  }

  lemma AbovePosition(a: seq<nat>, k: nat)
    requires Ascending(a) && k < |a|
    ensures CountFrom(a, a[k] + 1) < |a| - k
  {
    hide CountFrom;
    assert a == a[..k + 1] + a[k + 1..];
    CountSplit(a[..k + 1], a[k + 1..], a[k] + 1);
    CountAll(a[..k + 1], a[k] + 1);
    CountAll(a[k + 1..], a[k] + 1);
  }

  /** The values of a map, one for each key. */
  method ValuesOf(m: map<Name, nat>) returns (values: seq<nat>)
    ensures |values| == |m|
    ensures forall v :: CountFrom(values, v) == |Backers(m, v)|
  {
    values := [];
    var rest := m.Keys;
    while rest != {}
      invariant rest <= m.Keys && |values| + |rest| == |m.Keys|
      invariant forall v :: CountFrom(values, v) == |Backers(m, v) - rest|
    {
      var p :| p in rest;
      ghost var was := values;
      values := values + [m[p]];
      forall v ensures CountFrom(values, v) == |Backers(m, v) - (rest - {p})| {
        CountSplit(was, [m[p]], v);
        if m[p] >= v {
          assert Backers(m, v) - (rest - {p}) == (Backers(m, v) - rest) + {p};
        } else {
          assert Backers(m, v) - (rest - {p}) == Backers(m, v) - rest;
        }
      }
      rest := rest - {p};
    }
    assert forall v :: Backers(m, v) - {} == Backers(m, v);
    assert |m| == |m.Keys|;
  }

  method CalcLastIrreversible(m: map<Name, nat>) returns (r: nat)
    ensures r == LastIrreversible(m)
  {
    var values := ValuesOf(m);
    if |values| == 0 {
      assert m == map[];
      return 0;
    }
    var sorted := Sort(values);
    r := sorted[(|sorted| - 1) / 3];
    ThirdOfSorted(sorted);
    assert |m| == |sorted| && m != map[];
    LastIrreversibleUnique(m, r);
  }

  method CarryOver(m: map<Name, nat>, producers: seq<ProducerKey>, initial: nat) returns (r: map<Name, nat>)
    ensures r == Carried(m, producers, initial)
  {
    r := map[];
    for i := 0 to |producers|
      invariant r == Carried(m, producers[..i], initial)
    {
      var p := producers[i].name;
      assert producers[..i + 1] == producers[..i] + [producers[i]];
      if p in m {
        r := r[p := m[p]];
      } else {
        r := r[p := initial];
      }
    }
    assert producers[..|producers|] == producers;
  }

  method ShuffleProducers(producers: seq<ProducerKey>, from: nat, seed: nat) returns (r: seq<ProducerKey>)
    requires from <= |producers|
    ensures r == Shuffled(producers, from, XorShift(seed))
  {
    var a := new ProducerKey[|producers|](i requires 0 <= i < |producers| => producers[i]);
    assert a[..] == producers;
    ShuffleInPlace(a, from, XorShift(seed));
    r := a[..];
  }

  /** The template's window is not longer than its chain. */
  lemma TemplateOk(s: State, when: nat)
    requires Usable(s)
    ensures var g := HeaderState.GenerateNext(s, when);
      g.Ok? ==> |g.value.confirmCount| <= g.value.blockNum == s.blockNum + 1
  {
    hide LastIrreversible;
  }

  lemma SigningKeyStays(g: State, h: Header)
    requires |g.confirmCount| <= g.blockNum && Bytes(g.confirmCount)
    ensures HeaderState.Finish(g, h).Ok? ==> HeaderState.Finish(g, h).value.signingKey == g.signingKey
  {
    hide Confirm, Shuffled, Carried, Displacement;
  }

  // ---------------------------------------------------------------- the object

  class BlockHeaderState {
    var id: BlockId
    var blockNum: nat
    var slot: nat
    var producer: Name
    var proposed: nat
    var irreversible: nat
    var bft: nat
    var pendingLib: nat
    var shuffleSlot: nat
    var pending: Schedule
    var active: Schedule
    var lastProduced: map<Name, nat>
    var lastImplied: map<Name, nat>
    var signingKey: Key
    var confirmCount: seq<nat>

    ghost function View(): State
      reads this
    {
      State(id, blockNum, slot, producer, proposed, irreversible, bft, pendingLib, shuffleSlot,
            pending, active, lastProduced, lastImplied, signingKey, confirmCount)
    }

    constructor (s: State)
      ensures View() == s
    {
      id, blockNum, slot, producer := s.id, s.blockNum, s.slot, s.producer;
      proposed, irreversible, bft := s.proposed, s.irreversible, s.bft;
      pendingLib, shuffleSlot, pending, active := s.pendingLib, s.shuffleSlot, s.pending, s.active;
      lastProduced, lastImplied := s.lastProduced, s.lastImplied;
      signingKey, confirmCount := s.signingKey, s.confirmCount;
    }

    method GenerateNext(when: nat) returns (r: Result<BlockHeaderState, Error>)
      requires active.producers != [] && Bytes(confirmCount)
      ensures r.Ok? ==> fresh(r.value) && HeaderState.GenerateNext(View(), when) == Ok(r.value.View())
      ensures r.Err? ==> HeaderState.GenerateNext(View(), when) == Err(r.error)
    {
      hide LastIrreversible;
      if when != 0 && when <= slot {
        return Err(NotLater);
      }
      var at := if when != 0 then when else slot + 1;
      var key := active.producers[(at - (shuffleSlot + 1)) % |active.producers|];
      var implied := lastImplied[key.name := proposed];
      var lib := CalcLastIrreversible(implied);
      var required := |active.producers| * 2 / 3 + 1;
      var counts := confirmCount;
      if |counts| >= MAX_TRACKED {
        counts := counts[1..];
      }
      counts := counts + [required % 256];
      var result := new BlockHeaderState(
        State(id, blockNum + 1, at, key.name, proposed, lib, bft, pendingLib, shuffleSlot, pending, active,
              lastProduced[key.name := blockNum + 1], implied, key.key, counts));
      r := Ok(result);
    }

    method SetConfirmed(confirmed: nat)
      requires |confirmCount| <= blockNum && Bytes(confirmCount)
      modifies this
      ensures View() == HeaderState.SetConfirmed(old(View()), confirmed)
    {
      hide Confirm;
      CountConfirmations(confirmed + 1);
    }

    /** Walks back from the newest counter; the first one that reaches zero moves the proposed number. */
    method CountConfirmations(steps: nat)
      requires |confirmCount| <= blockNum && Bytes(confirmCount)
      modifies this`confirmCount, this`proposed
      ensures Confirmation(confirmCount, proposed)
           == Confirm(old(confirmCount), |old(confirmCount)| - 1, steps, blockNum, old(proposed))
    {
      var i := |confirmCount| - 1;
      var left := steps;
      while i >= 0 && left > 0
        invariant -1 <= i < |confirmCount| <= blockNum && Bytes(confirmCount) && proposed == old(proposed)
        invariant Confirm(confirmCount, i, left, blockNum, proposed)
               == Confirm(old(confirmCount), |old(confirmCount)| - 1, steps, blockNum, proposed)
        decreases left
      {
        var down := Dec8(confirmCount[i]);
        if down == 0 {
          proposed := blockNum - (|confirmCount| - 1 - i);
          confirmCount := confirmCount[i + 1..];
          return;
        }
        confirmCount := confirmCount[i := down];
        i := i - 1;
        left := left - 1;
      }
    }

    method UpdateActiveSchedule() returns (promoted: Result<bool, Error>)
      modifies this
      ensures promoted.Ok? ==> HeaderState.UpdateActiveSchedule(old(View())) == Ok((View(), promoted.value))
      ensures promoted.Err? ==> unchanged(this) && HeaderState.UpdateActiveSchedule(old(View())) == Err(promoted.error)
    {
      hide Shuffled, Displacement, Promoted;
      if pending.producers != [] && irreversible >= pendingLib {
        Promote();
        return Ok(true);
      }
      var n := |active.producers|;
      if n == 0 { return Err(NoActiveProducers); }
      if slot <= shuffleSlot { return Err(WrongShuffleSlot); }
      var next := shuffleSlot + n;
      if slot >= next {
        var displacement := Displacement(slot, next, n);
        var shuffled := ShuffleProducers(active.producers, displacement, next);
        active := active.(producers := shuffled);
        shuffleSlot := slot - displacement;
      }
      return Ok(false);
    }

    /** Makes the pending schedule the active one, shuffled, and carries over what its producers had done. */
    method Promote()
      requires PromotionDue(View())
      modifies this
      ensures View() == Promoted(old(View()))
    {
      hide Shuffled, Carried;
      active := pending;
      pending := pending.(producers := []);
      shuffleSlot := slot;
      var shuffled := ShuffleProducers(active.producers, 0, shuffleSlot);
      active := active.(producers := shuffled);
      CarryMaps();
      lastProduced := lastProduced[producer := blockNum];
    }

    /** Rebuilds both maps for the producers now active. */
    method CarryMaps()
      modifies this`lastProduced, this`lastImplied
      ensures lastProduced == Carried(old(lastProduced), active.producers, irreversible)
      ensures lastImplied == Carried(old(lastImplied), active.producers, irreversible)
    {
      var produced := CarryOver(lastProduced, active.producers, irreversible);
      var implied := CarryOver(lastImplied, active.producers, irreversible);
      lastProduced, lastImplied := produced, implied;
    }

    method SetNewProducers(schedule: Schedule) returns (r: Result<(), Error>)
      modifies this
      ensures r.Ok? ==> HeaderState.SetNewProducers(old(View()), schedule) == Ok(View())
      ensures r.Err? ==> unchanged(this) && HeaderState.SetNewProducers(old(View()), schedule) == Err(r.error)
    {
      if schedule.version != active.version + 1 { return Err(WrongPendingVersion); }
      if pending.producers != [] { return Err(PendingExists); }
      pending := schedule;
      pendingLib := blockNum;
      return Ok(());
    }

    /** Confirmations and schedules, once the header matches its template. */
    method Finish(h: Header) returns (r: Result<(), Error>)
      requires |confirmCount| <= blockNum && Bytes(confirmCount)
      modifies this
      ensures r.Ok? ==> HeaderState.Finish(old(View()), h) == Ok(View()) && signingKey == old(signingKey)
      ensures r.Err? ==> HeaderState.Finish(old(View()), h) == Err(r.error)
    {
      SigningKeyStays(View(), h);
      hide HeaderState.SetConfirmed, HeaderState.UpdateActiveSchedule;
      SetConfirmed(h.confirmed);
      var promoted := UpdateActiveSchedule();
      if promoted.Err? { return Err(promoted.error); }
      if h.newProducers.Some? {
        if promoted.value { return Err(PromotedAndProposed); }
        var proposing := SetNewProducers(h.newProducers.value);
        if proposing.Err? { return Err(proposing.error); }
      }
      id := h.id;
      return Ok(());
    }

    method Next(h: Header, skipSignee: bool) returns (r: Result<BlockHeaderState, Error>)
      requires Usable(View())
      ensures r.Ok? ==> fresh(r.value) && HeaderState.Next(View(), h, skipSignee) == Ok(r.value.View())
      ensures r.Err? ==> HeaderState.Next(View(), h, skipSignee) == Err(r.error)
    {
      TemplateOk(View(), h.slot);
      hide HeaderState.GenerateNext, HeaderState.Finish;
      if h.slot == 0 { return Err(EmptyTimestamp); }
      if h.extensions != 0 { return Err(UnsupportedExtensions); }
      if h.slot <= slot { return Err(NotLater); }
      if h.previous != id { return Err(Unlinkable); }
      var generated := GenerateNext(h.slot);
      if generated.Err? { return generated; }
      var result := generated.value;
      if result.producer != h.producer { return Err(WrongProducer); }
      if active.version != h.scheduleVersion { return Err(WrongScheduleVersion); }
      if h.producer in lastProduced {
        if lastProduced[h.producer] >= Sub32(result.blockNum, h.confirmed) { return Err(DoubleConfirm); }
      }
      var finished := result.Finish(h);
      if finished.Err? { return Err(finished.error); }
      if !skipSignee && result.signingKey != h.signee { return Err(WrongSigningKey); }
      return Ok(result);
    }
  }
}
