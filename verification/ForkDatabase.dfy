/** The fork database: an index of block states, the best head, and the blocks announced as irreversible. */
module ForkDatabase {
  import opened Wrappers
  import opened Basics
  import opened ForkTree
  import opened ForkPruning
  import opened ForkBft
  import opened ForkRuns

  datatype Error =
    | NoHead
    | UnlinkableBlock
    | DuplicateBlock
    | KnownBlock
    | BlockNotFound
    | DoubleConfirm
    | NotInSchedule
    | WrongSigningKey

  // ---------------------------------------------------------------- choosing by the orders

  method FindBest(ix: Index) returns (head: Option<BlockId>)
    ensures HeadOk(ix, head)
  {
    head := None;
    var rest := ix.Keys;
    while rest != {}
      invariant rest <= ix.Keys
      invariant if rest == ix.Keys then head == None else head.Some? && head.value in ix
      invariant head.Some? ==> forall x :: x in ix && x !in rest ==> !Better(ix[x], ix[head.value])
    {
      var x :| x in rest;
      if head.None? || Better(ix[x], ix[head.value]) {
        head := Some(x);
      }
      rest := rest - {x};
    }
  }

  method FindOldest(ix: Index) returns (o: BlockId)
    requires ix != map[]
    ensures Oldest(ix, o)
  {
    o :| o in ix;
    var rest := ix.Keys - {o};
    while rest != {}
      invariant rest <= ix.Keys && o in ix
      invariant forall x :: x in ix && x !in rest ==> !Older(ix[x], ix[o])
    {
      var x :| x in rest;
      if Older(ix[x], ix[o]) {
        o := x;
      }
      rest := rest - {x};
    }
  }

  // ---------------------------------------------------------------- the work queue of removal

  /** x got into the queue as the start or as a child of a block taken out. */
  predicate Placed(ix: Index, done: set<BlockId>, id: BlockId, x: BlockId)
  {
    x == id || (x in ix && ix[x].previous in done)
  }

  /** `done` has been taken out of ix; every child of a block of `done` has been queued. */
  ghost predicate QueueOk(ix: Index, done: set<BlockId>, queued: set<BlockId>, id: BlockId)
  {
    && id in queued && done <= queued
    && (done != {} ==> id in done)
    && (forall x :: x in queued ==> Descends(ix, x, id))
    && (forall x {:trigger Placed(ix, done, id, x)} :: x in queued ==> Placed(ix, done, id, x))
    && (forall y :: y in ix && ix[y].previous in done ==> y in queued)
  }

  lemma QueueStart(ix: Index, id: BlockId)
    ensures QueueOk(ix, {}, {id}, id)
  {
    DescendsSelf(ix, id);
  }

  lemma QueueStep(ix: Index, done: set<BlockId>, queued: set<BlockId>, id: BlockId, at: BlockId, children: set<BlockId>)
    requires QueueOk(ix, done, queued, id) && at in queued && at !in done && (done == {} ==> at == id)
    requires children == set y | y in ix && y !in done && y != at && ix[y].previous == at
    ensures QueueOk(ix, done + {at}, queued + children, id)
    ensures children !! queued
  {
    forall y | y in children ensures y !in queued {
      assert y in queued ==> Placed(ix, done, id, y);
    }
    forall y | y in children ensures Descends(ix, y, id) {
      DescendsUp(ix, y, id);
    }
    forall x | x in queued + children ensures Placed(ix, done + {at}, id, x) {
      if x in queued { assert Placed(ix, done, id, x); }
    }
  }

  lemma QueueDone(ix: Index, done: set<BlockId>, id: BlockId)
    requires QueueOk(ix, done, done, id)
    ensures ix - done == Without(ix, id)
  {
    forall x, n: nat | Reaches(ix, x, id, n) ensures x in done {
      ReachedIsDone(ix, done, id, x, n);
    }
  }

  lemma {:induction false} ReachedIsDone(ix: Index, done: set<BlockId>, id: BlockId, x: BlockId, n: nat)
    requires QueueOk(ix, done, done, id) && Reaches(ix, x, id, n)
    ensures x in done
    decreases n
  {
    if n > 0 {
      ReachedIsDone(ix, done, id, ix[x].previous, n - 1);
    }
  }

  /** One turn of the removal loop: take the i-th queued block out of the index and queue its children. */
  method TakeOut(index: Index, queue: seq<BlockId>, i: nat, id: BlockId, ghost ix: Index, ghost done: set<BlockId>)
    returns (index': Index, queue': seq<BlockId>)
    requires i < |queue| && queue[0] == id && Distinct(queue)
    requires done == Elems(queue[..i]) && index == ix - done
    requires QueueOk(ix, done, Elems(queue), id)
    ensures queue <= queue' && Distinct(queue')
    ensures done + {queue[i]} == Elems(queue'[..i + 1]) && index' == ix - (done + {queue[i]})
    ensures QueueOk(ix, done + {queue[i]}, Elems(queue'), id)
    ensures queue' == queue || ix.Keys - Elems(queue') < ix.Keys - Elems(queue)
  {
    hide QueueOk;
    var at := queue[i];
    index' := index - {at};
    var found := set y | y in index' && index'[y].previous == at;
    var children := Listed(found);
    assert i > 0 ==> queue[0] in Elems(queue[..i]);
    QueueStep(ix, done, Elems(queue), id, at, found);
    assert Elems(children) == found;
    Appended(queue, i, children, ix.Keys);
    queue' := queue + children;
  }

  lemma Appended(queue: seq<BlockId>, i: nat, children: seq<BlockId>, keys: set<BlockId>)
    requires i < |queue| && Distinct(queue) && Distinct(children)
    requires Elems(children) !! Elems(queue) && Elems(children) <= keys
    ensures Distinct(queue + children) && Elems(queue + children) == Elems(queue) + Elems(children)
    ensures Elems((queue + children)[..i + 1]) == Elems(queue[..i]) + {queue[i]}
    ensures children == [] || keys - Elems(queue + children) < keys - Elems(queue)
  {
    DistinctConcat(queue, children);
    assert (queue + children)[..i + 1] == queue[..i] + [queue[i]];
    if children != [] {
      assert children[0] in Elems(children) && children[0] in keys - Elems(queue);
    }
  }

  // ---------------------------------------------------------------- the announced blocks

  class ForkDatabase {
    var index: Index
    var head: Option<BlockId>
    /** The blocks passed to the `irreversible` signal, in order. */
    var log: seq<Block>
    /** The block that the oldest blocks of the index are children of. */
    ghost var rootId: BlockId
    ghost var rootNum: nat

    ghost predicate Valid()
      reads this
    {
      Hangs(Value(), rootId, rootNum)
    }

    ghost function Value(): Db
      reads this
    {
      Db(index, log)
    }

    constructor (genesis: Block)
      requires genesis.num > 0 && genesis.previous != genesis.id
      ensures Valid() && index == map[genesis.id := genesis] && head == Some(genesis.id) && log == []
      ensures HeadOk(index, head)
    {
      index := map[genesis.id := genesis];
      head := Some(genesis.id);
      log := [];
      rootId, rootNum := genesis.previous, genesis.num - 1;
      new;
      assert genesis.id in index;
    }

    /** Removes a block and everything built on it, with a work queue. */
    method Remove(id: BlockId)
      modifies this`index, this`head
      ensures index == Without(old(index), id) && Acts(old(Value()), Removing(id), Value())
      ensures HeadOk(index, head)
      ensures old(Valid()) ==> Valid()
    {
      hide QueueOk, Without, HeadOk, Linked, Chain;
      if Linked(index, rootId, rootNum) {
        WithoutLinked(index, rootId, rootNum, id);
      }
      RemoveBlocks(id);
      head := FindBest(index);
    }

    method RemoveBlocks(id: BlockId)
      modifies this`index
      ensures index == Without(old(index), id)
    {
      hide QueueOk, Without;
      var queue := [id];
      var i := 0;
      ghost var done := {};
      QueueStart(index, id);
      assert Elems(queue) == {id};
      while i < |queue|
        invariant i <= |queue| && queue != [] && queue[0] == id && Distinct(queue)
        invariant done == Elems(queue[..i]) && index == old(index) - done
        invariant QueueOk(old(index), done, Elems(queue), id)
        decreases old(index).Keys - Elems(queue), |queue| - i
      {
        ghost var at := queue[i];
        index, queue := TakeOut(index, queue, i, id, old(index), done);
        done := done + {at};
        i := i + 1;
      }
      assert queue[..i] == queue;
      QueueDone(old(index), done, id);
    }

    /** Removes every block of the given number, and what is built on it. */
    method RemoveNumber(num: nat, ghost ix: Index, ghost h: BlockId)
      requires Linked(ix, rootId, rootNum) && (ix == map[] || num <= rootNum + 1)
      requires h in ix ==> ix[h].num == num
      requires index == Rest(ix, h, {})
      modifies this`index, this`head
      ensures index == Rest(ix, h, Others(ix, h, num))
      ensures (head == old(head) && index == old(index)) || HeadOk(index, head)
    {
      hide Without, Rest, HeadOk;
      var rest := set y | y in index && index[y].num == num;
      ghost var gone := {};
      RestMembers(ix, h, num);
      ghost var all := Others(ix, h, num);
      assert rest == all;
      while rest != {}
        invariant gone + rest == all && gone !! rest
        invariant index == Rest(ix, h, gone)
        invariant (head == old(head) && index == old(index)) || HeadOk(index, head)
      {
        var y :| y in rest;
        LinkedDescends(ix, rootId, rootNum, y);
        WithoutFromRest(ix, rootId, rootNum, h, gone, y);
        Remove(y);
        rest := rest - {y};
        gone := gone + {y};
      }
      assert gone == all;
    }

    /**
     Announces h as irreversible and forgets it together with every block that is not built on it.
     Older blocks, if any, are pruned first.
     */
    method Prune(h: Block) returns (ghost older: seq<Block>)
      requires Valid() && (h.id in index ==> index[h.id] == h)
      modifies this
      ensures Valid()
      ensures Prunes(old(index), h.num, older, Kept(old(index), older)) && Done(Kept(old(index), older), h.num)
      ensures var mid := Kept(old(index), older);
        && log == old(log) + older + (if h.id in mid then [h] else [])
        && index == if h.id in mid then Below(mid, h.id) else if HasNumber(mid, h.num) then map[] else mid
      ensures h.num <= old(rootNum) + 1 ==> older == []
      ensures h.num <= old(rootNum) + 1 && HeadOk(old(index), old(head)) && old(head) != Some(h.id) ==>
        HeadOk(index, head)
      decreases h.num
    {
      hide Linked, Chain, Prunes, Below, Kept, HeadOk, HasNumber;
      PruneOlder(h.num);
      older := log[|old(log)|..];
      assert log == old(log) + older;
      KeptIsPart(old(index), older);
      PruneNumber(h);
    }

    /** Pruning h when no older block is left. */
    method PruneNumber(h: Block)
      requires Valid() && (h.id in index ==> index[h.id] == h)
      requires Done(index, h.num)
      modifies this
      ensures Valid()
      ensures log == old(log) + if h.id in old(index) then [h] else []
      ensures index == if h.id in old(index) then Below(old(index), h.id)
                       else if HasNumber(old(index), h.num) then map[] else old(index)
      ensures HeadOk(old(index), old(head)) && old(head) != Some(h.id) ==> HeadOk(index, head)
    {
      hide Below, Linked;
      ghost var ix := index;
      OldestAreRoots(ix, rootId, rootNum, h.num);
      RestOfNone(ix, h.id);
      if h.id in index {
        log := log + [index[h.id]];
        index := index - {h.id};
      }
      RemoveNumber(h.num, ix, h.id);
      PrunedIndex(ix, rootId, rootNum, h.id, h.num);
      if h.id in ix {
        LogGrows(old(log), h, rootId, rootNum);
        rootId, rootNum := h.id, h.num;
      } else {
        EmptyLinked(rootId, rootNum);
      }
      HeadKept(ix, index, old(head));
    }

    /** Prunes the oldest block until none is older than the given number. */
    method PruneOlder(num: nat)
      requires Valid()
      modifies this
      ensures Valid() && old(log) <= log
      ensures Prunes(old(index), num, log[|old(log)|..], index) && Done(index, num)
      ensures index == Kept(old(index), log[|old(log)|..])
      ensures num <= old(rootNum) + 1 ==> unchanged(this)
      decreases num, 1
    {
      hide Linked, Chain, Prunes, Extends, Below, Oldest;
      ExtendsStart(index, num);
      assert log[|log|..] == [];
      while index != map[]
        invariant Valid() && old(log) <= log
        invariant Extends(old(index), num, log[|old(log)|..], index)
        invariant num <= old(rootNum) + 1 ==> unchanged(this)
        decreases index.Keys
      {
        var o := FindOldest(index);
        if index[o].num >= num {
          OldestDone(index, o, num);
          break;
        }
        PruneOldest(o, num, old(index), old(log));
      }
      ExtendsEnd(old(index), num, log[|old(log)|..], index);
      PrunesKeeps(old(index), old(rootId), old(rootNum), num, log[|old(log)|..], index);
    }

    /** Prunes a block that no other is older than. */
    method PruneOldest(o: BlockId, lib: nat, ghost ix: Index, ghost from: seq<Block>)
      requires Valid() && Oldest(index, o) && index[o].num < lib && from <= log
      requires Extends(ix, lib, log[|from|..], index)
      modifies this
      ensures Valid() && log == old(log) + [old(index)[o]] && index == Below(old(index), o)
      ensures old(index)[o].num == old(rootNum) + 1 && rootNum == old(rootNum) + 1
      ensures o !in index && index.Keys < old(index).Keys
      ensures Extends(ix, lib, log[|from|..], index)
      ensures HeadOk(old(index), old(head)) && old(head) != Some(o) ==> HeadOk(index, head)
      decreases lib, 0
    {
      hide Linked, Chain, Prunes, Extends, Below, Oldest, HeadOk;
      OldestIsRoot(index, rootId, rootNum, o);
      IdIsKey(index, rootId, rootNum, o);
      ExtendsStep(ix, lib, log[|from|..], index, o);
      BelowIsPart(index, o);
      NotBelowItself(index, o);
      ghost var older := Prune(index[o]);
      assert log[|from|..] == old(log)[|from|..] + [old(index)[o]];
      assert o in old(index).Keys;
    }

    /** Adds a block state, makes a best block the head, and prunes at most ten irreversible blocks. */
    method Add(n: Block, skipValidatePrevious: bool) returns (r: Result<(), Error>, ghost best: BlockId)
      requires Valid() && LibBelow(index)
      requires skipValidatePrevious ==> n.previous in index
      requires n.previous in index ==> n.num == index[n.previous].num + 1 && n.dpos <= n.num
      requires n.id == rootId ==> n.num == rootNum
      modifies this
      ensures r == if old(head).None? then Err(NoHead)
                   else if n.previous !in old(index) then Err(UnlinkableBlock)
                   else if n.id in old(index) then Err(DuplicateBlock)
                   else Ok(())
      ensures r.Err? ==> unchanged(this)
      ensures r.Ok? ==> Valid() && LibBelow(index) && Maximal(old(index)[n.id := n], best)
      ensures r.Ok? ==> old(log) <= log && Pruned10(old(index)[n.id := n], best, log[|old(log)|..], index)
      ensures r.Ok? ==> index == Kept(old(index)[n.id := n], log[|old(log)|..])
      ensures r.Ok? && best in index ==> HeadOk(index, head)
      ensures r.Ok? && Favoured10(old(index)[n.id := n], old(rootNum), best) ==> best in index
    {
      best := n.id;
      if head.None? { return Err(NoHead), best; }
      if !skipValidatePrevious {
        if n.previous !in index { return Err(UnlinkableBlock), best; }
      }
      if n.id in index { return Err(DuplicateBlock), best; }
      hide Linked, Chain, LibBelow, HeadOk, Pruned10, Favoured10, Kept;
      Insert(n);
      HeadIsIn(index, head);
      best := head.value;
      PruneIrreversible();
      r := Ok(());
    }

    /** Puts a block into the index and makes a best block the head. */
    method Insert(n: Block)
      requires Valid() && LibBelow(index)
      requires n.id !in index && n.previous in index && n.num == index[n.previous].num + 1 && n.dpos <= n.num
      requires n.id == rootId ==> n.num == rootNum
      modifies this`index, this`head
      ensures Valid() && LibBelow(index)
      ensures index == old(index)[n.id := n] && HeadOk(index, head) && index != map[]
    {
      hide Linked, Chain, LibBelow, HeadOk;
      InsertLinked(index, rootId, rootNum, n);
      InsertLib(index, n);
      index := index[n.id := n];
      assert n.id in index;
      head := FindBest(index);
    }

    /** Prunes the oldest block, up to ten times, while it is older than the head's irreversible number. */
    method PruneIrreversible()
      requires Valid() && LibBelow(index) && index != map[] && HeadOk(index, head)
      modifies this
      ensures Valid() && LibBelow(index) && old(log) <= log
      ensures Pruned10(old(index), old(head).value, log[|old(log)|..], index)
      ensures index == Kept(old(index), log[|old(log)|..])
      ensures old(head).value in index ==> HeadOk(index, head)
      ensures Favoured10(old(index), old(rootNum), old(head).value) ==> old(head).value in index
    {
      HeadIsIn(index, head);
      var lib := index[head.value].dpos;
      assert lib <= index[head.value].num;
      ghost var ix, best := index, head.value;
      hide Linked, Chain, Prunes, HeadOk, LibBelow, Maximal, Favoured, Kept, Done;
      PruneUpTo(lib, best);
      PruningEnds(ix, old(rootId), old(rootNum), best, lib, log[|old(log)|..], index);
    }

    method PruneUpTo(lib: nat, ghost best: BlockId)
      requires Valid() && LibBelow(index) && HeadOk(index, head) && best in index && lib == index[best].dpos
      modifies this
      ensures Valid() && LibBelow(index) && old(log) <= log
      ensures var announced := log[|old(log)|..];
        Prunes(old(index), lib, announced, index) && |announced| <= 10 && (|announced| == 10 || Done(index, lib))
      ensures best in index ==> HeadOk(index, head)
    {
      hide Linked, Chain, Prunes, Extends, Below, Oldest, HeadOk, LibBelow;
      ExtendsStart(index, lib);
      assert log[|log|..] == [];
      for i := 0 to 10
        invariant Valid() && LibBelow(index) && old(log) <= log && |log| == |old(log)| + i
        invariant Extends(old(index), lib, log[|old(log)|..], index)
        invariant best in index ==> HeadOk(index, head) && lib == index[best].dpos
      {
        if index == map[] { break; }
        var o := FindOldest(index);
        if index[o].num >= lib {
          OldestDone(index, o, lib);
          break;
        }
        BelowIsPart(index, o);
        BelowLib(index, o);
        HeadKeptOrGone(index, head, best);
        PruneOldest(o, lib, old(index), old(log));
      }
      ExtendsEnd(old(index), lib, log[|old(log)|..], index);
    }

    /** Adds the state that a signed block leads to from its parent's state. */
    method AddSigned(n: Block) returns (r: Result<(), Error>, ghost best: BlockId)
      requires Valid() && LibBelow(index) && Follows(index, n)
      requires n.id == rootId ==> n.num == rootNum
      modifies this
      ensures r == if old(head).None? then Err(NoHead)
                   else if n.id in old(index) then Err(KnownBlock)
                   else if n.previous !in old(index) then Err(UnlinkableBlock)
                   else Ok(())
      ensures r.Err? ==> unchanged(this)
      ensures r.Ok? ==> Valid() && LibBelow(index) && Maximal(old(index)[n.id := n], best)
      ensures r.Ok? ==> old(log) <= log && Pruned10(old(index)[n.id := n], best, log[|old(log)|..], index)
      ensures r.Ok? ==> index == Kept(old(index)[n.id := n], log[|old(log)|..])
      ensures r.Ok? && best in index ==> HeadOk(index, head)
      ensures r.Ok? && Favoured10(old(index)[n.id := n], old(rootNum), best) ==> best in index
      ensures r.Ok? ==> Acts(old(Value()), Signed(n), Value())
      ensures Ordered(old(index)) ==> Ordered(index)
    {
      best := n.id;
      if head.None? { return Err(NoHead), best; }
      if n.id in index { return Err(KnownBlock), best; }
      if n.previous !in index { return Err(UnlinkableBlock), best; }
      hide Linked, Chain, LibBelow, HeadOk, Maximal, Ordered, Pruned10, Favoured10, Kept, Acts;
      NotAParent(index, rootId, rootNum, n);
      InsertOrdered(index, n);
      r, best := Add(n, true);
      SignedActs(old(Value()), n, best, Value());
      KeptIsPart(old(index)[n.id := n], log[|old(log)|..]);
      OrderedSubset(old(index)[n.id := n], index);
    }

    /** Records a producer's confirmation; with a quorum of them the block becomes BFT irreversible. */
    method AddConfirmation(id: BlockId, producer: Name, signatureOk: bool) returns (r: Result<(), Error>)
      requires Valid()
      modifies this`index
      ensures r == if id !in old(index) then Err(BlockNotFound)
                   else if producer in old(index)[id].confirmations then Err(DoubleConfirm)
                   else if producer !in old(index)[id].schedule then Err(NotInSchedule)
                   else if !signatureOk then Err(WrongSigningKey)
                   else Ok(())
      ensures r.Err? ==> unchanged(this)
      ensures Valid()
      ensures r.Ok? ==> Acts(old(Value()), Confirming(id, producer), Value())
      ensures r.Ok? ==> index == ConfirmedBy(old(index), id, producer)
      ensures r.Ok? && Ordered(old(index)) ==> index == Confirmed(old(index), id, producer)
      ensures Ordered(old(index)) ==> Ordered(index)
    {
      if id !in index { return Err(BlockNotFound); }
      var b := index[id];
      if producer in b.confirmations { return Err(DoubleConfirm); }
      if producer !in b.schedule { return Err(NotInSchedule); }
      if !signatureOk { return Err(WrongSigningKey); }
      hide Confirmed, ConfirmedBy, Ordered, Linked, Chain;
      Record(id, producer);
      return Ok(());
    }

    method Record(id: BlockId, producer: Name)
      requires Valid() && id in index
      modifies this`index
      ensures Valid() && index == ConfirmedBy(old(index), id, producer)
      ensures Ordered(old(index)) ==> index == Confirmed(old(index), id, producer) && Ordered(index)
    {
      hide Raised, Spread, Ordered, Linked, Chain, SameShape, Confirmed;
      LinkedNumbered(index, rootId, rootNum);
      if Ordered(index) { ConfirmedByIsConfirmed(index, id, producer); }
      RecordedShape(index, id, producer);
      SameShapeLinked(index, Recorded(index, id, producer), rootId, rootNum);
      index := index[id := index[id].(confirmations := index[id].confirmations + [producer])];
      var b := index[id];
      if b.bft < b.num && |b.confirmations| >= |b.schedule| * 2 / 3 + 1 {
        ghost var before := index;
        index := SetBftIrreversible(index, id);
        SameShapeLinked(before, index, rootId, rootNum);
      }
    }

    method MarkInCurrentChain(h: Block, inCurrentChain: bool) returns (r: Result<(), Error>)
      requires Valid() && (h.id in index ==> index[h.id] == h)
      modifies this`index
      ensures r == if h.inCurrentChain != inCurrentChain && h.id !in old(index) then Err(BlockNotFound) else Ok(())
      ensures Valid()
      ensures index == if h.id in old(index) then Marked(old(index), h.id, inCurrentChain) else old(index)
      ensures h.id in old(index) ==> Acts(old(Value()), Marking(h.id, inCurrentChain), Value())
    {
      if h.inCurrentChain == inCurrentChain {
        assert h.id in index ==> Marked(index, h.id, inCurrentChain) == index;
        return Ok(());
      }
      if h.id !in index { return Err(BlockNotFound); }
      index := index[h.id := index[h.id].(inCurrentChain := inCurrentChain)];
      SameShapeLinked(old(index), index, rootId, rootNum);
      return Ok(());
    }
  }

  // ---------------------------------------------------------------- what validity means

  /** Every block left in a valid database is newer than, and descends from, the last block announced. */
  lemma LeftDescendsFromAnnounced(db: ForkDatabase, x: BlockId)
    requires db.Valid() && db.log != [] && x in db.index
    ensures var last := db.log[|db.log| - 1];
      Descends(db.index, x, last.id) && db.index[x].num > last.num
  {
    LinkedDescends(db.index, db.rootId, db.rootNum, x);
  }

  lemma PruningEnds(ix: Index, rootId: BlockId, rootNum: nat, best: BlockId, lib: nat, announced: seq<Block>,
                    left: Index)
    requires Linked(ix, rootId, rootNum) && best in ix && lib == ix[best].dpos <= ix[best].num
    requires Prunes(ix, lib, announced, left) && |announced| <= 10 && (|announced| == 10 || Done(left, lib))
    ensures Pruned10(ix, best, announced, left) && left == Kept(ix, announced)
    ensures Favoured10(ix, rootNum, best) ==> best in left
  {
    hide Linked, Prunes, Kept, Done, Favoured;
    PrunesKeeps(ix, rootId, rootNum, lib, announced, left);
    if Favoured(ix, rootNum, best, lib, 10) { FavouredSurvives(ix, rootId, rootNum, best, lib, 10, announced, left); }
  }

  ghost predicate Favoured10(ix: Index, rootNum: nat, best: BlockId)
  {
    best in ix && Favoured(ix, rootNum, best, ix[best].dpos, 10)
  }

  lemma HeadIsIn(ix: Index, head: Option<BlockId>)
    requires ix != map[] && HeadOk(ix, head)
    ensures head.Some? && Maximal(ix, head.value)
  {
  }

  /**
   When the best block is still there, the head is as good, so it is not older than the best block's
   irreversible number.
   */
  lemma HeadKeptOrGone(ix: Index, head: Option<BlockId>, best: BlockId)
    requires LibBelow(ix) && ix != map[] && (best in ix ==> HeadOk(ix, head))
    ensures best in ix ==> head.Some? && head.value in ix && ix[head.value].num >= ix[best].dpos
  {
  }

  lemma InsertLib(ix: Index, n: Block)
    requires LibBelow(ix) && n.dpos <= n.num
    ensures LibBelow(ix[n.id := n])
  {
  }

  lemma BelowLib(ix: Index, o: BlockId)
    requires LibBelow(ix)
    ensures LibBelow(Below(ix, o))
  {
  }

  lemma OldestDone(ix: Index, o: BlockId, lib: nat)
    requires Oldest(ix, o) && ix[o].num >= lib
    ensures Done(ix, lib)
  {
  }

  lemma IdIsKey(ix: Index, rootId: BlockId, rootNum: nat, o: BlockId)
    requires Linked(ix, rootId, rootNum) && o in ix
    ensures ix[o].id == o
  {
  }

  lemma NotBelowItself(ix: Index, o: BlockId)
    ensures o !in Below(ix, o)
  {
  }

  /** When no block of a linked index is older than `num`, a block of that number is a root. */
  lemma OldestAreRoots(ix: Index, rootId: BlockId, rootNum: nat, num: nat)
    requires Linked(ix, rootId, rootNum) && forall x :: x in ix ==> ix[x].num >= num
    ensures ix == map[] || num <= rootNum + 1
    ensures forall x :: x in ix && ix[x].num == num ==> num == rootNum + 1 && ix[x].previous == rootId
  {
    if ix != map[] {
      var x :| x in ix;
      var r := RootOf(ix, rootId, rootNum, x);
    }
    forall x | x in ix && ix[x].num == num ensures num == rootNum + 1 && ix[x].previous == rootId {
      LinkedDescends(ix, rootId, rootNum, x);
    }
  }

  ghost function Pruned(ix: Index, h: BlockId, num: nat): Index
  {
    Rest(ix, h, Others(ix, h, num))
  }

  lemma PrunedRoot(ix: Index, rootId: BlockId, rootNum: nat, h: BlockId)
    requires Linked(ix, rootId, rootNum) && h in ix && ix[h].num == rootNum + 1
    ensures Pruned(ix, h, rootNum + 1) == Below(ix, h) && Linked(Below(ix, h), h, rootNum + 1)
    ensures forall x :: x in Below(ix, h) ==> ix[x].num > rootNum + 1
  {
    RestIsBelow(ix, rootId, rootNum, h);
    BelowLinked(ix, rootId, rootNum, h);
    hide Rest, Linked, Descends;
    forall x | x in Below(ix, h) ensures ix[x].num > rootNum + 1 {
      LinkedDescends(Below(ix, h), h, rootNum + 1, x);
    }
  }

  lemma PrunedNone(ix: Index, h: BlockId, num: nat)
    requires h !in ix && forall x :: x in ix ==> ix[x].num > num
    ensures Pruned(ix, h, num) == ix
  {
    assert Others(ix, h, num) == {};
    RestOfNone(ix, h);
  }

  predicate HasNumber(ix: Index, num: nat)
  {
    exists x :: x in ix && ix[x].num == num
  }

  lemma PrunedIndex(ix: Index, rootId: BlockId, rootNum: nat, h: BlockId, num: nat)
    requires Linked(ix, rootId, rootNum) && Done(ix, num)
    requires h in ix ==> ix[h].num == num
    ensures h in ix ==> Pruned(ix, h, num) == Below(ix, h) && Linked(Below(ix, h), h, num)
    ensures h !in ix ==> Pruned(ix, h, num) == if HasNumber(ix, num) then map[] else ix
    ensures forall x :: x in Pruned(ix, h, num) ==> x in ix && Pruned(ix, h, num)[x] == ix[x]
  {
    hide Rest, Linked, Descends;
    OldestAreRoots(ix, rootId, rootNum, num);
    if h in ix {
      PrunedRoot(ix, rootId, rootNum, h);
    } else if HasNumber(ix, num) {
      RestIsEmpty(ix, rootId, rootNum, h);
    } else {
      PrunedNone(ix, h, num);
    }
  }

  lemma EmptyLinked(rootId: BlockId, rootNum: nat)
    ensures Linked(map[], rootId, rootNum)
  {
  }

  /** A best head stays best when other blocks go. */
  lemma HeadKept(ix: Index, left: Index, head: Option<BlockId>)
    requires forall x :: x in left ==> x in ix && left[x] == ix[x]
    ensures HeadOk(ix, head) && head.Some? && head.value in left ==> HeadOk(left, head)
  {
  }

  lemma RestOfNone(ix: Index, h: BlockId)
    ensures Rest(ix, h, {}) == ix - {h}
  {
  }

  lemma RestMembers(ix: Index, h: BlockId, num: nat)
    ensures (set y | y in Rest(ix, h, {}) && Rest(ix, h, {})[y].num == num) == Others(ix, h, num)
  {
  }
}
