/**
 The fork database as a state machine on values: every action gives exactly the index and the log
 that the methods of ForkDatabase are proved to leave, and the theorems are about every run.
 */
module ForkRuns {
  import opened Basics
  import opened ForkTree
  import opened ForkPruning
  import opened ForkBft

  // ---------------------------------------------------------------- adding a block

  /** No block claims irreversibility beyond itself. */
  predicate LibBelow(ix: Index)
  {
    forall x :: x in ix ==> ix[x].dpos <= ix[x].num
  }

  /** What the loop over at most ten prunings does to the index, when it makes `best` the head first. */
  ghost predicate Pruned10(ix: Index, best: BlockId, announced: seq<Block>, left: Index)
  {
    && best in ix && Prunes(ix, ix[best].dpos, announced, left)
    && |announced| <= 10 && (|announced| == 10 || Done(left, ix[best].dpos))
  }

  /** The same for some best block. */
  ghost predicate PrunedFor(ix: Index, announced: seq<Block>, left: Index)
  {
    exists best :: Maximal(ix, best) && Pruned10(ix, best, announced, left)
  }

  /** The state next gives for a signed block: it inherits the BFT number and has no confirmations. */
  predicate Follows(ix: Index, n: Block)
  {
    n.previous in ix ==>
      && n.num == ix[n.previous].num + 1 && n.dpos <= n.num
      && n.bft == ix[n.previous].bft && n.confirmations == []
  }

  lemma InsertLinked(ix: Index, rootId: BlockId, rootNum: nat, n: Block)
    requires Linked(ix, rootId, rootNum) && n.id !in ix && n.previous in ix && n.num == ix[n.previous].num + 1
    requires n.id == rootId ==> n.num == rootNum
    ensures Linked(ix[n.id := n], rootId, rootNum)
  {
    LinkedDescends(ix, rootId, rootNum, n.previous);
  }

  lemma NotAParent(ix: Index, rootId: BlockId, rootNum: nat, n: Block)
    requires Linked(ix, rootId, rootNum) && n.id !in ix && n.previous in ix && n.num == ix[n.previous].num + 1
    requires n.id == rootId ==> n.num == rootNum
    ensures forall x :: x in ix ==> ix[x].previous != n.id
  {
    LinkedDescends(ix, rootId, rootNum, n.previous);
  }

  lemma InsertOrdered(ix: Index, n: Block)
    requires n.id !in ix && n.previous in ix && n.bft >= ix[n.previous].bft
    requires forall x :: x in ix ==> ix[x].previous != n.id
    ensures Ordered(ix) ==> Ordered(ix[n.id := n])
  {
  }

  lemma OrderedSubset(a: Index, b: Index)
    requires forall x :: x in b ==> x in a && b[x] == a[x]
    ensures Ordered(a) ==> Ordered(b)
  {
  }

  lemma KeptIsPart(ix: Index, announced: seq<Block>)
    ensures forall x :: x in Kept(ix, announced) ==> x in ix && Kept(ix, announced)[x] == ix[x]
  {
  }

  // ---------------------------------------------------------------- confirming a block

  function Recorded(ix: Index, id: BlockId, producer: Name): Index
    requires id in ix
  {
    ix[id := ix[id].(confirmations := ix[id].confirmations + [producer])]
  }

  /** The index after a producer's confirmation of a block has been accepted. */
  ghost function Confirmed(ix: Index, id: BlockId, producer: Name): Index
    requires id in ix
  {
    var recorded := Recorded(ix, id, producer);
    var b := recorded[id];
    if b.bft < b.num && |b.confirmations| >= |b.schedule| * 2 / 3 + 1 then Raised(recorded, id) else recorded
  }

  /** The same as the code computes it, with the cut-off, whatever the numbers in the index are. */
  ghost function ConfirmedBy(ix: Index, id: BlockId, producer: Name): Index
    requires id in ix
  {
    var recorded := Recorded(ix, id, producer);
    var b := recorded[id];
    if b.bft < b.num && |b.confirmations| >= |b.schedule| * 2 / 3 + 1 then Spread(recorded, id) else recorded
  }

  /** On an ordered index the two agree, and the index stays ordered. */
  lemma ConfirmedByIsConfirmed(ix: Index, id: BlockId, producer: Name)
    requires id in ix && Ordered(ix) && Numbered(ix)
    ensures ConfirmedBy(ix, id, producer) == Confirmed(ix, id, producer) && Ordered(Confirmed(ix, id, producer))
  {
    hide Raised, Spread, Ordered;
    var recorded := Recorded(ix, id, producer);
    RecordedShape(ix, id, producer);
    CutOffIsSound(recorded, id);
    if recorded[id].bft < recorded[id].num { RaisedOrdered(recorded, id); }
  }

  /** Confirmations come from distinct members of the block's schedule. */
  predicate ConfirmationsOk(b: Block)
  {
    Distinct(b.confirmations) && forall p :: p in b.confirmations ==> p in b.schedule
  }

  lemma RecordedShape(ix: Index, id: BlockId, producer: Name)
    requires id in ix
    ensures SameShape(ix, Recorded(ix, id, producer))
    ensures Ordered(ix) ==> Ordered(Recorded(ix, id, producer))
  {
  }

  lemma DistinctConcat(a: seq<BlockId>, b: seq<BlockId>)
    requires Distinct(a) && Distinct(b) && Elems(a) !! Elems(b)
    ensures Distinct(a + b) && Elems(a + b) == Elems(a) + Elems(b)
  {
    forall j, k | 0 <= j < k < |a + b| ensures (a + b)[j] != (a + b)[k] {
      if j < |a| <= k {
        assert a[j] in Elems(a) && b[k - |a|] in Elems(b);
      }
    }
  }

  lemma {:induction false} DistinctSize(q: seq<BlockId>)
    requires Distinct(q)
    ensures |Elems(q)| == |q|
  {
    if q != [] {
      var front := q[..|q| - 1];
      DistinctSize(front);
      assert q == front + [q[|q| - 1]];
      assert Elems(q) == Elems(front) + {q[|q| - 1]};
    }
  }

  lemma RecordedKeeps(ix: Index, id: BlockId, producer: Name)
    requires Numbered(ix) && id in ix && ConfirmationsOk(ix[id])
    requires producer !in ix[id].confirmations && producer in ix[id].schedule
    ensures var r := Recorded(ix, id, producer);
      && Numbered(r) && (Ordered(ix) ==> Ordered(r)) && ConfirmationsOk(r[id]) && SameShape(ix, r)
      && |Elems(r[id].confirmations)| == |r[id].confirmations|
  {
    DistinctConcat(ix[id].confirmations, [producer]);
    DistinctSize(ix[id].confirmations + [producer]);
  }

  /**
   Accepting a confirmation keeps the confirmers distinct and scheduled, so a block whose BFT number
   it raises has been confirmed by more than two thirds of its schedule; and children stay at or
   above their parents.
   */
  lemma ConfirmedKeeps(ix: Index, id: BlockId, producer: Name)
    requires Numbered(ix) && Ordered(ix) && id in ix && ConfirmationsOk(ix[id])
    requires producer !in ix[id].confirmations && producer in ix[id].schedule
    ensures var r := Confirmed(ix, id, producer);
      && Ordered(r) && SameShape(ix, r) && ConfirmationsOk(r[id])
      && (forall x :: x in ix ==> SameVotes(ix, r, id, producer, x))
      && (Quorate(r[id]) ==> r[id].bft >= r[id].num)
      && forall x :: x in ix && r[x].bft != ix[x].bft ==>
        && Descends(ix, x, id) && ix[x].bft < r[x].bft == ix[id].num
        && |Elems(r[id].confirmations)| >= |ix[id].schedule| * 2 / 3 + 1
  {
    hide Descends, Numbered, Ordered, ConfirmationsOk, Raised;
    var recorded := Recorded(ix, id, producer);
    RecordedKeeps(ix, id, producer);
    var b := recorded[id];
    if b.bft < b.num && |b.confirmations| >= |b.schedule| * 2 / 3 + 1 {
      RaisedOrdered(recorded, id);
      RaisedVotes(recorded, id);
      forall x | Descends(recorded, x, id) ensures Descends(ix, x, id) {
        SameDescent(recorded, ix, x, id);
      }
    }
  }

  /** Raising changes BFT numbers only, to the block's number, and only of what is built on it. */
  lemma RaisedVotes(ix: Index, id: BlockId)
    requires id in ix && ConfirmationsOk(ix[id]) && ix[id].bft < ix[id].num
    ensures var r := Raised(ix, id);
      && r.Keys == ix.Keys && ConfirmationsOk(r[id]) && r[id].bft == ix[id].num
      && forall x :: x in ix ==>
        && r[x] == ix[x].(bft := r[x].bft)
        && (r[x].bft != ix[x].bft ==> Descends(ix, x, id) && ix[x].bft < r[x].bft == ix[id].num)
  {
    hide Descends;
    DescendsSelf(ix, id);
  }

  /** Block x has the same schedule and confirmations as before, but for the one added to block id. */
  predicate SameVotes(ix: Index, r: Index, id: BlockId, producer: Name, x: BlockId)
    requires x in ix
  {
    && x in r && r[x].schedule == ix[x].schedule && r[x].dpos == ix[x].dpos
    && r[x].confirmations == if x == id then ix[x].confirmations + [producer] else ix[x].confirmations
  }

  /** The index with the mark of one block set. */
  function Marked(ix: Index, id: BlockId, current: bool): Index
    requires id in ix
  {
    ix[id := ix[id].(inCurrentChain := current)]
  }

  // ---------------------------------------------------------------- runs

  datatype Db = Db(index: Index, log: seq<Block>)

  datatype Action =
    | Signed(n: Block)
    | Confirming(id: BlockId, producer: Name)
    | Marking(id: BlockId, current: bool)
    | Removing(id: BlockId)

  /** The action goes through and leads from s to t. Ids are not used again for a parent of known blocks. */
  ghost predicate Acts(s: Db, a: Action, t: Db)
  {
    match a
    case Signed(n) =>
      && n.id !in s.index && n.previous in s.index && Follows(s.index, n)
      && (forall x :: x in s.index ==> s.index[x].previous != n.id)
      && s.log <= t.log
      && PrunedFor(s.index[n.id := n], t.log[|s.log|..], t.index)
    case Confirming(id, producer) =>
      && id in s.index && producer !in s.index[id].confirmations && producer in s.index[id].schedule
      && t == Db(ConfirmedBy(s.index, id, producer), s.log)
    case Marking(id, current) =>
      id in s.index && t == Db(Marked(s.index, id, current), s.log)
    case Removing(id) =>
      t == Db(Without(s.index, id), s.log)
  }

  lemma SignedActs(s: Db, n: Block, best: BlockId, t: Db)
    requires n.id !in s.index && n.previous in s.index && Follows(s.index, n) && s.log <= t.log
    requires forall x :: x in s.index ==> s.index[x].previous != n.id
    requires Maximal(s.index[n.id := n], best) && Pruned10(s.index[n.id := n], best, t.log[|s.log|..], t.index)
    ensures Acts(s, Signed(n), t)
  {
  }

  /** A database with one block that nobody has confirmed. */
  predicate Fresh(s: Db, genesis: Block)
  {
    && genesis.num > 0 && genesis.previous != genesis.id && genesis.confirmations == []
    && s == Db(map[genesis.id := genesis], [])
  }

  ghost predicate IsRun(states: seq<Db>, actions: seq<Action>, genesis: Block)
  {
    && |states| == |actions| + 1 && Fresh(states[0], genesis)
    && forall i :: 0 <= i < |actions| ==> Acts(states[i], actions[i], states[i + 1])
  }

  // ---------------------------------------------------------------- the announced blocks

  /** The blocks announced so far form one chain: each is the parent of the next. */
  predicate Chain(log: seq<Block>)
  {
    forall i :: 0 <= i < |log| - 1 ==> log[i + 1].previous == log[i].id && log[i + 1].num == log[i].num + 1
  }

  /** Announced block numbers are consecutive, so no number is announced twice. */
  lemma {:induction false} AnnouncedConsecutively(log: seq<Block>, i: nat, j: nat)
    requires Chain(log) && i <= j < |log|
    ensures log[j].num == log[i].num + (j - i)
  {
    if i < j { AnnouncedConsecutively(log, i, j - 1); }
  }

  /** The index hangs from one block, the last one announced if there is one. */
  predicate Hangs(s: Db, rootId: BlockId, rootNum: nat)
  {
    && Linked(s.index, rootId, rootNum) && Chain(s.log)
    && (s.log != [] ==> s.log[|s.log| - 1].id == rootId && s.log[|s.log| - 1].num == rootNum)
  }

  lemma LogGrows(log: seq<Block>, h: Block, rootId: BlockId, rootNum: nat)
    requires Chain(log) && (log != [] ==> log[|log| - 1].id == rootId && log[|log| - 1].num == rootNum)
    requires h.previous == rootId && h.num == rootNum + 1
    ensures Chain(log + [h])
  {
  }

  /** When the oldest block is announced, the rest hangs from it. */
  lemma HangStep(s: Db, rootId: BlockId, rootNum: nat, o: BlockId)
    requires Hangs(s, rootId, rootNum) && Oldest(s.index, o)
    ensures Hangs(Db(Below(s.index, o), s.log + [s.index[o]]), o, s.index[o].num)
  {
    OldestIsRoot(s.index, rootId, rootNum, o);
    BelowLinked(s.index, rootId, rootNum, o);
    LogGrows(s.log, s.index[o], rootId, rootNum);
    hide Below, Oldest, Chain;
  }

  lemma {:induction false} PrunesHang(s: Db, rootId: BlockId, rootNum: nat, lib: nat, announced: seq<Block>,
                                      left: Index)
    returns (rootId': BlockId, rootNum': nat)
    requires Hangs(s, rootId, rootNum) && Prunes(s.index, lib, announced, left)
    ensures Hangs(Db(left, s.log + announced), rootId', rootNum')
    decreases |announced|
  {
    hide Hangs, Prunes, Oldest, Below;
    FirstPruned(s.index, lib, announced, left);
    if announced == [] {
      rootId', rootNum' := rootId, rootNum;
      assert s.log + announced == s.log;
    } else {
      var b := announced[0];
      FirstIsThere(s.index, lib, announced, left);
      HangStep(s, rootId, rootNum, b.id);
      var next := Db(Below(s.index, b.id), s.log + [b]);
      rootId', rootNum' := PrunesHang(next, b.id, b.num, lib, announced[1..], left);
      assert next.log + announced[1..] == s.log + announced;
    }
  }

  lemma FirstIsThere(ix: Index, lib: nat, announced: seq<Block>, left: Index)
    requires Prunes(ix, lib, announced, left) && announced != []
    ensures announced[0].id in ix && ix[announced[0].id] == announced[0]
  {
  }

  // ---------------------------------------------------------------- quorums behind BFT numbers

  /** More than two thirds of as many producers as are scheduled have confirmed b, all distinct. */
  predicate Quorate(b: Block)
  {
    |Elems(b.confirmations)| >= |b.schedule| * 2 / 3 + 1
  }

  /** A quorum of distinct producers of its schedule has confirmed b, whose number is v. */
  predicate Seals(b: Block, v: nat)
  {
    b.num == v && ConfirmationsOk(b) && Quorate(b)
  }

  /** A block with a quorum is BFT irreversible itself. */
  predicate Risen(ix: Index)
  {
    forall x :: x in ix && Quorate(ix[x]) ==> ix[x].bft >= ix[x].num
  }

  /** b has been announced, or x is built on it. */
  ghost predicate Behind(s: Db, x: BlockId, b: Block)
  {
    b in s.log || (b.id in s.index && s.index[b.id] == b && Descends(s.index, x, b.id))
  }

  /** The BFT number of every block is the first one or that of a confirmed block behind it. */
  ghost predicate Sealed(s: Db, first: nat)
  {
    forall x :: x in s.index && s.index[x].bft != first ==> exists b :: Behind(s, x, b) && Seals(b, s.index[x].bft)
  }

  /** Every block has confirmations by distinct members of its schedule. */
  predicate Votes(ix: Index)
  {
    forall x :: x in ix ==> ConfirmationsOk(ix[x])
  }

  lemma InsertSealed(s: Db, n: Block, first: nat)
    requires Sealed(s, first) && n.id !in s.index && n.previous in s.index && n.bft == s.index[n.previous].bft
    ensures Sealed(Db(s.index[n.id := n], s.log), first)
  {
    var t := Db(s.index[n.id := n], s.log);
    forall x | x in t.index && t.index[x].bft != first ensures exists b :: Behind(t, x, b) && Seals(b, t.index[x].bft) {
      var y := if x == n.id then n.previous else x;
      var b :| Behind(s, y, b) && Seals(b, s.index[y].bft);
      if b !in s.log {
        var m: nat :| Reaches(s.index, y, b.id, m);
        ReachesInMore(s.index, t.index, y, b.id, m);
        if x == n.id { DescendsUp(t.index, x, b.id); }
      }
      assert Behind(t, x, b);
    }
  }

  /** An ancestor of a block that is left is left as well, or has been announced. */
  lemma {:induction false} AncestorKept(ix: Index, rootId: BlockId, rootNum: nat, lib: nat, announced: seq<Block>,
                                        left: Index, x: BlockId, y: BlockId)
    requires Linked(ix, rootId, rootNum) && Prunes(ix, lib, announced, left)
    requires x in left && x in ix && y in ix && Descends(ix, x, y)
    ensures ix[y] in announced || (y in left && left[y] == ix[y] && Descends(left, x, y))
    decreases |announced|
  {
    hide Linked, Prunes, Oldest, Below, Descends, Kept;
    FirstPruned(ix, lib, announced, left);
    if announced != [] {
      FirstIsThere(ix, lib, announced, left);
      var o := announced[0].id;
      OldestIsRoot(ix, rootId, rootNum, o);
      BelowLinked(ix, rootId, rootNum, o);
      var below := Below(ix, o);
      BelowIsPart(ix, o);
      LeftIsPart(below, o, rootNum + 1, lib, announced[1..], left);
      if y != o {
        StillBelow(ix, rootId, rootNum, o, x, y);
        AncestorKept(below, o, rootNum + 1, lib, announced[1..], left, x, y);
        assert below[y] in announced[1..] ==> below[y] in announced;
      }
    }
  }

  lemma LeftIsPart(ix: Index, rootId: BlockId, rootNum: nat, lib: nat, announced: seq<Block>, left: Index)
    requires Linked(ix, rootId, rootNum) && Prunes(ix, lib, announced, left)
    ensures forall x :: x in left ==> x in ix && left[x] == ix[x]
  {
    hide Linked, Prunes;
    PrunesKeeps(ix, rootId, rootNum, lib, announced, left);
    KeptIsPart(ix, announced);
  }

  /** An ancestor of a block built on the root o is o, or built on it too. */
  lemma StillBelow(ix: Index, rootId: BlockId, rootNum: nat, o: BlockId, x: BlockId, y: BlockId)
    requires Linked(ix, rootId, rootNum) && o in ix && ix[o].num == rootNum + 1
    requires x in Below(ix, o) && y in ix && y != o && Descends(ix, x, y)
    ensures y in Below(ix, o) && Descends(Below(ix, o), x, y)
  {
    LinkedDescends(ix, rootId, rootNum, y);
    HigherAncestorDescends(ix, x, y, o);
    var n: nat :| Reaches(ix, x, y, n);
    ReachesBelow(ix, o, x, y, n);
  }

  lemma PrunesSealed(s: Db, rootId: BlockId, rootNum: nat, lib: nat, announced: seq<Block>, left: Index, first: nat)
    requires Sealed(s, first) && Linked(s.index, rootId, rootNum) && Prunes(s.index, lib, announced, left)
    ensures Sealed(Db(left, s.log + announced), first)
  {
    hide Linked, Prunes, Descends;
    var t := Db(left, s.log + announced);
    LeftIsPart(s.index, rootId, rootNum, lib, announced, left);
    forall x | x in left && left[x].bft != first ensures exists b :: Behind(t, x, b) && Seals(b, left[x].bft) {
      var b :| Behind(s, x, b) && Seals(b, s.index[x].bft);
      if b !in s.log {
        AncestorKept(s.index, rootId, rootNum, lib, announced, left, x, b.id);
      }
      assert Behind(t, x, b);
    }
  }

  lemma ConfirmedSealed(s: Db, id: BlockId, producer: Name, first: nat)
    requires Sealed(s, first) && Numbered(s.index) && Ordered(s.index) && Votes(s.index) && id in s.index
    requires producer !in s.index[id].confirmations && producer in s.index[id].schedule
    ensures Sealed(Db(Confirmed(s.index, id, producer), s.log), first)
  {
    hide Confirmed, Descends, Ordered;
    ConfirmedKeeps(s.index, id, producer);
    var t := Db(Confirmed(s.index, id, producer), s.log);
    forall x | x in t.index && t.index[x].bft != first ensures exists b :: Behind(t, x, b) && Seals(b, t.index[x].bft) {
      if t.index[x].bft != s.index[x].bft {
        SameDescent(s.index, t.index, x, id);
        assert Behind(t, x, t.index[id]);
        assert Seals(t.index[id], t.index[x].bft);
      } else {
        var b :| Behind(s, x, b) && Seals(b, s.index[x].bft);
        var c := BehindStays(s, t, id, producer, x, b);
        assert Behind(t, x, c) && Seals(c, t.index[x].bft);
      }
    }
  }

  /** A block behind x is still there, with at least the confirmations it had. */
  lemma BehindStays(s: Db, t: Db, id: BlockId, producer: Name, x: BlockId, b: Block) returns (c: Block)
    requires t.log == s.log && SameShape(s.index, t.index) && id in s.index && ConfirmationsOk(t.index[id])
    requires forall y :: y in s.index ==> SameVotes(s.index, t.index, id, producer, y)
    requires Behind(s, x, b) && Seals(b, b.num)
    ensures Behind(t, x, c) && Seals(c, b.num)
  {
    if b in s.log {
      c := b;
    } else {
      c := t.index[b.id];
      SameDescent(s.index, t.index, x, b.id);
      assert SameVotes(s.index, t.index, id, producer, b.id);
      if b.id == id { MoreElems(b.confirmations, producer); }
    }
  }

  lemma MoreElems(q: seq<Name>, p: Name)
    ensures |Elems(q + [p])| >= |Elems(q)|
  {
    assert Elems(q) <= Elems(q + [p]);
    SubsetSize(Elems(q), Elems(q + [p]));
  }

  lemma MarkedSealed(s: Db, id: BlockId, current: bool, first: nat)
    requires Sealed(s, first) && id in s.index
    ensures Sealed(Db(Marked(s.index, id, current), s.log), first)
  {
    hide Descends;
    var t := Db(Marked(s.index, id, current), s.log);
    forall x | x in t.index && t.index[x].bft != first ensures exists b :: Behind(t, x, b) && Seals(b, t.index[x].bft) {
      var b :| Behind(s, x, b) && Seals(b, s.index[x].bft);
      if b in s.log {
        assert Behind(t, x, b);
      } else {
        SameDescent(s.index, t.index, x, b.id);
        assert Behind(t, x, t.index[b.id]) && Seals(t.index[b.id], t.index[x].bft);
      }
    }
  }

  lemma {:induction false} ReachesInWithout(ix: Index, id: BlockId, x: BlockId, y: BlockId, n: nat)
    requires x in Without(ix, id) && y in ix && Reaches(ix, x, y, n)
    ensures y in Without(ix, id) && Reaches(Without(ix, id), x, y, n)
    decreases n
  {
    if n > 0 {
      var p := ix[x].previous;
      if Descends(ix, p, id) { DescendsUp(ix, x, id); }
      assert n == 1 ==> p == y;
      assert p in ix;
      ReachesInWithout(ix, id, p, y, n - 1);
    }
  }

  lemma WithoutSealed(s: Db, id: BlockId, first: nat)
    requires Sealed(s, first)
    ensures Sealed(Db(Without(s.index, id), s.log), first)
  {
    var t := Db(Without(s.index, id), s.log);
    forall x | x in t.index && t.index[x].bft != first ensures exists b :: Behind(t, x, b) && Seals(b, t.index[x].bft) {
      var b :| Behind(s, x, b) && Seals(b, s.index[x].bft);
      if b !in s.log {
        var n: nat :| Reaches(s.index, x, b.id, n);
        ReachesInWithout(s.index, id, x, b.id, n);
      }
      assert Behind(t, x, b);
    }
  }

  // ---------------------------------------------------------------- what every run keeps

  ghost predicate Sound(s: Db, first: nat)
  {
    && (exists rootId, rootNum: nat :: Hangs(s, rootId, rootNum))
    && Ordered(s.index) && Votes(s.index) && Sealed(s, first) && Risen(s.index)
  }

  lemma SignedSound(s: Db, n: Block, t: Db, first: nat)
    requires Sound(s, first) && Acts(s, Signed(n), t)
    ensures Sound(t, first)
  {
    hide Linked, Ordered, Sealed, Maximal, Votes, Hangs, Risen;
    var u, announced := Db(s.index[n.id := n], s.log), t.log[|s.log|..];
    assert u.log + announced == t.log;
    var rootId, rootNum: nat :| Hangs(s, rootId, rootNum);
    InsertSound(s, n, rootId, rootNum, first);
    var best :| Maximal(u.index, best) && Pruned10(u.index, best, announced, t.index);
    PruneSound(u, rootId, rootNum, u.index[best].dpos, announced, t, first);
  }

  lemma InsertSound(s: Db, n: Block, rootId: BlockId, rootNum: nat, first: nat)
    requires Hangs(s, rootId, rootNum) && Ordered(s.index) && Votes(s.index) && Sealed(s, first) && Risen(s.index)
    requires n.id !in s.index && n.previous in s.index && Follows(s.index, n)
    requires forall x :: x in s.index ==> s.index[x].previous != n.id
    ensures var t := Db(s.index[n.id := n], s.log);
      Hangs(t, rootId, rootNum) && Ordered(t.index) && Votes(t.index) && Sealed(t, first) && Risen(t.index)
  {
    InsertRisen(s.index, n);
    hide Ordered, Sealed, Chain, Risen;
    var r := RootOf(s.index, rootId, rootNum, n.previous);
    RootHangs(s.index, rootId, rootNum, r);
    InsertLinked(s.index, rootId, rootNum, n);
    InsertOrdered(s.index, n);
    InsertSealed(s, n, first);
  }

  lemma InsertRisen(ix: Index, n: Block)
    requires Risen(ix) && n.confirmations == []
    ensures Risen(ix[n.id := n])
  {
    assert Elems(n.confirmations) == {};
  }

  lemma PruneSound(s: Db, rootId: BlockId, rootNum: nat, lib: nat, announced: seq<Block>, t: Db, first: nat)
    requires Hangs(s, rootId, rootNum) && Ordered(s.index) && Votes(s.index) && Sealed(s, first) && Risen(s.index)
    requires Prunes(s.index, lib, announced, t.index) && t.log == s.log + announced
    ensures Sound(t, first)
  {
    hide Linked, Chain, Prunes, Ordered, Sealed;
    LeftIsPart(s.index, rootId, rootNum, lib, announced, t.index);
    OrderedSubset(s.index, t.index);
    PrunesSealed(s, rootId, rootNum, lib, announced, t.index, first);
    var rootId', rootNum' := PrunesHang(s, rootId, rootNum, lib, announced, t.index);
  }

  lemma ConfirmingSound(s: Db, id: BlockId, producer: Name, t: Db, first: nat)
    requires Sound(s, first) && Acts(s, Confirming(id, producer), t)
    ensures Sound(t, first)
  {
    hide ConfirmedBy, Confirmed, Chain, Ordered, Sealed, Risen;
    var rootId, rootNum: nat :| Hangs(s, rootId, rootNum);
    ConfirmedByIsConfirmed(s.index, id, producer);
    ConfirmedKeeps(s.index, id, producer);
    ConfirmedSealed(s, id, producer, first);
    SameShapeLinked(s.index, t.index, rootId, rootNum);
    assert Hangs(t, rootId, rootNum);
    VotesStay(s.index, t.index, id, producer);
    RisenStays(s.index, t.index, id, producer);
  }

  lemma RisenStays(ix: Index, r: Index, id: BlockId, producer: Name)
    requires Risen(ix) && SameShape(ix, r) && id in ix && (Quorate(r[id]) ==> r[id].bft >= r[id].num)
    requires forall y :: y in ix ==> SameVotes(ix, r, id, producer, y) && ix[y].bft <= r[y].bft
    ensures Risen(r)
  {
    forall x | x in r && Quorate(r[x]) ensures r[x].bft >= r[x].num {
      assert SameVotes(ix, r, id, producer, x);
      if x != id { assert Quorate(ix[x]); }
    }
  }

  lemma VotesStay(ix: Index, r: Index, id: BlockId, producer: Name)
    requires Votes(ix) && ix.Keys == r.Keys && id in ix && ConfirmationsOk(r[id])
    requires forall y :: y in ix ==> SameVotes(ix, r, id, producer, y)
    ensures Votes(r)
  {
    forall x | x in r ensures ConfirmationsOk(r[x]) {
      assert SameVotes(ix, r, id, producer, x);
    }
  }

  lemma MarkedKeeps(ix: Index, id: BlockId, current: bool)
    requires id in ix && Ordered(ix) && Votes(ix) && Risen(ix)
    ensures SameShape(ix, Marked(ix, id, current)) && Risen(Marked(ix, id, current))
    ensures Ordered(Marked(ix, id, current)) && Votes(Marked(ix, id, current))
  {
    forall x | x in ix ensures ConfirmationsOk(Marked(ix, id, current)[x]) {
      assert ConfirmationsOk(ix[x]);
    }
  }

  lemma MarkingSound(s: Db, id: BlockId, current: bool, t: Db, first: nat)
    requires Sound(s, first) && Acts(s, Marking(id, current), t)
    ensures Sound(t, first)
  {
    hide Chain, Sealed, Ordered, Votes, Linked, Marked, SameShape, Risen;
    var rootId, rootNum: nat :| Hangs(s, rootId, rootNum);
    MarkedKeeps(s.index, id, current);
    MarkedSealed(s, id, current, first);
    SameShapeLinked(s.index, t.index, rootId, rootNum);
    assert Hangs(t, rootId, rootNum);
  }

  lemma RemovingSound(s: Db, id: BlockId, t: Db, first: nat)
    requires Sound(s, first) && Acts(s, Removing(id), t)
    ensures Sound(t, first)
  {
    hide Chain, Sealed;
    var rootId, rootNum: nat :| Hangs(s, rootId, rootNum);
    WithoutSealed(s, id, first);
    WithoutLinked(s.index, rootId, rootNum, id);
    OrderedSubset(s.index, t.index);
    assert Hangs(t, rootId, rootNum);
  }

  lemma FreshSound(s: Db, genesis: Block)
    requires Fresh(s, genesis)
    ensures Sound(s, genesis.bft)
  {
    assert Hangs(s, genesis.previous, genesis.num - 1);
  }

  /**
   In every state of every run: the announced blocks form one chain that the index hangs from, no
   child's BFT number is below its parent's, confirmers are distinct and scheduled, every BFT number
   other than the first has a quorum behind it, and every block with a quorum is BFT irreversible.
   */
  lemma {:induction false} RunSound(states: seq<Db>, actions: seq<Action>, genesis: Block, k: nat)
    requires IsRun(states, actions, genesis) && k < |states|
    ensures Sound(states[k], genesis.bft)
  {
    hide Sound, Acts, Fresh;
    if k == 0 {
      FreshSound(states[0], genesis);
    } else {
      RunSound(states, actions, genesis, k - 1);
      var s, a, t := states[k - 1], actions[k - 1], states[k];
      assert Acts(s, a, t);
      match a
      case Signed(n) => SignedSound(s, n, t, genesis.bft);
      case Confirming(id, producer) => ConfirmingSound(s, id, producer, t, genesis.bft);
      case Marking(id, current) => MarkingSound(s, id, current, t, genesis.bft);
      case Removing(id) => RemovingSound(s, id, t, genesis.bft);
    }
  }

  /** Over every run, a BFT number other than the first is that of a block which a quorum of its schedule confirmed. */
  lemma BftNumbersHaveQuorums(states: seq<Db>, actions: seq<Action>, genesis: Block, k: nat, x: BlockId)
    returns (b: Block)
    requires IsRun(states, actions, genesis) && k < |states|
    requires x in states[k].index && states[k].index[x].bft != genesis.bft
    ensures Behind(states[k], x, b) && Seals(b, states[k].index[x].bft)
  {
    hide IsRun, Behind, Seals;
    RunSound(states, actions, genesis, k);
    b :| Behind(states[k], x, b) && Seals(b, states[k].index[x].bft);
  }

  lemma {:induction false} OrderedDescent(ix: Index, x: BlockId, a: BlockId, n: nat)
    requires Ordered(ix) && x in ix && a in ix && Reaches(ix, x, a, n)
    ensures ix[x].bft >= ix[a].bft
    decreases n
  {
    if n > 0 {
      assert n == 1 ==> ix[x].previous == a;
      OrderedDescent(ix, ix[x].previous, a, n - 1);
    }
  }

  /**
   Over every run, a block that floor(2n/3)+1 distinct producers have confirmed raises its own BFT
   number and that of everything built on it at least to its number.
   */
  lemma QuorumsRaise(states: seq<Db>, actions: seq<Action>, genesis: Block, k: nat, a: BlockId, x: BlockId)
    requires IsRun(states, actions, genesis) && k < |states|
    requires a in states[k].index && x in states[k].index && Descends(states[k].index, x, a)
    requires var b := states[k].index[a];
      |Elems(b.confirmations)| >= |b.schedule| * 2 / 3 + 1
    ensures states[k].index[x].bft >= states[k].index[a].num
  {
    hide IsRun;
    RunSound(states, actions, genesis, k);
    hide Sealed, Votes, Hangs;
    var n: nat :| Reaches(states[k].index, x, a, n);
    OrderedDescent(states[k].index, x, a, n);
    assert Quorate(states[k].index[a]);
  }

  /** Over every run, the announced blocks are one chain, and every block left is built on the last of them. */
  lemma RunAnnouncesAChain(states: seq<Db>, actions: seq<Action>, genesis: Block, k: nat, x: BlockId)
    requires IsRun(states, actions, genesis) && k < |states|
    ensures Chain(states[k].log)
    ensures var s := states[k];
      x in s.index && s.log != [] ==>
        Descends(s.index, x, s.log[|s.log| - 1].id) && s.index[x].num > s.log[|s.log| - 1].num
  {
    hide IsRun;
    RunSound(states, actions, genesis, k);
    hide Descends, Chain, Sealed;
    var rootId, rootNum: nat :| Hangs(states[k], rootId, rootNum);
    if x in states[k].index { LinkedDescends(states[k].index, rootId, rootNum, x); }
  }
}
