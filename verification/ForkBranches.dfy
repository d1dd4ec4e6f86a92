/** Extracting two branches of the fork tree back to where they part. */
module ForkBranches {
  import opened Wrappers
  import opened ForkTree

  /** A chain of blocks of the index: it starts at `from` and each block is the parent of the one before it. */
  predicate Branch(ix: Index, branch: seq<Block>, from: BlockId)
  {
    && branch != [] && from in ix && branch[0] == ix[from]
    && forall i :: 0 <= i < |branch| - 1 ==> branch[i].previous in ix && branch[i + 1] == ix[branch[i].previous]
  }

  lemma {:induction false} BranchNumbers(ix: Index, branch: seq<Block>, from: BlockId, i: nat)
    requires Numbered(ix) && Branch(ix, branch, from) && i < |branch|
    ensures branch[i].id in ix && ix[branch[i].id] == branch[i]
    ensures branch[i].num == ix[from].num - i
    ensures Reaches(ix, from, branch[i].id, i)
  {
    if i > 0 {
      BranchNumbers(ix, branch, from, i - 1);
      assert branch[i] == ix[branch[i - 1].previous];
      assert Reaches(ix, branch[i - 1].id, branch[i].id, 1);
      ReachesTrans(ix, from, branch[i - 1].id, branch[i].id, i - 1, 1);
    }
  }

  function Last(branch: seq<Block>): Block
    requires branch != []
  {
    branch[|branch| - 1]
  }

  /** The branches part: they end at the same height, under the same parent, and do not meet before. */
  predicate Part(a: seq<Block>, b: seq<Block>)
  {
    && a != [] && b != []
    && Last(a).num == Last(b).num && Last(a).previous == Last(b).previous
    && forall i, j :: 0 <= i < |a| && 0 <= j < |b| && a[i] == b[j] ==> i == |a| - 1 && j == |b| - 1
  }

  /** Going one block further back. */
  lemma Longer(ix: Index, branch: seq<Block>, from: BlockId)
    requires Numbered(ix) && Branch(ix, branch, from) && Last(branch).previous in ix
    ensures var more := branch + [ix[Last(branch).previous]];
      Branch(ix, more, from) && Last(more).num == Last(branch).num - 1 && Last(more).id == Last(branch).previous
  {
    BranchNumbers(ix, branch, from, |branch| - 1);
  }

  /**
   Branches that go back to the same height, one of them not at all, end in the same block exactly when one
   head is an ancestor.
   */
  lemma MeetAtHead(ix: Index, a: seq<Block>, b: seq<Block>, first: BlockId, second: BlockId)
    requires Numbered(ix) && Branch(ix, a, first) && Branch(ix, b, second)
    requires Last(a).num == Last(b).num && (|a| == 1 || |b| == 1)
    ensures Last(a) == Last(b) <==> Descends(ix, first, second) || Descends(ix, second, first)
  {
    BranchNumbers(ix, a, first, |a| - 1);
    BranchNumbers(ix, b, second, |b| - 1);
    if |b| == 1 {
      HeadIsAncestor(ix, first, second, Last(a).id, |a| - 1);
    } else {
      HeadIsAncestor(ix, second, first, Last(b).id, |b| - 1);
    }
  }

  /** The ancestor of x at the height of y is y exactly when one of x and y descends from the other. */
  lemma HeadIsAncestor(ix: Index, x: BlockId, y: BlockId, z: BlockId, n: nat)
    requires Numbered(ix) && x in ix && y in ix && z in ix && Reaches(ix, x, z, n) && ix[z].num == ix[y].num
    ensures z == y <==> Descends(ix, x, y) || Descends(ix, y, x)
  {
    ReachesNum(ix, x, z, n);
    if Descends(ix, x, y) {
      var m: nat :| Reaches(ix, x, y, m);
      ReachesNum(ix, x, y, m);
      ReachesUnique(ix, x, y, z, n);
    } else if Descends(ix, y, x) {
      var m: nat :| Reaches(ix, y, x, m);
      ReachesNum(ix, y, x, m);
    }
  }

  /** Below the heads no block of one branch is in the other, as far as the branches have been followed. */
  predicate Apart(a: seq<Block>, b: seq<Block>)
  {
    forall i, j :: 0 <= i < |a| - 1 && 0 <= j < |b| - 1 ==> a[i] != b[j]
  }

  lemma StillApart(ix: Index, a: seq<Block>, b: seq<Block>, first: BlockId, second: BlockId)
    requires Numbered(ix) && Branch(ix, a, first) && Branch(ix, b, second) && Apart(a, b)
    requires Last(a).num == Last(b).num && Last(a).previous != Last(b).previous
    requires Last(a).previous in ix && Last(b).previous in ix
    ensures Apart(a + [ix[Last(a).previous]], b + [ix[Last(b).previous]])
  {
    forall i, j | 0 <= i < |a| && 0 <= j < |b| ensures a[i] != b[j] {
      BranchNumbers(ix, a, first, i);
      BranchNumbers(ix, b, second, j);
      BranchNumbers(ix, a, first, |a| - 1);
      BranchNumbers(ix, b, second, |b| - 1);
    }
  }

  lemma ApartIsParted(ix: Index, a: seq<Block>, b: seq<Block>, first: BlockId, second: BlockId)
    requires Numbered(ix) && Branch(ix, a, first) && Branch(ix, b, second) && Apart(a, b)
    requires Last(a).num == Last(b).num && Last(a).previous == Last(b).previous
    ensures Part(a, b)
  {
    forall i, j | 0 <= i < |a| && 0 <= j < |b| && a[i] == b[j] ensures i == |a| - 1 && j == |b| - 1 {
      BranchNumbers(ix, a, first, i);
      BranchNumbers(ix, b, second, j);
      BranchNumbers(ix, a, first, |a| - 1);
      BranchNumbers(ix, b, second, |b| - 1);
    }
  }

  /** In a linked index only the oldest blocks have no parent in it, and those share theirs. */
  lemma ParentsInside(ix: Index, a: BlockId, b: BlockId)
    requires Rooted(ix)
    requires a in ix && b in ix && ix[a].num >= ix[b].num
    requires ix[a].num > ix[b].num || ix[a].previous != ix[b].previous
    ensures ix[a].previous in ix && (ix[a].num == ix[b].num ==> ix[b].previous in ix)
  {
    var rootId, rootNum :| Linked(ix, rootId, rootNum);
    LinkedDescends(ix, rootId, rootNum, a);
    LinkedDescends(ix, rootId, rootNum, b);
    if ix[a].previous in ix { LinkedDescends(ix, rootId, rootNum, ix[a].previous); }
    if ix[b].previous in ix { LinkedDescends(ix, rootId, rootNum, ix[b].previous); }
  }

  ghost predicate Rooted(ix: Index)
  {
    exists rootId, rootNum :: Linked(ix, rootId, rootNum)
  }

  /** Goes back from a block while it is higher than the given number; None when a parent is missing. */
  method Descend(ix: Index, from: BlockId, num: nat) returns (branch: Option<seq<Block>>)
    requires Numbered(ix) && from in ix
    ensures branch.Some? ==> Branch(ix, branch.value, from)
    ensures branch.Some? ==> if ix[from].num <= num then branch.value == [ix[from]] else Last(branch.value).num == num
    ensures Rooted(ix) && (exists y :: y in ix && ix[y].num == num) ==> branch.Some?
  {
    var a := [ix[from]];
    while Last(a).num > num
      invariant Branch(ix, a, from)
      invariant a == [ix[from]] || Last(a).num >= num
      invariant ix[from].num <= num ==> a == [ix[from]]
      decreases Last(a).num
    {
      BranchNumbers(ix, a, from, |a| - 1);
      if Last(a).previous !in ix {
        if y :| y in ix && ix[y].num == num && Rooted(ix) { ParentsInside(ix, Last(a).id, y); }
        return None;
      }
      Longer(ix, a, from);
      a := a + [ix[Last(a).previous]];
    }
    return Some(a);
  }

  /**
   The two branches from the given blocks back to a common parent. Fails only when a block needed on
   the way is not in the index, which does not happen in a linked index.
   */
  method FetchBranchFrom(ix: Index, first: BlockId, second: BlockId) returns (r: Option<(seq<Block>, seq<Block>)>)
    requires Numbered(ix) && first in ix && second in ix
    ensures r.Some? ==> Branch(ix, r.value.0, first) && Branch(ix, r.value.1, second) && Part(r.value.0, r.value.1)
    ensures r.Some? ==>
      (Last(r.value.0) == Last(r.value.1) <==> Descends(ix, first, second) || Descends(ix, second, first))
    ensures Rooted(ix) ==> r.Some?
  {
    hide Descends, Rooted;
    var down := Descend(ix, first, ix[second].num);
    if down.None? { return None; }
    var a := down.value;
    BranchNumbers(ix, a, first, |a| - 1);
    down := Descend(ix, second, Last(a).num);
    if down.None? { return None; }
    var b := down.value;
    MeetAtHead(ix, a, b, first, second);
    ghost var meet := Last(a) == Last(b);
    while Last(a).previous != Last(b).previous
      invariant Branch(ix, a, first) && Branch(ix, b, second)
      invariant Last(a).num == Last(b).num && Apart(a, b)
      invariant meet <==> Last(a) == Last(b)
      decreases Last(a).num
    {
      BranchNumbers(ix, a, first, |a| - 1);
      BranchNumbers(ix, b, second, |b| - 1);
      if Last(a).previous !in ix || Last(b).previous !in ix {
        if Rooted(ix) { ParentsInside(ix, Last(a).id, Last(b).id); }
        return None;
      }
      StillApart(ix, a, b, first, second);
      Longer(ix, a, first);
      Longer(ix, b, second);
      a, b := a + [ix[Last(a).previous]], b + [ix[Last(b).previous]];
    }
    ApartIsParted(ix, a, b, first, second);
    return Some((a, b));
  }
}
