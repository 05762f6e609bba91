/**
 * The shapes the merge rules of logic.c produce: how `logic_add_var_one`
 * changes a child list, and the branches the distribution loops of
 * `logic_pop_op` build, position by position.
 */
module LogicShape {
  import opened Common
  import opened LogicNodes
  import opened LogicMerge

  /** `logic_add_var_one` under AND or OR never fails.  A VAR child that
      already has the name gets the intersection (AND) or union (OR) of its
      range with the new one, and every other child stays; otherwise exactly
      one VAR child is added, in front, and the old children follow. */
  lemma OneAddedShape(op: Node, owner: Owner, name: Name, range: Range)
    requires op.Op? && op.kind != AndOr
    ensures OneAdded(op, owner, name, range).Ok?
    ensures var cs := op.children;
      var r := OneAdded(op, owner, name, range).value;
      match FirstVar(cs, name)
      case Some(i) =>
        && |r.children| == |cs|
        && r.children[i].Var? && r.children[i].name == name && r.children[i].owner == cs[i].owner
        && (forall x :: x in r.children[i].range <==> Connective(op.kind, x in cs[i].range, x in range))
        && (forall j | 0 <= j < |cs| && j != i :: r.children[j] == cs[j])
      case None =>
        && |r.children| == |cs| + 1
        && r.children[0] == Var(owner, name, range)
        && r.children[1..] == cs
  {
  }

  /** `logic_add_var_one` under AND or OR keeps at most one VAR child per
      name, leaves exactly one VAR child with the new name, and brings in
      no child other than VARs. */
  lemma OneAddedKeepsNamesUnique(op: Node, owner: Owner, name: Name, range: Range)
    requires op.Op? && op.kind != AndOr && UniqueVars(op.children)
    ensures OneAdded(op, owner, name, range).Ok?
    ensures var r := OneAdded(op, owner, name, range).value;
      && UniqueVars(r.children)
      && (exists i | 0 <= i < |r.children| :: IsVarNamed(r.children[i], name))
      && (forall j | 0 <= j < |r.children| :: r.children[j].Var? || r.children[j] in op.children)
  {
    var cs := op.children;
    var r := OneAdded(op, owner, name, range).value;
    OneAddedShape(op, owner, name, range);
    match FirstVar(cs, name)
    case Some(i) =>
      assert IsVarNamed(r.children[i], name);
      forall a, b | 0 <= a < |r.children| && 0 <= b < |r.children| && r.children[a].Var? && r.children[b].Var?
          && r.children[a].name == r.children[b].name
        ensures a == b
      {
        assert cs[a].Var? && cs[b].Var? && cs[a].name == cs[b].name;
      }
      forall j | 0 <= j < |r.children| && !r.children[j].Var?
        ensures r.children[j] in cs
      {
        assert r.children[j] == cs[j];
      }
    case None =>
      assert IsVarNamed(r.children[0], name);
      forall a, b | 0 <= a < |r.children| && 0 <= b < |r.children| && r.children[a].Var? && r.children[b].Var?
          && r.children[a].name == r.children[b].name
        ensures a == b
      {
        if a > 0 && b > 0 {
          assert r.children[a] == cs[a - 1] && r.children[b] == cs[b - 1];
        }
      }
      forall j | 0 <= j < |r.children| && !r.children[j].Var?
        ensures r.children[j] in cs
      {
        assert r.children[j] == cs[j - 1];
      }
  }

  /** The loop of `logic_add_var_all` from branch k on: the branches before
      k are left alone; the loop succeeds exactly when every branch from k on
      is an AND, and then each of those branches is what
      `logic_add_var_one` makes of it; otherwise it stops at the first
      branch that is not an AND, with the branches before it updated and the
      rest unchanged. */
  lemma {:induction false} AllAddedFromShape(bs: seq<Node>, k: nat, owner: Owner, name: Name, range: Range)
    requires k <= |bs|
    ensures var (bs', status) := AllAddedFrom(bs, k, owner, name, range);
      && (forall j | 0 <= j < k :: bs'[j] == bs[j])
      && (status.Pass? <==> forall j | k <= j < |bs| :: IsAnd(bs[j]))
      && (status.Pass? ==> forall j | k <= j < |bs| :: OneAdded(bs[j], owner, name, range) == Ok(bs'[j]))
      && (status.Fail? ==> status.error == InvalidType && exists f | k <= f < |bs| ::
            && !IsAnd(bs[f])
            && (forall j | k <= j < f :: IsAnd(bs[j]) && OneAdded(bs[j], owner, name, range) == Ok(bs'[j]))
            && (forall j | f <= j < |bs| :: bs'[j] == bs[j]))
    decreases |bs| - k
  {
    AllAddedFromPrefix(bs, k, owner, name, range);
    AllAddedFromPass(bs, k, owner, name, range);
    AllAddedFromFail(bs, k, owner, name, range);
  }

  /** The loop of `logic_add_var_all` leaves the branches before k as they
      are. */
  lemma {:induction false} AllAddedFromPrefix(bs: seq<Node>, k: nat, owner: Owner, name: Name, range: Range)
    requires k <= |bs|
    ensures forall j | 0 <= j < k :: AllAddedFrom(bs, k, owner, name, range).0[j] == bs[j]
    decreases |bs| - k
  {
    if k < |bs| && IsAnd(bs[k]) && OneAdded(bs[k], owner, name, range).Ok? {
      var bs1 := bs[k := OneAdded(bs[k], owner, name, range).value];
      AllAddedFromPrefix(bs1, k + 1, owner, name, range);
    }
  }

  /** The loop succeeds exactly when every branch from k on is an AND, and
      then each of them is that branch with the variable added. */
  lemma {:induction false} AllAddedFromPass(bs: seq<Node>, k: nat, owner: Owner, name: Name, range: Range)
    requires k <= |bs|
    ensures var (bs', status) := AllAddedFrom(bs, k, owner, name, range);
      && (status.Pass? <==> forall j | k <= j < |bs| :: IsAnd(bs[j]))
      && (status.Pass? ==> forall j | k <= j < |bs| :: OneAdded(bs[j], owner, name, range) == Ok(bs'[j]))
    decreases |bs| - k
  {
    if k < |bs| && IsAnd(bs[k]) {
      var b := OneAdded(bs[k], owner, name, range);
      assert b.Ok?;
      var bs1 := bs[k := b.value];
      AllAddedFromPass(bs1, k + 1, owner, name, range);
      AllAddedFromPrefix(bs1, k + 1, owner, name, range);
      assert AllAddedFrom(bs, k, owner, name, range) == AllAddedFrom(bs1, k + 1, owner, name, range);
      assert forall j | k + 1 <= j < |bs| :: bs1[j] == bs[j];
    }
  }

  /** When the loop fails, there is a first non-AND branch f at or after
      k: the branches from k up to f got the variable and those from f on
      are untouched. */
  lemma {:induction false} AllAddedFromFail(bs: seq<Node>, k: nat, owner: Owner, name: Name, range: Range)
    requires k <= |bs|
    ensures var (bs', status) := AllAddedFrom(bs, k, owner, name, range);
      status.Fail? ==> status.error == InvalidType && exists f | k <= f < |bs| ::
        && !IsAnd(bs[f])
        && (forall j | k <= j < f :: IsAnd(bs[j]) && OneAdded(bs[j], owner, name, range) == Ok(bs'[j]))
        && (forall j | f <= j < |bs| :: bs'[j] == bs[j])
    decreases |bs| - k
  {
    if k < |bs| && !IsAnd(bs[k]) {
      assert AllAddedFrom(bs, k, owner, name, range) == (bs, Fail(InvalidType));
    } else if k < |bs| {
      var b := OneAdded(bs[k], owner, name, range);
      assert b.Ok?;
      var bs1 := bs[k := b.value];
      AllAddedFromFail(bs1, k + 1, owner, name, range);
      AllAddedFromPrefix(bs1, k + 1, owner, name, range);
      var (bs', status) := AllAddedFrom(bs1, k + 1, owner, name, range);
      assert AllAddedFrom(bs, k, owner, name, range) == (bs', status);
      if status.Fail? {
        var f :| k + 1 <= f < |bs1| && !IsAnd(bs1[f])
          && (forall j | k + 1 <= j < f :: IsAnd(bs1[j]) && OneAdded(bs1[j], owner, name, range) == Ok(bs'[j]))
          && (forall j | f <= j < |bs1| :: bs'[j] == bs1[j]);
        assert bs'[k] == b.value;
        assert !IsAnd(bs[f]);
        forall j | k <= j < f
          ensures IsAnd(bs[j]) && OneAdded(bs[j], owner, name, range) == Ok(bs'[j])
        {
          if j > k {
            assert bs1[j] == bs[j];
          }
        }
        assert forall j | f <= j < |bs| :: bs'[j] == bs[j];
      }
    }
  }

  /** A distribution row pushes one branch per element es[j], j >= k, in
      front of acc: the copy of p flattened with es[j], the last element's
      branch first. */
  lemma {:induction false} DistributedShape(acc: seq<Node>, p: Node, es: seq<Node>, k: nat)
    requires k <= |es| && Distributed(acc, p, es, k).Ok?
    ensures var r := Distributed(acc, p, es, k).value;
      && |r| == |acc| + |es| - k
      && r[|es| - k..] == acc
      && (k < |es| ==> IsAnd(p))
      && (forall j | k <= j < |es| :: AndMerged(Mirror(p), es[j]) == Ok(r[|es| - 1 - j]))
      && (forall t | 0 <= t < |es| - k :: IsAnd(r[t]))
    decreases |es| - k
  {
    if k < |es| {
      var b := AndMerged(Mirror(p), es[k]).value;
      DistributedShape([b] + acc, p, es, k + 1);
      var r := Distributed(acc, p, es, k).value;
      assert r == Distributed([b] + acc, p, es, k + 1).value;
      assert r[|es| - k - 1..] == [b] + acc;
      assert r[|es| - 1 - k] == b;
      assert r[|es| - k..] == ([b] + acc)[1..];
    }
  }

  /** The AND x AND_OR loop pushes, for every branch bs[j], j >= k, the copy
      of bs[j] flattened with the parent, the last branch's first. */
  lemma {:induction false} BranchesDistributedShape(acc: seq<Node>, parent: Node, bs: seq<Node>, k: nat)
    requires k <= |bs| && BranchesDistributed(acc, parent, bs, k).Ok?
    ensures var r := BranchesDistributed(acc, parent, bs, k).value;
      && |r| == |acc| + |bs| - k
      && r[|bs| - k..] == acc
      && (forall j | k <= j < |bs| :: IsAnd(bs[j]) && AndMerged(Mirror(bs[j]), parent) == Ok(r[|bs| - 1 - j]))
      && (forall t | 0 <= t < |bs| - k :: IsAnd(r[t]))
    decreases |bs| - k
  {
    if k < |bs| {
      var b := AndMerged(Mirror(bs[k]), parent).value;
      BranchesDistributedShape([b] + acc, parent, bs, k + 1);
      var r := BranchesDistributed(acc, parent, bs, k).value;
      assert r == BranchesDistributed([b] + acc, parent, bs, k + 1).value;
      assert r[|bs| - k - 1..] == [b] + acc;
      assert r[|bs| - 1 - k] == b;
      assert r[|bs| - k..] == ([b] + acc)[1..];
    }
  }

  /** q blocks of n branches each. */
  function Blocks(q: nat, n: nat): nat {
    if q == 0 then 0 else Blocks(q - 1, n) + n
  }

  lemma {:induction false} BlocksIsProduct(q: nat, n: nat)
    ensures Blocks(q, n) == q * n
  {
    if q > 0 {
      BlocksIsProduct(q - 1, n);
    }
  }

  /** The cross product pushes a block of |cs| branches, all ANDs, for
      every parent branch ps[i], i >= k, in front of acc; every parent
      branch is checked to be an AND once there is a child element. */
  lemma {:induction false} CrossedLength(acc: seq<Node>, ps: seq<Node>, cs: seq<Node>, k: nat)
    requires k <= |ps| && Crossed(acc, ps, cs, k).Ok?
    ensures var r := Crossed(acc, ps, cs, k).value;
      && |r| == |acc| + Blocks(|ps| - k, |cs|)
      && r[Blocks(|ps| - k, |cs|)..] == acc
      && (forall t | 0 <= t < Blocks(|ps| - k, |cs|) :: IsAnd(r[t]))
      && (forall i | k <= i < |ps| :: |cs| > 0 ==> IsAnd(ps[i]))
    decreases |ps| - k
  {
    if k < |ps| {
      var n := |cs|;
      var a := Distributed(acc, ps[k], cs, 0).value;
      DistributedShape(acc, ps[k], cs, 0);
      CrossedLength(a, ps, cs, k + 1);
      var r := Crossed(acc, ps, cs, k).value;
      assert r == Crossed(a, ps, cs, k + 1).value;
      var d := Blocks(|ps| - 1 - k, n);
      assert Blocks(|ps| - k, n) == d + n;
      assert r[d..] == a;
      assert r[d + n..] == acc by {
        assert r[d + n..] == r[d..][n..];
      }
      forall t | 0 <= t < d + n
        ensures IsAnd(r[t])
      {
        if t >= d {
          assert r[t] == a[t - d];
        }
      }
    }
  }

  /** A block lies before the blocks of the parent branches processed
      earlier. */
  lemma {:induction false} BlocksBelow(q: nat, q': nat, n: nat)
    requires q < q'
    ensures Blocks(q, n) + n <= Blocks(q', n)
    decreases q'
  {
    if q + 1 < q' {
      BlocksBelow(q, q' - 1, n);
    }
  }

  /** In a cross product r of ps and cs, the branch for the pair (ps[i],
      cs[j]) is the copy of the AND ps[i] flattened with cs[j]; the pair's
      block is the |ps| - 1 - i'th, and inside it the element's branch is
      the |cs| - 1 - j'th. */
  ghost predicate PairBranch(r: seq<Node>, ps: seq<Node>, cs: seq<Node>, i: nat, j: nat)
    requires i < |ps| && j < |cs|
  {
    && Blocks(|ps| - 1 - i, |cs|) + (|cs| - 1 - j) < |r|
    && IsAnd(ps[i])
    && AndMerged(Mirror(ps[i]), cs[j]) == Ok(r[Blocks(|ps| - 1 - i, |cs|) + (|cs| - 1 - j)])
  }

  /** In the cross product the branch for the pair (ps[i], cs[j]) is the
      copy of ps[i] flattened with cs[j], at a position fixed by i and j. */
  lemma {:induction false} CrossedPairs(acc: seq<Node>, ps: seq<Node>, cs: seq<Node>, k: nat)
    requires k <= |ps| && Crossed(acc, ps, cs, k).Ok?
    ensures forall i, j | k <= i < |ps| && 0 <= j < |cs| :: PairBranch(Crossed(acc, ps, cs, k).value, ps, cs, i, j)
    decreases |ps| - k
  {
    if k < |ps| {
      var n := |cs|;
      var a := Distributed(acc, ps[k], cs, 0).value;
      DistributedShape(acc, ps[k], cs, 0);
      CrossedLength(a, ps, cs, k + 1);
      CrossedPairs(a, ps, cs, k + 1);
      CrossedLength(acc, ps, cs, k);
      var r := Crossed(acc, ps, cs, k).value;
      assert r == Crossed(a, ps, cs, k + 1).value;
      var d := Blocks(|ps| - 1 - k, n);
      assert Blocks(|ps| - k, n) == d + n;
      assert r[d..] == a;
      forall i, j | k <= i < |ps| && 0 <= j < |cs|
        ensures PairBranch(r, ps, cs, i, j)
      {
        if i == k {
          assert r[d + (n - 1 - j)] == a[n - 1 - j];
        } else {
          assert PairBranch(Crossed(a, ps, cs, k + 1).value, ps, cs, i, j);
        }
      }
    }
  }

  /** AND x OR in `logic_pop_op` gives an AND_OR with one branch per
      element of the child, each an AND: the parent flattened with that
      element. */
  lemma AndTimesOrBranches(parent: Node, child: Node)
    requires IsAnd(parent) && child.Op? && child.kind == Or && Combined(parent, child).Ok?
    ensures var r := Combined(parent, child).value;
      var es := child.children;
      && r.Op? && r.kind == AndOr && |r.children| == |es|
      && (forall j | 0 <= j < |es| :: AndMerged(Mirror(parent), es[j]) == Ok(r.children[|es| - 1 - j]))
      && (forall t | 0 <= t < |r.children| :: IsAnd(r.children[t]))
  {
    DistributedShape([], parent, child.children, 0);
  }

  /** AND x AND_OR in `logic_pop_op` gives an AND_OR with one branch per
      branch of the child, each an AND: that branch flattened with the
      parent; a child branch that is not an AND is refused. */
  lemma AndTimesAndOrBranches(parent: Node, child: Node)
    requires IsAnd(parent) && child.Op? && child.kind == AndOr && Combined(parent, child).Ok?
    ensures var r := Combined(parent, child).value;
      var bs := child.children;
      && r.Op? && r.kind == AndOr && |r.children| == |bs|
      && (forall j | 0 <= j < |bs| :: IsAnd(bs[j]) && AndMerged(Mirror(bs[j]), parent) == Ok(r.children[|bs| - 1 - j]))
      && (forall t | 0 <= t < |r.children| :: IsAnd(r.children[t]))
  {
    BranchesDistributedShape([], parent, child.children, 0);
  }

  /** AND_OR x OR and AND_OR x AND_OR in `logic_pop_op` give an AND_OR with
      |parent| x |child| branches, each an AND: for every pair of a parent
      branch and a child element, the one flattened with the other. */
  lemma AndOrTimesOrBranches(parent: Node, child: Node)
    requires parent.Op? && parent.kind == AndOr && child.Op? && child.kind != And
    requires Combined(parent, child).Ok?
    ensures var r := Combined(parent, child).value;
      var (ps, cs) := (parent.children, child.children);
      && r.Op? && r.kind == AndOr && |r.children| == |ps| * |cs|
      && (forall t | 0 <= t < |r.children| :: IsAnd(r.children[t]))
      && (forall i, j | 0 <= i < |ps| && 0 <= j < |cs| :: PairBranch(r.children, ps, cs, i, j))
  {
    var (ps, cs) := (parent.children, child.children);
    CrossedLength([], ps, cs, 0);
    CrossedPairs([], ps, cs, 0);
    BlocksIsProduct(|ps|, |cs|);
    assert Combined(parent, child).value.children == Crossed([], ps, cs, 0).value;
  }
}
