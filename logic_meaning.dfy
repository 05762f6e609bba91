/**
 * What the merge rules of logic.c mean: every rule turns its operands into
 * a formula that holds exactly when the operands hold together in the way
 * the operator says.  A copy means what its original means; folding a
 * variable into an AND conjoins it and into an OR adds it as an
 * alternative; reducing two stack entries conjoins them under an AND or
 * AND_OR parent and disjoins them under an OR parent.
 */
module LogicMeaning {
  import opened Common
  import opened LogicNodes
  import opened LogicMerge
  import opened LogicShape

  ghost predicate AnyHolds(cs: seq<Node>, env: Env) {
    exists i | 0 <= i < |cs| :: Holds(cs[i], env)
  }

  ghost predicate AnyHoldsFrom(cs: seq<Node>, k: nat, env: Env) {
    exists j | k <= j < |cs| :: Holds(cs[j], env)
  }

  ghost predicate AllHoldFrom(cs: seq<Node>, k: nat, env: Env) {
    forall j | k <= j < |cs| :: Holds(cs[j], env)
  }

  /** A copy made by `logic_node_copy` is a copy of its copy's original:
      reversing every child list twice restores it. */
  lemma {:induction false} MirrorInvolution(n: Node)
    ensures Mirror(Mirror(n)) == n
    decreases n
  {
    match n
    case Var(_, _, _) =>
    case Op(k, cs) =>
      var once := MirrorAll(cs);
      var twice := MirrorAll(once);
      forall j | 0 <= j < |cs|
        ensures twice[j] == cs[j]
      {
        MirrorInvolution(cs[j]);
      }
      assert twice == cs;
  }

  /** A copy holds exactly when its original holds. */
  lemma {:induction false} MirrorHolds(n: Node, env: Env)
    ensures Holds(Mirror(n), env) <==> Holds(n, env)
    decreases n
  {
    match n
    case Var(_, _, _) =>
    case Op(k, cs) =>
      var ms := MirrorAll(cs);
      forall j | 0 <= j < |cs|
        ensures Holds(ms[j], env) <==> Holds(cs[|cs| - 1 - j], env)
      {
        MirrorHolds(cs[|cs| - 1 - j], env);
      }
      if k == And {
        if Holds(n, env) {
          assert forall j | 0 <= j < |ms| :: Holds(ms[j], env);
        }
        if Holds(Mirror(n), env) {
          forall j | 0 <= j < |cs|
            ensures Holds(cs[j], env)
          {
            assert Holds(ms[|cs| - 1 - j], env);
          }
        }
      } else {
        if Holds(n, env) {
          var j :| 0 <= j < |cs| && Holds(cs[j], env);
          assert Holds(ms[|cs| - 1 - j], env);
        }
        if Holds(Mirror(n), env) {
          var j :| 0 <= j < |ms| && Holds(ms[j], env);
          assert Holds(cs[|cs| - 1 - j], env);
        }
      }
  }

  /** Replacing child i of an AND by one that holds when the old child and
      b hold conjoins b to the AND. */
  lemma UpdatedAndHolds(cs: seq<Node>, i: nat, x: Node, b: bool, env: Env)
    requires i < |cs| && (Holds(x, env) <==> Holds(cs[i], env) && b)
    ensures Holds(Op(And, cs[i := x]), env) <==> Holds(Op(And, cs), env) && b
  {
    var cs' := cs[i := x];
    if Holds(Op(And, cs), env) && b {
      assert forall j | 0 <= j < |cs'| :: Holds(cs'[j], env);
    }
    if Holds(Op(And, cs'), env) {
      forall j | 0 <= j < |cs| ensures Holds(cs[j], env) {
        assert Holds(cs'[j], env);
      }
      assert Holds(cs'[i], env);
    }
  }

  /** Replacing child i of an OR or AND_OR by one that holds when the old
      child or b holds adds b as an alternative. */
  lemma UpdatedOrHolds(k: OpKind, cs: seq<Node>, i: nat, x: Node, b: bool, env: Env)
    requires k != And && i < |cs| && (Holds(x, env) <==> Holds(cs[i], env) || b)
    ensures Holds(Op(k, cs[i := x]), env) <==> Holds(Op(k, cs), env) || b
  {
    var cs' := cs[i := x];
    if Holds(Op(k, cs), env) {
      var j :| 0 <= j < |cs| && Holds(cs[j], env);
      assert Holds(cs'[if j == i then i else j], env);
    }
    if b {
      assert Holds(cs'[i], env);
    }
    if Holds(Op(k, cs'), env) {
      var j :| 0 <= j < |cs'| && Holds(cs'[j], env);
      if j != i {
        assert Holds(cs[j], env);
      }
    }
  }

  /** Putting x in front of the children of an AND conjoins it. */
  lemma PrependedAndHolds(x: Node, cs: seq<Node>, env: Env)
    ensures Holds(Op(And, [x] + cs), env) <==> Holds(Op(And, cs), env) && Holds(x, env)
  {
    var cs' := [x] + cs;
    if Holds(Op(And, cs), env) && Holds(x, env) {
      forall j | 0 <= j < |cs'| ensures Holds(cs'[j], env) {
        if j > 0 {
          assert cs'[j] == cs[j - 1];
        }
      }
    }
    if Holds(Op(And, cs'), env) {
      assert Holds(cs'[0], env);
      forall j | 0 <= j < |cs| ensures Holds(cs[j], env) {
        assert cs'[j + 1] == cs[j];
      }
    }
  }

  /** Putting x in front of the children of an OR or AND_OR adds it as an
      alternative. */
  lemma PrependedOrHolds(k: OpKind, x: Node, cs: seq<Node>, env: Env)
    requires k != And
    ensures Holds(Op(k, [x] + cs), env) <==> Holds(Op(k, cs), env) || Holds(x, env)
  {
    var cs' := [x] + cs;
    if Holds(Op(k, cs), env) {
      var j :| 0 <= j < |cs| && Holds(cs[j], env);
      assert cs'[j + 1] == cs[j];
    }
    if Holds(x, env) {
      assert Holds(cs'[0], env);
    }
    if Holds(Op(k, cs'), env) {
      var j :| 0 <= j < |cs'| && Holds(cs'[j], env);
      if j > 0 {
        assert cs'[j] == cs[j - 1];
      }
    }
  }

  /** `logic_add_var_one` conjoins the variable to an AND and adds it as an
      alternative to an OR or AND_OR operator. */
  lemma OneAddedMeaning(op: Node, owner: Owner, name: Name, range: Range, env: Env)
    requires op.Op? && OneAdded(op, owner, name, range).Ok?
    ensures Holds(OneAdded(op, owner, name, range).value, env)
        <==> Connective(op.kind, Holds(op, env), env(name) in range)
  {
    var cs := op.children;
    var b := env(name) in range;
    assert op == Op(op.kind, cs);
    match FirstVar(cs, name)
    case Some(i) =>
      var v := cs[i];
      var m := VarMerge(op.kind, v.range, range).value;
      var x := Var(v.owner, v.name, m);
      assert OneAdded(op, owner, name, range).value == Op(op.kind, cs[i := x]);
      if op.kind == And {
        UpdatedAndHolds(cs, i, x, b, env);
      } else {
        UpdatedOrHolds(op.kind, cs, i, x, b, env);
      }
    case None =>
      var x := Var(owner, name, range);
      assert OneAdded(op, owner, name, range).value == Op(op.kind, [x] + cs);
      if op.kind == And {
        PrependedAndHolds(x, cs, env);
      } else {
        PrependedOrHolds(op.kind, x, cs, env);
      }
  }

  lemma AnyHoldsCons(b: Node, acc: seq<Node>, env: Env)
    ensures AnyHolds([b] + acc, env) <==> Holds(b, env) || AnyHolds(acc, env)
  {
    if AnyHolds(acc, env) {
      var i :| 0 <= i < |acc| && Holds(acc[i], env);
      assert ([b] + acc)[i + 1] == acc[i];
    }
    if Holds(b, env) {
      assert ([b] + acc)[0] == b;
    }
    if AnyHolds([b] + acc, env) {
      var i :| 0 <= i < |acc| + 1 && Holds(([b] + acc)[i], env);
      if i == 0 {
        assert ([b] + acc)[0] == b;
      } else {
        assert ([b] + acc)[i] == acc[i - 1];
      }
    }
  }

  lemma AnyHoldsFromStep(cs: seq<Node>, k: nat, env: Env)
    requires k < |cs|
    ensures AnyHoldsFrom(cs, k, env) <==> Holds(cs[k], env) || AnyHoldsFrom(cs, k + 1, env)
  {
  }

  lemma AllHoldFromStep(cs: seq<Node>, k: nat, env: Env)
    requires k < |cs|
    ensures AllHoldFrom(cs, k, env) <==> Holds(cs[k], env) && AllHoldFrom(cs, k + 1, env)
  {
  }

  /** `logic_add_var_all` on a disjunction of ANDs conjoins the variable to
      the whole disjunction. */
  lemma AllAddedMeaning(op: Node, owner: Owner, name: Name, range: Range, env: Env)
    requires op.Op? && op.kind != And && AllAdded(op, owner, name, range).1.Pass?
    ensures Holds(AllAdded(op, owner, name, range).0, env) <==> Holds(op, env) && env(name) in range
  {
    var bs := op.children;
    var bs' := AllAddedFrom(bs, 0, owner, name, range).0;
    assert AllAdded(op, owner, name, range).0 == Op(op.kind, bs');
    forall j | 0 <= j < |bs|
      ensures Holds(bs'[j], env) <==> Holds(bs[j], env) && env(name) in range
    {
      AllAddedBranch(bs, owner, name, range, j);
      OneAddedMeaning(bs[j], owner, name, range, env);
    }
    BranchesConjoined(bs, bs', env(name) in range, env);
    assert Holds(Op(op.kind, bs'), env) <==> AnyHolds(bs', env);
    assert Holds(op, env) <==> AnyHolds(bs, env);
  }

  /** After a successful `logic_add_var_all`, branch j is branch j with the
      variable added. */
  lemma AllAddedBranch(bs: seq<Node>, owner: Owner, name: Name, range: Range, j: nat)
    requires j < |bs| && AllAddedFrom(bs, 0, owner, name, range).1.Pass?
    ensures IsAnd(bs[j]) && OneAdded(bs[j], owner, name, range) == Ok(AllAddedFrom(bs, 0, owner, name, range).0[j])
  {
    AllAddedFromShape(bs, 0, owner, name, range);
  }

  /** When every branch holds exactly when its old self and b hold, some
      branch holds exactly when some old branch holds and b holds. */
  lemma BranchesConjoined(bs: seq<Node>, bs': seq<Node>, b: bool, env: Env)
    requires |bs'| == |bs|
    requires forall j | 0 <= j < |bs| :: (Holds(bs'[j], env) <==> Holds(bs[j], env) && b)
    ensures AnyHolds(bs', env) <==> AnyHolds(bs, env) && b
  {
    if AnyHolds(bs, env) && b {
      var j :| 0 <= j < |bs| && Holds(bs[j], env);
      assert Holds(bs'[j], env);
    }
  }

  /** `logic_merge_and` into an AND conjoins the child to it. */
  lemma {:induction false} AndMergedMeaning(parent: Node, child: Node, env: Env)
    requires parent.Op? && parent.kind == And && AndMerged(parent, child).Ok?
    ensures Holds(AndMerged(parent, child).value, env) <==> Holds(parent, env) && Holds(child, env)
    decreases child, 1
  {
    match child
    case Var(o, n, rg) =>
      OneAddedMeaning(parent, o, n, rg, env);
    case Op(And, cs) =>
      AndMergedFromMeaning(parent, child, 0, env);
    case Op(_, _) =>
      assert false;
  }

  lemma {:induction false} AndMergedFromMeaning(parent: Node, child: Node, k: nat, env: Env)
    requires parent.Op? && parent.kind == And && child.Op? && k <= |child.children|
    requires AndMergedFrom(parent, child, k).Ok?
    ensures Holds(AndMergedFrom(parent, child, k).value, env)
        <==> Holds(parent, env) && AllHoldFrom(child.children, k, env)
    decreases child, 0, |child.children| - k
  {
    if k < |child.children| {
      var p := AndMerged(parent, child.children[k]).value;
      AndMergedMeaning(parent, child.children[k], env);
      AndMergedFromMeaning(p, child, k + 1, env);
      AllHoldFromStep(child.children, k, env);
    }
  }

  /** `logic_merge_or` into an OR adds the child as an alternative. */
  lemma OrMergedMeaning(parent: Node, child: Node, env: Env)
    requires parent.Op? && parent.kind != And && OrMerged(parent, child).Ok?
    ensures Holds(OrMerged(parent, child).value, env) <==> Holds(parent, env) || Holds(child, env)
  {
    match child
    case Var(o, n, rg) =>
      OneAddedMeaning(parent, o, n, rg, env);
    case Op(And, _) =>
      MirrorHolds(child, env);
      AnyHoldsCons(Mirror(child), parent.children, env);
    case Op(_, _) =>
      assert false;
  }

  lemma {:induction false} OrMergedFromMeaning(node: Node, es: seq<Node>, k: nat, env: Env)
    requires node.Op? && node.kind != And && k <= |es| && OrMergedFrom(node, es, k).Ok?
    ensures Holds(OrMergedFrom(node, es, k).value, env) <==> Holds(node, env) || AnyHoldsFrom(es, k, env)
    decreases |es| - k
  {
    if k < |es| {
      var n := OrMerged(node, es[k]).value;
      OrMergedMeaning(node, es[k], env);
      OrMergedFromMeaning(n, es, k + 1, env);
      AnyHoldsFromStep(es, k, env);
    }
  }

  /** `logic_merge_and_or` into an AND_OR conjoins the child to it. */
  lemma {:induction false} AndOrMergedMeaning(parent: Node, child: Node, env: Env)
    requires parent.Op? && parent.kind == AndOr && AndOrMerged(parent, child).Ok?
    ensures Holds(AndOrMerged(parent, child).value, env) <==> Holds(parent, env) && Holds(child, env)
    decreases child, 1
  {
    match child
    case Var(o, n, rg) =>
      AllAddedMeaning(parent, o, n, rg, env);
    case Op(And, cs) =>
      AndOrMergedFromMeaning(parent, child, 0, env);
    case Op(_, _) =>
      assert false;
  }

  lemma {:induction false} AndOrMergedFromMeaning(parent: Node, child: Node, k: nat, env: Env)
    requires parent.Op? && parent.kind == AndOr && child.Op? && k <= |child.children|
    requires AndOrMergedFrom(parent, child, k).Ok?
    ensures Holds(AndOrMergedFrom(parent, child, k).value, env)
        <==> Holds(parent, env) && AllHoldFrom(child.children, k, env)
    decreases child, 0, |child.children| - k
  {
    if k < |child.children| {
      var p := AndOrMerged(parent, child.children[k]).value;
      AndOrMergedMeaning(parent, child.children[k], env);
      AndOrMergedFromMeaning(p, child, k + 1, env);
      AllHoldFromStep(child.children, k, env);
    }
  }

  /** A distribution row adds the alternatives p AND es[j], j >= k. */
  lemma {:induction false} DistributedMeaning(acc: seq<Node>, p: Node, es: seq<Node>, k: nat, env: Env)
    requires k <= |es| && Distributed(acc, p, es, k).Ok?
    ensures AnyHolds(Distributed(acc, p, es, k).value, env)
        <==> AnyHolds(acc, env) || (Holds(p, env) && AnyHoldsFrom(es, k, env))
    decreases |es| - k
  {
    if k < |es| {
      var b := AndMerged(Mirror(p), es[k]).value;
      AndMergedMeaning(Mirror(p), es[k], env);
      MirrorHolds(p, env);
      DistributedMeaning([b] + acc, p, es, k + 1, env);
      AnyHoldsCons(b, acc, env);
      AnyHoldsFromStep(es, k, env);
    }
  }

  /** The AND x AND_OR loop adds the alternatives bs[j] AND parent, j >= k. */
  lemma {:induction false} BranchesDistributedMeaning(acc: seq<Node>, parent: Node, bs: seq<Node>, k: nat, env: Env)
    requires k <= |bs| && BranchesDistributed(acc, parent, bs, k).Ok?
    ensures AnyHolds(BranchesDistributed(acc, parent, bs, k).value, env)
        <==> AnyHolds(acc, env) || (Holds(parent, env) && AnyHoldsFrom(bs, k, env))
    decreases |bs| - k
  {
    if k < |bs| {
      var b := AndMerged(Mirror(bs[k]), parent).value;
      AndMergedMeaning(Mirror(bs[k]), parent, env);
      MirrorHolds(bs[k], env);
      BranchesDistributedMeaning([b] + acc, parent, bs, k + 1, env);
      AnyHoldsCons(b, acc, env);
      AnyHoldsFromStep(bs, k, env);
    }
  }

  /** The cross product adds the alternatives ps[i] AND cs[j], i >= k. */
  lemma {:induction false} CrossedMeaning(acc: seq<Node>, ps: seq<Node>, cs: seq<Node>, k: nat, env: Env)
    requires k <= |ps| && Crossed(acc, ps, cs, k).Ok?
    ensures AnyHolds(Crossed(acc, ps, cs, k).value, env)
        <==> AnyHolds(acc, env) || (AnyHoldsFrom(ps, k, env) && AnyHolds(cs, env))
    decreases |ps| - k
  {
    if k < |ps| {
      var a := Distributed(acc, ps[k], cs, 0).value;
      DistributedMeaning(acc, ps[k], cs, 0, env);
      CrossedMeaning(a, ps, cs, k + 1, env);
      AnyHoldsFromStep(ps, k, env);
    }
  }

  /** The reduction of `logic_pop_op` conjoins the popped child to an AND or
      AND_OR parent and disjoins it from an OR parent. */
  lemma CombinedMeaning(parent: Node, child: Node, env: Env)
    requires Combined(parent, child).Ok?
    ensures parent.Op? && child.Op?
    ensures Holds(Combined(parent, child).value, env)
        <==> Joins(parent.kind, Holds(parent, env), Holds(child, env))
  {
    match (parent, child)
    case (Op(And, _), Op(And, _)) =>
      AndMergedMeaning(Mirror(parent), child, env);
      MirrorHolds(parent, env);
    case (Op(And, _), Op(Or, es)) =>
      DistributedMeaning([], parent, es, 0, env);
    case (Op(And, _), Op(AndOr, bs)) =>
      BranchesDistributedMeaning([], parent, bs, 0, env);
    case (Op(Or, _), Op(And, _)) =>
      OrMergedMeaning(Mirror(parent), child, env);
      MirrorHolds(parent, env);
    case (Op(Or, _), Op(_, es)) =>
      OrMergedFromMeaning(Mirror(parent), es, 0, env);
      MirrorHolds(parent, env);
    case (Op(AndOr, _), Op(And, _)) =>
      AndOrMergedMeaning(Mirror(parent), child, env);
      MirrorHolds(parent, env);
    case (Op(AndOr, ps), Op(_, cs)) =>
      CrossedMeaning([], ps, cs, 0, env);
  }
}
