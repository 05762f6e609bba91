/**
 * The normal form the engine keeps (logic.c:291, 470, 547 check that
 * AND_OR branches are ANDs): on well-formed operands no merge rule fails,
 * and every rule returns a well-formed operator again.
 */
module LogicWellFormed {
  import opened Common
  import opened LogicNodes
  import opened LogicMerge
  import opened LogicShape

  /** Every element is a flattened AND. */
  ghost predicate AllConjunctions(bs: seq<Node>) {
    forall i | 0 <= i < |bs| :: Conjunction(bs[i])
  }

  /** Every element is a VAR or a flattened AND: what an operator may take
      in one piece. */
  ghost predicate Flat(es: seq<Node>) {
    forall i | 0 <= i < |es| :: es[i].Var? || Conjunction(es[i])
  }

  /** Reversing a child list keeps it free of repeated names. */
  lemma MirrorAllUnique(cs: seq<Node>)
    requires UniqueVars(cs)
    ensures UniqueVars(MirrorAll(cs))
  {
    var ms := MirrorAll(cs);
    forall a, b | 0 <= a < |ms| && 0 <= b < |ms| && ms[a].Var? && ms[b].Var? && ms[a].name == ms[b].name
      ensures a == b
    {
      var a', b' := |cs| - 1 - a, |cs| - 1 - b;
      assert ms[a] == Mirror(cs[a']) && ms[b] == Mirror(cs[b']);
      assert cs[a'].Var? && cs[b'].Var?;
      assert ms[a] == cs[a'] && ms[b] == cs[b'];
      assert a' == b';
    }
  }

  lemma MirrorConjunction(n: Node)
    requires Conjunction(n)
    ensures Conjunction(Mirror(n))
  {
    MirrorAllUnique(n.children);
  }

  /** A copy of a well-formed operator is well-formed. */
  lemma MirrorWellFormed(n: Node)
    requires WellFormed(n)
    ensures WellFormed(Mirror(n))
  {
    var cs := n.children;
    var ms := MirrorAll(cs);
    match n.kind
    case And =>
      MirrorConjunction(n);
    case Or =>
      forall i | 0 <= i < |ms| ensures ms[i].Var? || Conjunction(ms[i]) {
        if !cs[|cs| - 1 - i].Var? {
          MirrorConjunction(cs[|cs| - 1 - i]);
        }
      }
      MirrorAllUnique(cs);
    case AndOr =>
      forall i | 0 <= i < |ms| ensures Conjunction(ms[i]) {
        MirrorConjunction(cs[|cs| - 1 - i]);
      }
  }

  /** `logic_add_var_one` keeps an AND flattened. */
  lemma OneAddedConjunction(op: Node, owner: Owner, name: Name, range: Range)
    requires Conjunction(op)
    ensures OneAdded(op, owner, name, range).Ok?
    ensures Conjunction(OneAdded(op, owner, name, range).value)
  {
    OneAddedKeepsNamesUnique(op, owner, name, range);
  }

  /** `logic_add_var_one` keeps an OR well-formed. */
  lemma OneAddedOr(op: Node, owner: Owner, name: Name, range: Range)
    requires WellFormed(op) && op.kind == Or
    ensures OneAdded(op, owner, name, range).Ok?
    ensures WellFormed(OneAdded(op, owner, name, range).value)
  {
    OneAddedKeepsNamesUnique(op, owner, name, range);
    var r := OneAdded(op, owner, name, range).value;
    forall i | 0 <= i < |r.children| ensures r.children[i].Var? || Conjunction(r.children[i]) {
      if !r.children[i].Var? {
        var j :| 0 <= j < |op.children| && op.children[j] == r.children[i];
      }
    }
  }

  /** Flattening VARs into an AND keeps it flattened and never fails. */
  lemma {:induction false} AndMergedFromConjunction(parent: Node, child: Node, k: nat)
    requires Conjunction(parent) && child.Op? && k <= |child.children|
    requires forall i | 0 <= i < |child.children| :: child.children[i].Var?
    ensures AndMergedFrom(parent, child, k).Ok?
    ensures Conjunction(AndMergedFrom(parent, child, k).value)
    decreases |child.children| - k
  {
    if k < |child.children| {
      var v := child.children[k];
      OneAddedConjunction(parent, v.owner, v.name, v.range);
      AndMergedFromConjunction(OneAdded(parent, v.owner, v.name, v.range).value, child, k + 1);
    }
  }

  /** `logic_merge_and` of a VAR or flattened AND into a flattened AND. */
  lemma AndMergedConjunction(parent: Node, child: Node)
    requires Conjunction(parent) && (child.Var? || Conjunction(child))
    ensures AndMerged(parent, child).Ok?
    ensures Conjunction(AndMerged(parent, child).value)
  {
    if child.Var? {
      OneAddedConjunction(parent, child.owner, child.name, child.range);
    } else {
      AndMergedFromConjunction(parent, child, 0);
    }
  }

  /** `logic_merge_or` of a VAR or flattened AND into a well-formed OR. */
  lemma OrMergedWellFormed(parent: Node, child: Node)
    requires WellFormed(parent) && parent.kind == Or && (child.Var? || Conjunction(child))
    ensures OrMerged(parent, child).Ok?
    ensures WellFormed(OrMerged(parent, child).value)
  {
    if child.Var? {
      OneAddedOr(parent, child.owner, child.name, child.range);
    } else {
      MirrorConjunction(child);
      var cs := [Mirror(child)] + parent.children;
      forall i | 0 <= i < |cs| ensures cs[i].Var? || Conjunction(cs[i]) {
        if i > 0 {
          assert cs[i] == parent.children[i - 1];
        }
      }
      forall a, b | 0 <= a < |cs| && 0 <= b < |cs| && cs[a].Var? && cs[b].Var? && cs[a].name == cs[b].name
        ensures a == b
      {
        assert cs[a] == parent.children[a - 1] && cs[b] == parent.children[b - 1];
      }
    }
  }

  lemma {:induction false} OrMergedFromWellFormed(node: Node, es: seq<Node>, k: nat)
    requires WellFormed(node) && node.kind == Or && k <= |es| && Flat(es)
    ensures OrMergedFrom(node, es, k).Ok?
    ensures WellFormed(OrMergedFrom(node, es, k).value)
    decreases |es| - k
  {
    if k < |es| {
      OrMergedWellFormed(node, es[k]);
      OrMergedFromWellFormed(OrMerged(node, es[k]).value, es, k + 1);
    }
  }

  /** `logic_add_var_all` on a well-formed AND_OR succeeds and keeps every
      branch flattened. */
  lemma AllAddedWellFormed(op: Node, owner: Owner, name: Name, range: Range)
    requires WellFormed(op) && op.kind == AndOr
    ensures AllAdded(op, owner, name, range).1.Pass?
    ensures WellFormed(AllAdded(op, owner, name, range).0)
  {
    var bs := op.children;
    var bs' := AllAddedFrom(bs, 0, owner, name, range).0;
    AllAddedFromShape(bs, 0, owner, name, range);
    assert AllAdded(op, owner, name, range).0 == Op(AndOr, bs');
    forall j | 0 <= j < |bs| ensures Conjunction(bs'[j]) {
      OneAddedConjunction(bs[j], owner, name, range);
    }
  }

  lemma {:induction false} AndOrMergedFromWellFormed(parent: Node, child: Node, k: nat)
    requires WellFormed(parent) && parent.kind == AndOr && child.Op? && k <= |child.children|
    requires forall i | 0 <= i < |child.children| :: child.children[i].Var?
    ensures AndOrMergedFrom(parent, child, k).Ok?
    ensures WellFormed(AndOrMergedFrom(parent, child, k).value)
    decreases |child.children| - k
  {
    if k < |child.children| {
      var v := child.children[k];
      AllAddedWellFormed(parent, v.owner, v.name, v.range);
      AndOrMergedFromWellFormed(AllAdded(parent, v.owner, v.name, v.range).0, child, k + 1);
    }
  }

  /** `logic_merge_and_or` of a VAR or flattened AND into a well-formed
      AND_OR. */
  lemma AndOrMergedWellFormed(parent: Node, child: Node)
    requires WellFormed(parent) && parent.kind == AndOr && (child.Var? || Conjunction(child))
    ensures AndOrMerged(parent, child).Ok?
    ensures WellFormed(AndOrMerged(parent, child).value)
  {
    if child.Var? {
      AllAddedWellFormed(parent, child.owner, child.name, child.range);
    } else {
      AndOrMergedFromWellFormed(parent, child, 0);
    }
  }

  lemma {:induction false} DistributedConjunctions(acc: seq<Node>, p: Node, es: seq<Node>, k: nat)
    requires AllConjunctions(acc) && Conjunction(p) && k <= |es| && Flat(es)
    ensures Distributed(acc, p, es, k).Ok?
    ensures AllConjunctions(Distributed(acc, p, es, k).value)
    decreases |es| - k
  {
    if k < |es| {
      MirrorConjunction(p);
      AndMergedConjunction(Mirror(p), es[k]);
      var b := AndMerged(Mirror(p), es[k]).value;
      assert AllConjunctions([b] + acc) by {
        forall i | 0 <= i < |acc| + 1 ensures Conjunction(([b] + acc)[i]) {
          if i > 0 {
            assert ([b] + acc)[i] == acc[i - 1];
          }
        }
      }
      DistributedConjunctions([b] + acc, p, es, k + 1);
    }
  }

  lemma {:induction false} BranchesDistributedConjunctions(acc: seq<Node>, parent: Node, bs: seq<Node>, k: nat)
    requires AllConjunctions(acc) && Conjunction(parent) && k <= |bs| && AllConjunctions(bs)
    ensures BranchesDistributed(acc, parent, bs, k).Ok?
    ensures AllConjunctions(BranchesDistributed(acc, parent, bs, k).value)
    decreases |bs| - k
  {
    if k < |bs| {
      MirrorConjunction(bs[k]);
      AndMergedConjunction(Mirror(bs[k]), parent);
      var b := AndMerged(Mirror(bs[k]), parent).value;
      assert AllConjunctions([b] + acc) by {
        forall i | 0 <= i < |acc| + 1 ensures Conjunction(([b] + acc)[i]) {
          if i > 0 {
            assert ([b] + acc)[i] == acc[i - 1];
          }
        }
      }
      BranchesDistributedConjunctions([b] + acc, parent, bs, k + 1);
    }
  }

  lemma {:induction false} CrossedConjunctions(acc: seq<Node>, ps: seq<Node>, cs: seq<Node>, k: nat)
    requires AllConjunctions(acc) && k <= |ps| && AllConjunctions(ps) && Flat(cs)
    ensures Crossed(acc, ps, cs, k).Ok?
    ensures AllConjunctions(Crossed(acc, ps, cs, k).value)
    decreases |ps| - k
  {
    if k < |ps| {
      DistributedConjunctions(acc, ps[k], cs, 0);
      CrossedConjunctions(Distributed(acc, ps[k], cs, 0).value, ps, cs, k + 1);
    }
  }

  /** The reduction of `logic_pop_op` never fails on two well-formed
      operators, and its result is well-formed: in particular every AND_OR
      it builds has only flattened ANDs as branches. */
  lemma CombinedWellFormed(parent: Node, child: Node)
    requires WellFormed(parent) && WellFormed(child)
    ensures Combined(parent, child).Ok?
    ensures WellFormed(Combined(parent, child).value)
  {
    var ps, cs := parent.children, child.children;
    assert child.kind == And ==> forall i | 0 <= i < |cs| :: cs[i].Var?;
    assert child.kind == Or ==> Flat(cs);
    assert child.kind == AndOr ==> Flat(cs);
    match (parent.kind, child.kind)
    case (And, And) =>
      MirrorConjunction(parent);
      AndMergedConjunction(Mirror(parent), child);
    case (And, Or) =>
      DistributedConjunctions([], parent, cs, 0);
    case (And, AndOr) =>
      BranchesDistributedConjunctions([], parent, cs, 0);
    case (Or, And) =>
      MirrorWellFormed(parent);
      OrMergedWellFormed(Mirror(parent), child);
    case (Or, _) =>
      MirrorWellFormed(parent);
      OrMergedFromWellFormed(Mirror(parent), cs, 0);
    case (AndOr, And) =>
      MirrorWellFormed(parent);
      AndOrMergedWellFormed(Mirror(parent), child);
    case (AndOr, _) =>
      CrossedConjunctions([], ps, cs, 0);
  }
}
