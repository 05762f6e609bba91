/**
 * The merge rules of logic.c as functions on node values: folding one
 * variable into an operator (constraint merge), folding one formula into
 * another (flattening and distribution), and the case analysis of
 * `logic_pop_op`.  Each function follows the loop of its C routine: the
 * `...From` functions carry the loop position `k`, and the functions that
 * build a new branch list carry it as `acc`, which grows at the front as
 * `list_push` does.
 */
module LogicMerge {
  import opened Common
  import opened LogicNodes

  /** `logic_add_var_one`: merge into the first VAR child of that name (by
      intersection under AND, by union under OR), or push a new VAR onto the
      front of the child list. */
  function OneAdded(op: Node, owner: Owner, name: Name, range: Range): (r: Result<Node, Error>)
    requires op.Op?
    ensures r.Ok? <==> op.kind != AndOr || FirstVar(op.children, name).None?
    ensures r.Err? ==> r.error == InvalidType
    ensures r.Ok? ==> r.value.Op? && r.value.kind == op.kind
    ensures r.Ok? ==> |r.value.children| == |op.children| + (if FirstVar(op.children, name).None? then 1 else 0)
  {
    match FirstVar(op.children, name)
    case Some(i) =>
      var v := op.children[i];
      (match VarMerge(op.kind, v.range, range)
       case Ok(m) => Ok(Op(op.kind, op.children[i := Var(v.owner, v.name, m)]))
       case Err(e) => Err(e))
    case None => Ok(Op(op.kind, [Var(owner, name, range)] + op.children))
  }

  /** The loop of `logic_add_var_all` from branch k on.  The branches before
      k have been updated in place; the first branch that is not an AND, or
      that refuses the variable, stops the loop and leaves the rest as they
      are. */
  function AllAddedFrom(bs: seq<Node>, k: nat, owner: Owner, name: Name, range: Range): (r: (seq<Node>, Outcome<Error>))
    requires k <= |bs|
    ensures |r.0| == |bs|
    ensures r.1.Fail? ==> r.1.error == InvalidType
    decreases |bs| - k
  {
    if k == |bs| then (bs, Pass)
    else if !IsAnd(bs[k]) then (bs, Fail(InvalidType))
    else match OneAdded(bs[k], owner, name, range)
      case Err(e) => (bs, Fail(e))
      case Ok(b) => AllAddedFrom(bs[k := b], k + 1, owner, name, range)
  }

  /** `logic_add_var_all`: fold a variable into every branch of an operator. */
  function AllAdded(op: Node, owner: Owner, name: Name, range: Range): (r: (Node, Outcome<Error>))
    requires op.Op?
    ensures r.0.Op? && r.0.kind == op.kind && |r.0.children| == |op.children|
    ensures r.1.Fail? ==> r.1.error == InvalidType
  {
    var (bs, status) := AllAddedFrom(op.children, 0, owner, name, range);
    (Op(op.kind, bs), status)
  }

  /** `logic_merge_and`: fold a VAR, or (recursively) every element of an
      AND, into the operator `parent`. */
  function AndMerged(parent: Node, child: Node): (r: Result<Node, Error>)
    requires parent.Op?
    ensures r.Ok? ==> r.value.Op? && r.value.kind == parent.kind
    ensures r.Ok? ==> |r.value.children| >= |parent.children|
    ensures r.Err? ==> r.error == InvalidType
    ensures child.Op? && child.kind != And ==> r.Err?
    decreases child, 1
  {
    match child
    case Var(o, n, rg) => OneAdded(parent, o, n, rg)
    case Op(And, _) => AndMergedFrom(parent, child, 0)
    case Op(_, _) => Err(InvalidType)
  }

  /** The loop of `logic_merge_and` over the elements of `child` from k on. */
  function AndMergedFrom(parent: Node, child: Node, k: nat): (r: Result<Node, Error>)
    requires parent.Op? && child.Op? && k <= |child.children|
    ensures r.Ok? ==> r.value.Op? && r.value.kind == parent.kind
    ensures r.Ok? ==> |r.value.children| >= |parent.children|
    ensures r.Err? ==> r.error == InvalidType
    decreases child, 0, |child.children| - k
  {
    if k == |child.children| then Ok(parent)
    else match AndMerged(parent, child.children[k])
      case Err(e) => Err(e)
      case Ok(p) => AndMergedFrom(p, child, k + 1)
  }

  /** `logic_merge_or`: a VAR is merged by name; an AND is copied and pushed
      as a new branch. */
  function OrMerged(parent: Node, child: Node): (r: Result<Node, Error>)
    requires parent.Op?
    ensures r.Ok? ==> r.value.Op? && r.value.kind == parent.kind
    ensures r.Ok? ==> |r.value.children| >= |parent.children|
    ensures r.Err? ==> r.error == InvalidType
    ensures child.Op? && child.kind != And ==> r.Err?
    ensures child.Op? && child.kind == And ==>
      r.Ok? && |r.value.children| == |parent.children| + 1 && r.value.children[0] == Mirror(child)
  {
    match child
    case Var(o, n, rg) => OneAdded(parent, o, n, rg)
    case Op(And, _) => Ok(Op(parent.kind, [Mirror(child)] + parent.children))
    case Op(_, _) => Err(InvalidType)
  }

  /** The OR x OR and OR x AND_OR loop of `logic_pop_op`: `logic_merge_or`
      applied to every element of es from k on. */
  function OrMergedFrom(node: Node, es: seq<Node>, k: nat): (r: Result<Node, Error>)
    requires node.Op? && k <= |es|
    ensures r.Ok? ==> r.value.Op? && r.value.kind == node.kind
    ensures r.Ok? ==> |r.value.children| >= |node.children|
    ensures r.Err? ==> r.error == InvalidType
    decreases |es| - k
  {
    if k == |es| then Ok(node)
    else match OrMerged(node, es[k])
      case Err(e) => Err(e)
      case Ok(n) => OrMergedFrom(n, es, k + 1)
  }

  /** `logic_merge_and_or`: a VAR goes into every branch of `parent`; the
      elements of an AND are folded in one by one. */
  function AndOrMerged(parent: Node, child: Node): (r: Result<Node, Error>)
    requires parent.Op?
    ensures r.Ok? ==> r.value.Op? && r.value.kind == parent.kind
    ensures r.Ok? ==> |r.value.children| == |parent.children|
    ensures r.Err? ==> r.error == InvalidType
    ensures child.Op? && child.kind != And ==> r.Err?
    decreases child, 1
  {
    match child
    case Var(o, n, rg) =>
      var (p, status) := AllAdded(parent, o, n, rg);
      if status.Pass? then Ok(p) else Err(status.error)
    case Op(And, _) => AndOrMergedFrom(parent, child, 0)
    case Op(_, _) => Err(InvalidType)
  }

  /** The loop of `logic_merge_and_or` over the elements of `child` from k on. */
  function AndOrMergedFrom(parent: Node, child: Node, k: nat): (r: Result<Node, Error>)
    requires parent.Op? && child.Op? && k <= |child.children|
    ensures r.Ok? ==> r.value.Op? && r.value.kind == parent.kind
    ensures r.Ok? ==> |r.value.children| == |parent.children|
    ensures r.Err? ==> r.error == InvalidType
    decreases child, 0, |child.children| - k
  {
    if k == |child.children| then Ok(parent)
    else match AndOrMerged(parent, child.children[k])
      case Err(e) => Err(e)
      case Ok(p) => AndOrMergedFrom(p, child, k + 1)
  }

  /** One distribution row of `logic_pop_op`: for every element es[j], j >= k,
      a copy of `p` flattened with es[j] is pushed onto the front of acc.
      A `p` that is not an AND is refused when the first element is reached
      (the AND_OR x OR/AND_OR loop checks each parent branch there; under an
      AND parent the check always passes). */
  function Distributed(acc: seq<Node>, p: Node, es: seq<Node>, k: nat): (r: Result<seq<Node>, Error>)
    requires k <= |es|
    ensures r.Ok? ==> |r.value| == |acc| + |es| - k
    ensures r.Err? ==> r.error == InvalidType
    ensures k < |es| && !IsAnd(p) ==> r.Err?
    decreases |es| - k
  {
    if k == |es| then Ok(acc)
    else if !IsAnd(p) then Err(InvalidType)
    else match AndMerged(Mirror(p), es[k])
      case Err(e) => Err(e)
      case Ok(b) => Distributed([b] + acc, p, es, k + 1)
  }

  /** The AND x AND_OR loop of `logic_pop_op`: every branch bs[j], j >= k,
      must be an AND; a copy of it flattened with `parent` is pushed onto
      the front of acc. */
  function BranchesDistributed(acc: seq<Node>, parent: Node, bs: seq<Node>, k: nat): (r: Result<seq<Node>, Error>)
    requires k <= |bs|
    ensures r.Ok? ==> |r.value| == |acc| + |bs| - k
    ensures r.Err? ==> r.error == InvalidType
    ensures (exists j | k <= j < |bs| :: !IsAnd(bs[j])) ==> r.Err?
    decreases |bs| - k
  {
    if k == |bs| then Ok(acc)
    else if !IsAnd(bs[k]) then Err(InvalidType)
    else match AndMerged(Mirror(bs[k]), parent)
      case Err(e) => Err(e)
      case Ok(b) => BranchesDistributed([b] + acc, parent, bs, k + 1)
  }

  /** The cross product of `logic_pop_op` (AND_OR x OR/AND_OR): one
      distribution row per parent branch ps[i], i >= k. */
  function Crossed(acc: seq<Node>, ps: seq<Node>, cs: seq<Node>, k: nat): (r: Result<seq<Node>, Error>)
    requires k <= |ps|
    ensures r.Ok? ==> |r.value| >= |acc|
    ensures r.Err? ==> r.error == InvalidType
    ensures |cs| > 0 && (exists j | k <= j < |ps| :: !IsAnd(ps[j])) ==> r.Err?
    decreases |ps| - k
  {
    if k == |ps| then Ok(acc)
    else match Distributed(acc, ps[k], cs, 0)
      case Err(e) => Err(e)
      case Ok(a) => Crossed(a, ps, cs, k + 1)
  }

  /** The kind `logic_pop_op` gives the merged entry: OR under an OR
      parent, AND only for AND x AND, AND_OR otherwise. */
  function CombinedKind(parent: OpKind, child: OpKind): OpKind {
    if parent == Or then Or
    else if parent == And && child == And then And
    else AndOr
  }

  /** The result of the case analysis of `logic_pop_op` on the two popped
      entries: `parent` (the lower one) and `child` (the top one). */
  function Combined(parent: Node, child: Node): (r: Result<Node, Error>)
    ensures parent.Var? || child.Var? ==> r == Err(InvalidType)
    ensures r.Err? ==> r.error == InvalidType
    ensures r.Ok? ==> parent.Op? && child.Op? && r.value.Op?
    ensures r.Ok? ==> r.value.kind == CombinedKind(parent.kind, child.kind)
  {
    match (parent, child)
    case (Op(And, _), Op(And, _)) => AndMerged(Mirror(parent), child)
    case (Op(And, _), Op(Or, es)) =>
      (match Distributed([], parent, es, 0)
       case Ok(bs) => Ok(Op(AndOr, bs))
       case Err(e) => Err(e))
    case (Op(And, _), Op(AndOr, bs)) =>
      (match BranchesDistributed([], parent, bs, 0)
       case Ok(bs') => Ok(Op(AndOr, bs'))
       case Err(e) => Err(e))
    case (Op(Or, _), Op(And, _)) => OrMerged(Mirror(parent), child)
    case (Op(Or, _), Op(_, es)) => OrMergedFrom(Mirror(parent), es, 0)
    case (Op(AndOr, _), Op(And, _)) => AndOrMerged(Mirror(parent), child)
    case (Op(AndOr, ps), Op(_, cs)) =>
      (match Crossed([], ps, cs, 0)
       case Ok(bs) => Ok(Op(AndOr, bs))
       case Err(e) => Err(e))
    case _ => Err(InvalidType)
  }
}
