/**
 * The routines of logic.c as methods, each walking its child lists with a
 * while loop as the C code does, and each proved to compute the function of
 * LogicMerge or LogicStack that specifies it.  `Engine` is `struct logic`:
 * its one field is the operand stack, which the public methods update.
 */
module LogicEngine {
  import opened Common
  import opened LogicNodes
  import opened LogicMerge
  import opened LogicStack

  /** `logic_node_search`: the first VAR child named `name`, by index. */
  method NodeSearch(n: Node, name: Name) returns (r: Option<nat>)
    ensures r == (if n.Op? then FirstVar(n.children, name) else None)
  {
    if !n.Op? {
      return None;
    }
    var cs := n.children;
    var i := 0;
    while i < |cs|
      invariant 0 <= i <= |cs|
      invariant FirstVarFrom(cs, name, i) == FirstVar(cs, name)
    {
      if cs[i].Var? && cs[i].name == name {
        return Some(i);
      }
      i := i + 1;
    }
    return None;
  }

  /** `logic_node_copy`: each child is copied and pushed onto the new list. */
  method NodeCopy(n: Node) returns (c: Node)
    ensures c == Mirror(n)
    decreases n
  {
    match n
    case Var(_, _, _) =>
      c := n;
    case Op(k, cs) =>
      var list: seq<Node> := [];
      var i := 0;
      while i < |cs|
        invariant 0 <= i <= |cs|
        invariant list == MirrorAll(cs[..i])
      {
        var copy := NodeCopy(cs[i]);
        assert cs[..i + 1][..i] == cs[..i];
        list := [copy] + list;
        i := i + 1;
      }
      assert cs[..i] == cs;
      c := Op(k, list);
  }

  /** `logic_add_var_one`. */
  method AddVarOne(op: Node, owner: Owner, name: Name, range: Range) returns (r: Result<Node, Error>)
    requires op.Op?
    ensures r == OneAdded(op, owner, name, range)
  {
    var found := NodeSearch(op, name);
    match found
    case Some(i) =>
      var v := op.children[i];
      var merged := VarMerge(op.kind, v.range, range);
      match merged {
        case Ok(m) =>
          r := Ok(Op(op.kind, op.children[i := Var(v.owner, v.name, m)]));
        case Err(e) =>
          r := Err(e);
      }
    case None =>
      r := Ok(Op(op.kind, [Var(owner, name, range)] + op.children));
  }

  /** `logic_add_var_all`: returns the operator as the loop left it, also
      when a branch stopped it. */
  method AddVarAll(op: Node, owner: Owner, name: Name, range: Range) returns (r: Node, status: Outcome<Error>)
    requires op.Op?
    ensures (r, status) == AllAdded(op, owner, name, range)
  {
    var bs := op.children;
    var i := 0;
    status := Pass;
    while i < |bs| && status.Pass?
      invariant 0 <= i <= |bs| == |op.children|
      invariant status.Pass? ==> AllAddedFrom(bs, i, owner, name, range) == AllAddedFrom(op.children, 0, owner, name, range)
      invariant status.Fail? ==> (bs, status) == AllAddedFrom(op.children, 0, owner, name, range)
    {
      if !(bs[i].Op? && bs[i].kind == And) {
        status := Fail(InvalidType);
      } else {
        var b := AddVarOne(bs[i], owner, name, range);
        match b {
          case Err(e) =>
            status := Fail(e);
          case Ok(nb) =>
            bs := bs[i := nb];
        }
      }
      i := i + 1;
    }
    r := Op(op.kind, bs);
  }

  /** `logic_merge_and`. */
  method MergeAnd(parent: Node, child: Node) returns (r: Result<Node, Error>)
    requires parent.Op?
    ensures r == AndMerged(parent, child)
    decreases child
  {
    match child
    case Var(o, n, rg) =>
      r := AddVarOne(parent, o, n, rg);
    case Op(And, cs) =>
      var p := parent;
      var i := 0;
      r := Ok(parent);
      while i < |cs| && r.Ok?
        invariant 0 <= i <= |cs|
        invariant p.Op? && p.kind == parent.kind
        invariant r.Ok? ==> AndMergedFrom(p, child, i) == AndMergedFrom(parent, child, 0)
        invariant r.Err? ==> r == AndMergedFrom(parent, child, 0)
      {
        var m := MergeAnd(p, cs[i]);
        match m {
          case Err(e) =>
            r := Err(e);
          case Ok(q) =>
            p := q;
        }
        i := i + 1;
      }
      if r.Ok? {
        r := Ok(p);
      }
    case Op(_, _) =>
      r := Err(InvalidType);
  }

  /** `logic_merge_or`. */
  method MergeOr(parent: Node, child: Node) returns (r: Result<Node, Error>)
    requires parent.Op?
    ensures r == OrMerged(parent, child)
  {
    match child
    case Var(o, n, rg) =>
      r := AddVarOne(parent, o, n, rg);
    case Op(And, _) =>
      var copy := NodeCopy(child);
      r := Ok(Op(parent.kind, [copy] + parent.children));
    case Op(_, _) =>
      r := Err(InvalidType);
  }

  /** `logic_merge_and_or`. */
  method MergeAndOr(parent: Node, child: Node) returns (r: Result<Node, Error>)
    requires parent.Op?
    ensures r == AndOrMerged(parent, child)
    decreases child
  {
    match child
    case Var(o, n, rg) =>
      var p, status := AddVarAll(parent, o, n, rg);
      r := if status.Pass? then Ok(p) else Err(status.error);
    case Op(And, cs) =>
      var p := parent;
      var i := 0;
      r := Ok(parent);
      while i < |cs| && r.Ok?
        invariant 0 <= i <= |cs|
        invariant p.Op? && p.kind == parent.kind
        invariant r.Ok? ==> AndOrMergedFrom(p, child, i) == AndOrMergedFrom(parent, child, 0)
        invariant r.Err? ==> r == AndOrMergedFrom(parent, child, 0)
      {
        var m := MergeAndOr(p, cs[i]);
        match m {
          case Err(e) =>
            r := Err(e);
          case Ok(q) =>
            p := q;
        }
        i := i + 1;
      }
      if r.Ok? {
        r := Ok(p);
      }
    case Op(_, _) =>
      r := Err(InvalidType);
  }

  /** One distribution loop of `logic_pop_op`: a copy of `p` flattened with
      each element of es, pushed onto the front of acc.  The AND_OR x
      OR/AND_OR loop checks inside it that `p` is an AND; under an AND
      parent (the AND x OR loop, which has no such check) it always is. */
  method DistributeRow(acc: seq<Node>, p: Node, es: seq<Node>) returns (r: Result<seq<Node>, Error>)
    ensures r == Distributed(acc, p, es, 0)
  {
    var bs := acc;
    var i := 0;
    r := Ok(acc);
    while i < |es| && r.Ok?
      invariant 0 <= i <= |es|
      invariant r.Ok? ==> Distributed(bs, p, es, i) == Distributed(acc, p, es, 0)
      invariant r.Err? ==> r == Distributed(acc, p, es, 0)
    {
      if !(p.Op? && p.kind == And) {
        r := Err(InvalidType);
      } else {
        var copy := NodeCopy(p);
        var m := MergeAnd(copy, es[i]);
        match m {
          case Err(e) =>
            r := Err(e);
          case Ok(b) =>
            bs := [b] + bs;
        }
      }
      i := i + 1;
    }
    if r.Ok? {
      r := Ok(bs);
    }
  }

  /** The case analysis of `logic_pop_op` on the popped `parent` and `child`. */
  method Combine(parent: Node, child: Node) returns (r: Result<Node, Error>)
    ensures r == Combined(parent, child)
  {
    if !parent.Op? || !child.Op? {
      return Err(InvalidType);
    }
    match (parent.kind, child.kind)
    case (And, And) =>
      var node := NodeCopy(parent);
      r := MergeAnd(node, child);
    case (And, Or) =>
      var bs := DistributeRow([], parent, child.children);
      r := if bs.Ok? then Ok(Op(AndOr, bs.value)) else Err(bs.error);
    case (And, AndOr) =>
      var bs: seq<Node> := [];
      var cs := child.children;
      var i := 0;
      var status: Outcome<Error> := Pass;
      while i < |cs| && status.Pass?
        invariant 0 <= i <= |cs|
        invariant status.Pass? ==> BranchesDistributed(bs, parent, cs, i) == BranchesDistributed([], parent, cs, 0)
        invariant status.Fail? ==> BranchesDistributed([], parent, cs, 0) == Err(status.error)
      {
        if !(cs[i].Op? && cs[i].kind == And) {
          status := Fail(InvalidType);
        } else {
          var copy := NodeCopy(cs[i]);
          var m := MergeAnd(copy, parent);
          match m {
            case Err(e) =>
              status := Fail(e);
            case Ok(b) =>
              bs := [b] + bs;
          }
        }
        i := i + 1;
      }
      r := if status.Pass? then Ok(Op(AndOr, bs)) else Err(status.error);
    case (Or, And) =>
      var node := NodeCopy(parent);
      r := MergeOr(node, child);
    case (Or, _) =>
      var node := NodeCopy(parent);
      var cs := child.children;
      var i := 0;
      r := Ok(node);
      while i < |cs| && r.Ok?
        invariant 0 <= i <= |cs|
        invariant node.Op? && node.kind == Or
        invariant r.Ok? ==> OrMergedFrom(node, cs, i) == OrMergedFrom(Mirror(parent), cs, 0)
        invariant r.Err? ==> r == OrMergedFrom(Mirror(parent), cs, 0)
      {
        var m := MergeOr(node, cs[i]);
        match m {
          case Err(e) =>
            r := Err(e);
          case Ok(n) =>
            node := n;
        }
        i := i + 1;
      }
      if r.Ok? {
        r := Ok(node);
      }
    case (AndOr, And) =>
      var node := NodeCopy(parent);
      r := MergeAndOr(node, child);
    case (AndOr, _) =>
      var bs: seq<Node> := [];
      var ps := parent.children;
      var i := 0;
      var status: Outcome<Error> := Pass;
      while i < |ps| && status.Pass?
        invariant 0 <= i <= |ps|
        invariant status.Pass? ==> Crossed(bs, ps, child.children, i) == Crossed([], ps, child.children, 0)
        invariant status.Fail? ==> Crossed([], ps, child.children, 0) == Err(status.error)
      {
        var row := DistributeRow(bs, ps[i], child.children);
        match row {
          case Err(e) =>
            status := Fail(e);
          case Ok(a) =>
            bs := a;
        }
        i := i + 1;
      }
      r := if status.Pass? then Ok(Op(AndOr, bs)) else Err(status.error);
  }

  /** `struct logic`: the operand stack, top entry first. */
  class Engine {
    var stack: seq<Node>

    /** `logic_create`: an empty stack. */
    constructor ()
      ensures stack == []
    {
      stack := [];
    }

    /** `logic_push_var`. */
    method PushVar(owner: Owner, name: Name, range: Range) returns (status: Outcome<Error>)
      modifies this
      ensures (stack, status) == VarPushed(old(stack), owner, name, range)
    {
      if stack == [] {
        return Fail(MissingOperator);
      }
      var op := stack[0];
      match op
      case Var(_, _, _) =>
        status := Fail(InvalidType);
      case Op(AndOr, _) =>
        var top, st := AddVarAll(op, owner, name, range);
        stack := [top] + stack[1..];
        status := st;
      case Op(_, _) =>
        var r := AddVarOne(op, owner, name, range);
        match r
        case Ok(top) =>
          stack := [top] + stack[1..];
          status := Pass;
        case Err(e) =>
          status := Fail(e);
    }

    /** `logic_push_op`. */
    method PushOp(t: LogicType) returns (status: Outcome<Error>)
      modifies this
      ensures (stack, status) == OpPushed(old(stack), t)
    {
      var created := NodeCreated(t);
      match created
      case Ok(op) =>
        stack := [op] + stack;
        status := Pass;
      case Err(e) =>
        status := Fail(e);
    }

    /** `logic_pop_op`; `pushFails` is the allocator's answer to the final
        push of the combined entry. */
    method PopOp(pushFails: bool) returns (status: Outcome<Error>)
      modifies this
      ensures (stack, status) == Popped(old(stack), pushFails)
    {
      if |stack| <= 1 {
        return Pass;
      }
      var child := stack[0];
      var parent := stack[1];
      stack := stack[2..];
      var r := Combine(parent, child);
      match r
      case Err(e) =>
        status := Fail(e);
      case Ok(n) =>
        if pushFails {
          status := Fail(OutOfMemory);
        } else {
          stack := [n] + stack;
          status := Pass;
        }
    }

    /** `logic_search`: the accumulator narrowed by the top entry. */
    method Search(name: Name, acc: Range) returns (r: Result<Range, Error>)
      ensures r == Resolved(stack, name, acc)
    {
      if stack == [] {
        return Ok(acc);
      }
      var root := stack[0];
      match root
      case Var(_, _, _) =>
        r := Err(InvalidType);
      case Op(And, _) =>
        var found := NodeSearch(root, name);
        r := if found.Some? then Ok(acc * root.children[found.value].range) else Ok(acc);
      case Op(_, bs) =>
        var u: Range := {};
        var i := 0;
        var status: Outcome<Error> := Pass;
        while i < |bs| && status.Pass?
          invariant 0 <= i <= |bs|
          invariant status.Pass? ==> UnionFrom(u, bs, name, i) == UnionFrom({}, bs, name, 0)
          invariant status.Fail? ==> UnionFrom({}, bs, name, 0) == Err(status.error)
        {
          assert u + {} == u;
          match bs[i] {
            case Var(_, n, rg) =>
              if n == name {
                u := u + rg;
              }
            case Op(And, _) =>
              var found := NodeSearch(bs[i], name);
              if found.Some? {
                u := u + bs[i].children[found.value].range;
              }
            case Op(_, _) =>
              status := Fail(InvalidType);
          }
          i := i + 1;
        }
        r := if status.Fail? then Err(status.error) else if u != {} then Ok(acc * u) else Ok(acc);
    }

    /** `logic_clear`: pop and drop every entry. */
    method Clear()
      modifies this
      ensures stack == []
    {
      while stack != []
        decreases |stack|
      {
        stack := stack[1..];
      }
    }
  }
}
