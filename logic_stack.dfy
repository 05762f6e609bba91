/**
 * The operand stack of the logic engine (`logic->list`) as a sequence whose
 * index 0 is the top entry, and the effect of each public operation of
 * logic.c on it: push a variable, push an operator, pop (reduce) and search.
 */
module LogicStack {
  import opened Common
  import opened LogicNodes
  import opened LogicMerge

  /** `logic_push_var`: the variable goes into the top operator; an AND_OR
      top takes it into every branch.  A failure under AND_OR keeps the
      branches already updated, as the in-place loop does. */
  function VarPushed(stack: seq<Node>, owner: Owner, name: Name, range: Range): (r: (seq<Node>, Outcome<Error>))
    ensures stack == [] ==> r == (stack, Fail(MissingOperator))
    ensures |r.0| == |stack| && (stack != [] ==> r.0[1..] == stack[1..])
    ensures r.1.Fail? && stack != [] && !stack[0].Op? ==> r.0 == stack
  {
    if stack == [] then (stack, Fail(MissingOperator))
    else match stack[0]
      case Var(_, _, _) => (stack, Fail(InvalidType))
      case Op(AndOr, _) =>
        var (top, status) := AllAdded(stack[0], owner, name, range);
        ([top] + stack[1..], status)
      case Op(_, _) =>
        (match OneAdded(stack[0], owner, name, range)
         case Ok(top) => ([top] + stack[1..], Pass)
         case Err(e) => (stack, Fail(e)))
  }

  /** `logic_node_create`: an empty operator of the requested kind; a VAR
      kind is refused. */
  function NodeCreated(t: LogicType): (r: Result<Node, Error>)
    ensures r.Ok? <==> t != VarType
    ensures r.Ok? ==> r.value.Op? && r.value.children == []
    ensures r.Ok? ==> (t == AndType <==> r.value.kind == And) && (t == OrType <==> r.value.kind == Or)
  {
    match t
    case VarType => Err(InvalidType)
    case AndType => Ok(Op(And, []))
    case OrType => Ok(Op(Or, []))
    case AndOrType => Ok(Op(AndOr, []))
  }

  /** `logic_push_op`: a new empty operator on top of the stack. */
  function OpPushed(stack: seq<Node>, t: LogicType): (r: (seq<Node>, Outcome<Error>))
    ensures r.1.Pass? <==> t != VarType
    ensures r.1.Pass? ==> |r.0| == |stack| + 1 && r.0[1..] == stack && r.0[0] == NodeCreated(t).value
    ensures r.1.Fail? ==> r.0 == stack && r.1.error == InvalidType
  {
    match NodeCreated(t)
    case Ok(op) => ([op] + stack, Pass)
    case Err(e) => (stack, Fail(e))
  }

  /** `logic_pop_op`: with at most one entry nothing happens; otherwise the
      two top entries are popped and, when they combine, the result is
      pushed.  Both popped entries are gone whatever happens.  `pushFails`
      stands for the allocator refusing the list node of that final push; the
      failure is then reported. */
  function Popped(stack: seq<Node>, pushFails: bool): (r: (seq<Node>, Outcome<Error>))
    ensures |stack| <= 1 ==> r == (stack, Pass)
    ensures |stack| > 1 && r.1.Pass? ==> |r.0| == |stack| - 1 && r.0[1..] == stack[2..]
    ensures |stack| > 1 && r.1.Fail? ==> r.0 == stack[2..]
  {
    if |stack| <= 1 then (stack, Pass)
    else match Combined(stack[1], stack[0])
      case Err(e) => (stack[2..], Fail(e))
      case Ok(n) => if pushFails then (stack[2..], Fail(OutOfMemory)) else ([n] + stack[2..], Pass)
  }

  /** `logic_pop_op` as written: `if(status || list_push(...))` destroys the
      result when the final push fails but leaves the status at success. */
  function PoppedAsWritten(stack: seq<Node>, pushFails: bool): (r: (seq<Node>, Outcome<Error>))
    ensures !pushFails ==> r == Popped(stack, pushFails)
  {
    if |stack| <= 1 then (stack, Pass)
    else match Combined(stack[1], stack[0])
      case Err(e) => (stack[2..], Fail(e))
      case Ok(n) => if pushFails then (stack[2..], Pass) else ([n] + stack[2..], Pass)
  }

  /** What one branch of an OR or AND_OR root adds to the union in
      `logic_search`: the range of a matching VAR branch, or of the first
      matching VAR inside an AND branch; any other branch is refused. */
  function Contribution(b: Node, name: Name): (r: Result<Range, Error>)
    ensures r.Err? <==> b.Op? && b.kind != And
    ensures r.Err? ==> r.error == InvalidType
  {
    match b
    case Var(_, n, rg) => Ok(if n == name then rg else {})
    case Op(And, cs) =>
      (match FirstVar(cs, name)
       case Some(i) => Ok(cs[i].range)
       case None => Ok({}))
    case Op(_, _) => Err(InvalidType)
  }

  /** The branch loop of `logic_search` from branch k on, with the union u
      built so far. */
  function UnionFrom(u: Range, bs: seq<Node>, name: Name, k: nat): (r: Result<Range, Error>)
    requires k <= |bs|
    ensures r.Ok? ==> u <= r.value
    ensures r.Ok? <==> forall j | k <= j < |bs| :: bs[j].Var? || bs[j].kind == And
    ensures r.Err? ==> r.error == InvalidType
    decreases |bs| - k
  {
    if k == |bs| then Ok(u)
    else match Contribution(bs[k], name)
      case Err(e) => Err(e)
      case Ok(c) => UnionFrom(u + c, bs, name, k + 1)
  }

  /** `logic_search`: the accumulator narrowed by what the top entry says
      about `name`. */
  function Resolved(stack: seq<Node>, name: Name, acc: Range): (r: Result<Range, Error>)
    ensures r.Ok? ==> r.value <= acc
    ensures stack == [] ==> r == Ok(acc)
  {
    if stack == [] then Ok(acc)
    else match stack[0]
      case Var(_, _, _) => Err(InvalidType)
      case Op(And, cs) =>
        (match FirstVar(cs, name)
         case Some(i) => Ok(acc * cs[i].range)
         case None => Ok(acc))
      case Op(_, bs) =>
        (match UnionFrom({}, bs, name, 0)
         case Ok(u) => Ok(if u != {} then acc * u else acc)
         case Err(e) => Err(e))
  }
}
