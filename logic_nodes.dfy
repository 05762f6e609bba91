/**
 * The node model of the logic engine (logic.c): a formula is a tree whose
 * leaves are named range constraints and whose inner nodes are AND, OR and
 * AND_OR (an OR whose branches are ANDs) operators.  Child lists are
 * sequences whose index 0 is the most recently pushed element, which is the
 * element `list_start` returns.
 */
module LogicNodes {
  import opened Common

  type Name = string

  /** A Range is modelled by the set of integers it admits. */
  type Range = set<int>

  /** The opaque `data` tag the caller attaches to a variable. */
  type Owner = nat

  /** An assignment of a value to every name; formulas are read against one. */
  type Env = Name -> int

  /** `enum logic_type`: the kinds a caller may ask `logic_push_op` for. */
  datatype LogicType = VarType | AndType | OrType | AndOrType

  /** The kinds of an operator node. */
  datatype OpKind = And | Or | AndOr

  /** `struct logic_node`: a variable leaf or an operator with its child list. */
  datatype Node =
    | Var(owner: Owner, name: Name, range: Range)
    | Op(kind: OpKind, children: seq<Node>)

  /** The root causes behind the engine's `panic` returns. */
  datatype Error = MissingOperator | InvalidType | OutOfMemory

  predicate IsVarNamed(n: Node, name: Name) {
    n.Var? && n.name == name
  }

  predicate IsAnd(n: Node) {
    n.Op? && n.kind == And
  }

  /** The scan of `logic_node_search` from position k on: the index of the
      first VAR child named `name`, or None. */
  function FirstVarFrom(cs: seq<Node>, name: Name, k: nat): (r: Option<nat>)
    requires k <= |cs|
    ensures r.Some? ==> k <= r.value < |cs| && IsVarNamed(cs[r.value], name)
    ensures r.Some? ==> forall j | k <= j < r.value :: !IsVarNamed(cs[j], name)
    ensures r.None? ==> forall j | k <= j < |cs| :: !IsVarNamed(cs[j], name)
    decreases |cs| - k
  {
    if k == |cs| then None
    else if IsVarNamed(cs[k], name) then Some(k)
    else FirstVarFrom(cs, name, k + 1)
  }

  /** `logic_node_search` on an operator with children cs. */
  function FirstVar(cs: seq<Node>, name: Name): (r: Option<nat>)
    ensures r.Some? ==> r.value < |cs| && IsVarNamed(cs[r.value], name)
    ensures r.Some? ==> forall j | 0 <= j < r.value :: !IsVarNamed(cs[j], name)
    ensures r.None? ==> forall j | 0 <= j < |cs| :: !IsVarNamed(cs[j], name)
  {
    FirstVarFrom(cs, name, 0)
  }

  /** `logic_var_merge`: the new range of a variable that recurs under an
      operator of the given kind. */
  function VarMerge(kind: OpKind, current: Range, range: Range): (r: Result<Range, Error>)
    ensures r.Ok? <==> kind != AndOr
    ensures kind == And ==> r.Ok? && forall x :: x in r.value <==> x in current && x in range
    ensures kind == Or ==> r.Ok? && forall x :: x in r.value <==> x in current || x in range
  {
    match kind
    case And => Ok(current * range)
    case Or => Ok(current + range)
    case AndOr => Err(InvalidType)
  }

  /** `logic_node_copy`: the copy has the same kinds, names, owners and
      ranges, but since each copied child is pushed onto the front of the new
      list, every child list comes out in reverse order. */
  function Mirror(n: Node): (r: Node)
    ensures n.Var? ==> r == n
    ensures n.Op? ==> r.Op? && r.kind == n.kind && |r.children| == |n.children|
    decreases n
  {
    match n
    case Var(_, _, _) => n
    case Op(k, cs) => Op(k, MirrorAll(cs))
  }

  /** The child list of a copy: the copies of cs, last one first. */
  function MirrorAll(cs: seq<Node>): (r: seq<Node>)
    ensures |r| == |cs|
    ensures forall j | 0 <= j < |cs| :: r[j] == Mirror(cs[|cs| - 1 - j])
    decreases cs
  {
    if cs == [] then []
    else [Mirror(cs[|cs| - 1])] + MirrorAll(cs[..|cs| - 1])
  }

  /** The meaning of a formula: a VAR holds when the value of its name lies
      in its range, an AND when every child holds, an OR or AND_OR when some
      child holds. */
  ghost predicate Holds(n: Node, env: Env)
    decreases n
  {
    match n
    case Var(_, name, range) => env(name) in range
    case Op(And, cs) => forall i | 0 <= i < |cs| :: Holds(cs[i], env)
    case Op(_, cs) => exists i | 0 <= i < |cs| :: Holds(cs[i], env)
  }

  /** How an operator node combines its children. */
  function Connective(kind: OpKind, a: bool, b: bool): bool {
    if kind == And then a && b else a || b
  }

  /** How an operator on the stack takes in what is folded into it: an OR
      operator adds alternatives; AND and AND_OR operators add conditions. */
  function Joins(kind: OpKind, a: bool, b: bool): bool {
    if kind == Or then a || b else a && b
  }

  /** At most one VAR child per name. */
  ghost predicate UniqueVars(cs: seq<Node>) {
    forall i, j | 0 <= i < |cs| && 0 <= j < |cs| && cs[i].Var? && cs[j].Var? && cs[i].name == cs[j].name :: i == j
  }

  /** A flattened conjunction: VAR children only, one per name. */
  ghost predicate Conjunction(n: Node) {
    && n.Op? && n.kind == And
    && (forall i | 0 <= i < |n.children| :: n.children[i].Var?)
    && UniqueVars(n.children)
  }

  /** The shapes the engine keeps on its stack: a flattened AND; an OR whose
      children are VARs (one per name) or flattened ANDs; an AND_OR whose
      branches are all flattened ANDs. */
  ghost predicate WellFormed(n: Node) {
    match n
    case Var(_, _, _) => false
    case Op(And, _) => Conjunction(n)
    case Op(Or, cs) =>
      && (forall i | 0 <= i < |cs| :: cs[i].Var? || Conjunction(cs[i]))
      && UniqueVars(cs)
    case Op(AndOr, cs) => forall i | 0 <= i < |cs| :: Conjunction(cs[i])
  }
}
