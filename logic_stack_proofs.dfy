/**
 * What the public operations of logic.c do to the operand stack: the
 * formula on top after each of them, the normal form they keep, the one
 * failure `logic_pop_op` reports wrongly, and what `logic_search` reads
 * back.
 */
module LogicStackProofs {
  import opened Common
  import opened LogicNodes
  import opened LogicMerge
  import opened LogicStack
  import opened LogicMeaning
  import opened LogicWellFormed

  /** Every stack entry is in the engine's normal form. */
  ghost predicate StackWellFormed(stack: seq<Node>) {
    forall i | 0 <= i < |stack| :: WellFormed(stack[i])
  }

  /** After `logic_push_var` the top operator holds exactly when it held
      before joined with the new constraint: conjoined under AND and AND_OR,
      added as an alternative under OR. */
  lemma VarPushedMeaning(stack: seq<Node>, owner: Owner, name: Name, range: Range, env: Env)
    requires VarPushed(stack, owner, name, range).1.Pass?
    ensures stack != [] && stack[0].Op?
    ensures Holds(VarPushed(stack, owner, name, range).0[0], env)
        <==> Joins(stack[0].kind, Holds(stack[0], env), env(name) in range)
  {
    match stack[0]
    case Op(AndOr, _) =>
      AllAddedMeaning(stack[0], owner, name, range, env);
    case Op(_, _) =>
      OneAddedMeaning(stack[0], owner, name, range, env);
  }

  /** On a well-formed stack `logic_push_var` fails only when the stack is
      empty, and keeps the stack well-formed. */
  lemma VarPushedWellFormed(stack: seq<Node>, owner: Owner, name: Name, range: Range)
    requires StackWellFormed(stack) && stack != []
    ensures VarPushed(stack, owner, name, range).1.Pass?
    ensures StackWellFormed(VarPushed(stack, owner, name, range).0)
  {
    var r := VarPushed(stack, owner, name, range).0;
    match stack[0].kind
    case And =>
      OneAddedConjunction(stack[0], owner, name, range);
    case Or =>
      OneAddedOr(stack[0], owner, name, range);
    case AndOr =>
      AllAddedWellFormed(stack[0], owner, name, range);
    assert r[0] == VarPushed(stack, owner, name, range).0[0];
    forall i | 0 <= i < |r| ensures WellFormed(r[i]) {
      if i > 0 {
        assert r[i] == r[1..][i - 1] == stack[1..][i - 1];
      }
    }
  }

  /** `logic_push_op` keeps a well-formed stack well-formed. */
  lemma OpPushedWellFormed(stack: seq<Node>, t: LogicType)
    requires StackWellFormed(stack)
    ensures StackWellFormed(OpPushed(stack, t).0)
  {
    var r := OpPushed(stack, t).0;
    forall i | 0 <= i < |r| ensures WellFormed(r[i]) {
      if OpPushed(stack, t).1.Pass? && i > 0 {
        assert r[i] == r[1..][i - 1];
      }
    }
  }

  /** After a successful `logic_pop_op` with two or more entries, the new top
      holds exactly when the lower popped entry joined with the upper one
      held. */
  lemma PoppedMeaning(stack: seq<Node>, pushFails: bool, env: Env)
    requires |stack| > 1 && Popped(stack, pushFails).1.Pass?
    ensures stack[1].Op? && stack[0].Op?
    ensures Holds(Popped(stack, pushFails).0[0], env)
        <==> Joins(stack[1].kind, Holds(stack[1], env), Holds(stack[0], env))
  {
    CombinedMeaning(stack[1], stack[0], env);
  }

  /** On a well-formed stack `logic_pop_op` fails only when the final push
      does, and keeps the stack well-formed. */
  lemma PoppedWellFormed(stack: seq<Node>, pushFails: bool)
    requires StackWellFormed(stack)
    ensures Popped(stack, pushFails).1.Pass? <==> |stack| <= 1 || !pushFails
    ensures Popped(stack, pushFails).1.Fail? ==> Popped(stack, pushFails).1.error == OutOfMemory
    ensures StackWellFormed(Popped(stack, pushFails).0)
  {
    var r := Popped(stack, pushFails).0;
    if |stack| > 1 {
      CombinedWellFormed(stack[1], stack[0]);
      forall i | 0 <= i < |r| ensures WellFormed(r[i]) {
        if Popped(stack, pushFails).1.Pass? && i > 0 {
          assert r[i] == r[1..][i - 1] == stack[2..][i - 1];
        } else if Popped(stack, pushFails).1.Fail? {
          assert r[i] == stack[2..][i];
        }
      }
    }
  }

  /** `logic_pop_op` as written: when the final push fails, both operands are
      gone, the result is destroyed, and success is reported all the same. */
  lemma PushFailureSwallowed(stack: seq<Node>)
    requires |stack| > 1 && Combined(stack[1], stack[0]).Ok?
    ensures PoppedAsWritten(stack, true).1.Pass?
    ensures |PoppedAsWritten(stack, true).0| == |stack| - 2
    ensures Popped(stack, true) == (stack[2..], Fail(OutOfMemory))
  {
  }

  /** Two empty ANDs reduce without error; a failing final push then leaves
      an empty stack behind a success status, so the stack has not shrunk by
      one as a successful reduction promises. */
  lemma PushFailureExample()
    ensures var s := [Op(And, []), Op(And, [])];
      && PoppedAsWritten(s, true) == ([], Pass)
      && Popped(s, false) == ([Op(And, [])], Pass)
      && Popped(s, true) == ([], Fail(OutOfMemory))
  {
    var s := [Op(And, []), Op(And, [])];
    assert MirrorAll([]) == [];
    assert Mirror(s[1]) == Op(And, []);
    assert AndMergedFrom(Op(And, []), s[0], 0) == Ok(Op(And, []));
    assert Combined(s[1], s[0]) == Ok(Op(And, []));
    assert s[2..] == [];
    assert [Op(And, [])] + s[2..] == [Op(And, [])];
  }

  /** The branch names the variable: it is the VAR itself or an AND with a
      VAR child of that name. */
  predicate Mentions(b: Node, name: Name) {
    IsVarNamed(b, name) || (IsAnd(b) && FirstVar(b.children, name).Some?)
  }

  /** Some branch from k on admits x for `name`. */
  ghost predicate AdmittedFrom(bs: seq<Node>, name: Name, k: nat, x: int) {
    exists j | k <= j < |bs| :: Contribution(bs[j], name).Ok? && x in Contribution(bs[j], name).value
  }

  /** The union of `logic_search` is defined exactly when every branch is a
      VAR or an AND, and then holds the values some branch admits. */
  lemma {:induction false} UnionFromMeaning(u: Range, bs: seq<Node>, name: Name, k: nat, x: int)
    requires k <= |bs|
    ensures UnionFrom(u, bs, name, k).Ok? <==> forall j | k <= j < |bs| :: bs[j].Var? || IsAnd(bs[j])
    ensures UnionFrom(u, bs, name, k).Ok? ==>
      (x in UnionFrom(u, bs, name, k).value <==> x in u || AdmittedFrom(bs, name, k, x))
    decreases |bs| - k
  {
    if k < |bs| {
      match Contribution(bs[k], name)
      case Err(_) =>
      case Ok(c) =>
        UnionFromMeaning(u + c, bs, name, k + 1, x);
        if AdmittedFrom(bs, name, k, x) && x !in c {
          var j :| k <= j < |bs| && Contribution(bs[j], name).Ok? && x in Contribution(bs[j], name).value;
          assert j != k;
        }
    }
  }

  /** When the top formula holds for env and every branch of an OR or
      AND_OR top names the variable, `logic_search` keeps env's value of the
      variable in the accumulator: it never rules out a value that
      satisfies the formula. */
  lemma ResolvedSound(stack: seq<Node>, name: Name, acc: Range, env: Env)
    requires stack != [] && Resolved(stack, name, acc).Ok?
    requires stack[0].Op? && stack[0].kind != And ==>
      forall j | 0 <= j < |stack[0].children| :: Mentions(stack[0].children[j], name)
    requires Holds(stack[0], env) && env(name) in acc
    ensures env(name) in Resolved(stack, name, acc).value
  {
    var x := env(name);
    match stack[0]
    case Op(And, cs) =>
      match FirstVar(cs, name) {
        case Some(i) =>
          assert Holds(cs[i], env);
        case None =>
      }
    case Op(_, bs) =>
      var j :| 0 <= j < |bs| && Holds(bs[j], env);
      assert Mentions(bs[j], name);
      if IsAnd(bs[j]) {
        var i := FirstVar(bs[j].children, name).value;
        assert Holds(bs[j].children[i], env);
      }
      assert Contribution(bs[j], name).Ok? && x in Contribution(bs[j], name).value;
      UnionFromMeaning({}, bs, name, 0, x);
  }

  /** Under an AND top, `logic_search` narrows the accumulator to the values
      the variable's constraint admits, and leaves it alone when the AND
      does not name the variable. */
  lemma ResolvedAndRoot(stack: seq<Node>, name: Name, acc: Range)
    requires stack != [] && IsAnd(stack[0])
    ensures var cs := stack[0].children;
      && Resolved(stack, name, acc).Ok?
      && ((forall j | 0 <= j < |cs| :: !IsVarNamed(cs[j], name)) ==> Resolved(stack, name, acc) == Ok(acc))
      && (Conjunction(stack[0]) ==> forall j | 0 <= j < |cs| && IsVarNamed(cs[j], name) ::
            Resolved(stack, name, acc) == Ok(acc * cs[j].range))
  {
    var cs := stack[0].children;
    match FirstVar(cs, name)
    case Some(i) =>
    case None =>
  }

  /** Under an OR or AND_OR top, `logic_search` fails exactly when a branch
      is neither a VAR nor an AND; otherwise, when some branch admits a
      value for the variable, it narrows the accumulator to the values some
      branch admits, and when none does it leaves the accumulator alone. */
  lemma ResolvedOrRoot(stack: seq<Node>, name: Name, acc: Range, x: int)
    requires stack != [] && stack[0].Op? && stack[0].kind != And
    ensures var bs := stack[0].children;
      && (Resolved(stack, name, acc).Ok? <==> forall j | 0 <= j < |bs| :: bs[j].Var? || IsAnd(bs[j]))
      && (Resolved(stack, name, acc).Ok? ==>
            && (UnionFrom({}, bs, name, 0).value == {} ==> Resolved(stack, name, acc) == Ok(acc))
            && (UnionFrom({}, bs, name, 0).value != {} ==>
                  (x in Resolved(stack, name, acc).value <==> x in acc && AdmittedFrom(bs, name, 0, x))))
  {
    UnionFromMeaning({}, stack[0].children, name, 0, x);
  }

  /** A branch that does not name the variable leaves it unconstrained, but
      `logic_search` still narrows to what the other branches admit: for
      (x in {1}) OR (y in {2}), the value x = 5 satisfies the formula and
      is ruled out. */
  lemma ResolvedOverNarrows()
    ensures var stack := [Op(Or, [Var(0, "x", {1}), Var(0, "y", {2})])];
      var env := (n: Name) => if n == "x" then 5 else 2;
      && Holds(stack[0], env)
      && Resolved(stack, "x", {5}) == Ok({})
  {
    var stack := [Op(Or, [Var(0, "x", {1}), Var(0, "y", {2})])];
    var env := (n: Name) => if n == "x" then 5 else 2;
    assert Holds(stack[0].children[1], env);
    assert Contribution(stack[0].children[0], "x") == Ok({1});
    assert Contribution(stack[0].children[1], "x") == Ok({});
    var bs := stack[0].children;
    assert UnionFrom({1}, bs, "x", 2) == Ok({1});
    assert UnionFrom({1}, bs, "x", 1) == UnionFrom({1} + {}, bs, "x", 2);
    assert {1} + {} == {1};
    assert UnionFrom({}, bs, "x", 0) == UnionFrom({} + {1}, bs, "x", 1);
    assert {} + {1} == {1};
    assert {5} * {1} == {};
  }

  /** On a well-formed stack `logic_search` never fails. */
  lemma ResolvedOnWellFormed(stack: seq<Node>, name: Name, acc: Range)
    requires StackWellFormed(stack)
    ensures Resolved(stack, name, acc).Ok?
  {
    if stack != [] && stack[0].kind != And {
      UnionFromMeaning({}, stack[0].children, name, 0, 0);
    }
  }
}
