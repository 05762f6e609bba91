/**
 * The schema of parser.c: a tree of typed nodes built by `schema_load` from
 * a level-indented markup array.  Nodes live in an arena (a sequence) and
 * refer to each other by index; node 0 is the root `schema_load` creates.
 */
module SchemaNodes {
  import opened Common

  type NodeId = nat

  /** The bit flags of `enum schema_type`: what a node accepts. */
  datatype TypeSet = TypeSet(hasList: bool, hasMap: bool, hasString: bool)

  /** A node's `state` field: 0, `list` or `map`. */
  datatype State = Idle | InList | InMap

  /** `struct schema_node`: its type and mark, its map of keyed children,
      its keyless (list element) child, and the `state` and `next` fields
      the parser threads its stack through. */
  datatype SchemaNode = SchemaNode(
    types: TypeSet, mark: int, keys: map<string, NodeId>, list: Option<NodeId>,
    state: State, next: Option<NodeId>)

  /** One entry of the markup array handed to `schema_load`. */
  datatype Markup = Markup(level: int, types: TypeSet, mark: int, key: Option<string>)

  /** An open scope: the level of the entry that opened it and its node. */
  datatype Scope = Scope(level: int, node: NodeId)

  /** The root causes behind the loader's `panic` returns. */
  datatype SchemaError = ExpectedMap | ExpectedList | InvalidList | DuplicateKey

  /** `schema_node_create`: no children, idle. */
  function NewNode(types: TypeSet, mark: int): (n: SchemaNode)
    ensures n.types == types && n.mark == mark
    ensures n.keys == map[] && n.list.None? && n.state == Idle && n.next.None?
  {
    SchemaNode(types, mark, map[], None, Idle, None)
  }

  /** The root `schema_load` creates: a list node with mark 0, in list state. */
  const RootNode := SchemaNode(TypeSet(true, false, false), 0, map[], None, InList, None)

  /** An open scope stack, top first: it ends with the root scope at level
      0, levels strictly decrease towards the bottom, and every scope is a
      list or map node. */
  predicate ScopesValid(nodes: seq<SchemaNode>, scopes: seq<Scope>) {
    && scopes != []
    && scopes[|scopes| - 1].level == 0
    && (forall j | 0 <= j < |scopes| :: scopes[j].node < |nodes|)
    && (forall j | 0 <= j < |scopes| :: nodes[scopes[j].node].types.hasList || nodes[scopes[j].node].types.hasMap)
    && (forall j, k | 0 <= j < k < |scopes| :: scopes[j].level > scopes[k].level)
  }

  /** The inner loop of `schema_load`: the scopes at the entry's level or
      deeper are closed.  What is left is a suffix of the stack; it is not
      empty while the bottom scope is shallower than the entry. */
  function Unwind(scopes: seq<Scope>, level: int): (r: seq<Scope>)
    ensures |r| <= |scopes| && r == scopes[|scopes| - |r|..]
    ensures r != [] ==> r[0].level < level
    ensures forall j | 0 <= j < |scopes| - |r| :: scopes[j].level >= level
    ensures scopes != [] && scopes[|scopes| - 1].level < level ==> r != []
    decreases |scopes|
  {
    if scopes == [] || scopes[0].level < level then scopes
    else Unwind(scopes[1..], level)
  }

  /** One markup entry hung under the scope node `parent`: a keyed entry
      goes into the parent's map, which needs the map bit and a new key; a
      keyless entry becomes the parent's list child, which needs the list
      bit and no list child yet.  The new node gets the next free index. */
  function Attached(nodes: seq<SchemaNode>, parent: NodeId, e: Markup): (r: Result<seq<SchemaNode>, SchemaError>)
    requires parent < |nodes|
    ensures e.key.Some? ==> (r.Err? <==> !nodes[parent].types.hasMap || e.key.value in nodes[parent].keys)
    ensures e.key.Some? && !nodes[parent].types.hasMap ==> r == Err(ExpectedMap)
    ensures e.key.Some? && nodes[parent].types.hasMap && e.key.value in nodes[parent].keys ==> r == Err(DuplicateKey)
    ensures e.key.None? ==> (r.Err? <==> !nodes[parent].types.hasList || nodes[parent].list.Some?)
    ensures e.key.None? && !nodes[parent].types.hasList ==> r == Err(ExpectedList)
    ensures e.key.None? && nodes[parent].types.hasList && nodes[parent].list.Some? ==> r == Err(InvalidList)
    ensures r.Ok? ==>
      && |r.value| == |nodes| + 1
      && r.value[|nodes|] == NewNode(e.types, e.mark)
      && (forall i | 0 <= i < |nodes| && i != parent :: r.value[i] == nodes[i])
      && (e.key.Some? ==> r.value[parent] == nodes[parent].(keys := nodes[parent].keys[e.key.value := |nodes|]))
      && (e.key.None? ==> r.value[parent] == nodes[parent].(list := Some(|nodes|)))
  {
    var p := nodes[parent];
    var id := |nodes|;
    match e.key
    case Some(k) =>
      if !p.types.hasMap then Err(ExpectedMap)
      else if k in p.keys then Err(DuplicateKey)
      else Ok(nodes[parent := p.(keys := p.keys[k := id])] + [NewNode(e.types, e.mark)])
    case None =>
      if !p.types.hasList then Err(ExpectedList)
      else if p.list.Some? then Err(InvalidList)
      else Ok(nodes[parent := p.(list := Some(id))] + [NewNode(e.types, e.mark)])
  }

  /** The scope stack after entry e got index id: a list or map node opens
      a new scope. */
  function Opened(scopes: seq<Scope>, e: Markup, id: NodeId): (r: seq<Scope>)
    ensures |r| == |scopes| + (if e.types.hasList || e.types.hasMap then 1 else 0)
    ensures r[|r| - |scopes|..] == scopes
    ensures |r| > |scopes| ==> r[0] == Scope(e.level, id)
  {
    if e.types.hasList || e.types.hasMap then [Scope(e.level, id)] + scopes else scopes
  }

  /** One pass of the main loop of `schema_load`: close the scopes at the
      entry's level or deeper, hang the entry under the innermost scope
      left, and open a scope for it when it is a list or map node. */
  function Placed(nodes: seq<SchemaNode>, scopes: seq<Scope>, e: Markup): (r: Result<(seq<SchemaNode>, seq<Scope>), SchemaError>)
    requires ScopesValid(nodes, scopes) && e.level > 0
    ensures r.Ok? ==> ScopesValid(r.value.0, r.value.1) && |r.value.0| == |nodes| + 1
    ensures r.Ok? ==> r.value.0[|nodes|] == NewNode(e.types, e.mark) && Keeps(nodes, r.value.0)
    ensures r.Err? <==> Attached(nodes, Unwind(scopes, e.level)[0].node, e).Err?
    ensures r.Err? ==> r.error == Attached(nodes, Unwind(scopes, e.level)[0].node, e).error
  {
    var sc := Unwind(scopes, e.level);
    match Attached(nodes, sc[0].node, e)
    case Err(err) => Err(err)
    case Ok(nodes') =>
      UnwindValid(nodes, scopes, e.level);
      AttachedKeeps(nodes, sc[0].node, e);
      OpenedValid(nodes, nodes', sc, e);
      Ok((nodes', Opened(sc, e, |nodes|)))
  }

  /** The main loop of `schema_load` from entry i on, with the nodes and
      open scopes built so far: it stops at the end of the array or at the
      first entry whose level is not positive, and at the first error. */
  function LoadFrom(nodes: seq<SchemaNode>, scopes: seq<Scope>, markup: seq<Markup>, i: nat): (r: (seq<SchemaNode>, Outcome<SchemaError>))
    requires i <= |markup| && ScopesValid(nodes, scopes)
    ensures |r.0| >= |nodes|
    decreases |markup| - i
  {
    if i == |markup| || markup[i].level <= 0 then (nodes, Pass)
    else match Placed(nodes, scopes, markup[i])
      case Err(err) => (nodes, Fail(err))
      case Ok((nodes', scopes')) => LoadFrom(nodes', scopes', markup, i + 1)
  }

  /** Where the main loop of `schema_load` stops reading from entry i on:
      the end of the array or the first entry whose level is not positive. */
  function Stop(markup: seq<Markup>, i: nat): (n: nat)
    requires i <= |markup|
    ensures i <= n <= |markup|
    ensures forall k | i <= k < n :: markup[k].level > 0
    ensures n < |markup| ==> markup[n].level <= 0
    decreases |markup| - i
  {
    if i == |markup| || markup[i].level <= 0 then i else Stop(markup, i + 1)
  }

  /** nodes' extends the arena nodes without changing a node's types or
      mark. */
  predicate Keeps(nodes: seq<SchemaNode>, nodes': seq<SchemaNode>) {
    && |nodes| <= |nodes'|
    && forall j | 0 <= j < |nodes| :: nodes'[j].types == nodes[j].types && nodes'[j].mark == nodes[j].mark
  }

  /** r0 holds, after the arena nodes, one node per entry i..n-1 of the
      markup, in order, with that entry's types and mark. */
  predicate Records(nodes: seq<SchemaNode>, r0: seq<SchemaNode>, markup: seq<Markup>, i: nat, n: nat) {
    && i <= n <= |markup|
    && |r0| == |nodes| + n - i
    && forall k | i <= k < n :: r0[|nodes| + k - i].types == markup[k].types && r0[|nodes| + k - i].mark == markup[k].mark
  }

  /** r is the loader's failure on entry e: with the arena r.0 and the
      valid scope stack sc, `Attached` refuses e under the innermost scope
      shallower than it, and r carries that refusal. */
  predicate Refuses(r: (seq<SchemaNode>, Outcome<SchemaError>), sc: seq<Scope>, e: Markup) {
    && ScopesValid(r.0, sc) && e.level > 0
    && Attached(r.0, Unwind(sc, e.level)[0].node, e).Err?
    && r.1 == Fail(Attached(r.0, Unwind(sc, e.level)[0].node, e).error)
  }

  /** r is the loader's failure on entry e for some scope stack. */
  ghost predicate Refused(r: (seq<SchemaNode>, Outcome<SchemaError>), e: Markup) {
    exists sc :: Refuses(r, sc, e)
  }

  /** What the main loop builds from entry i on: it keeps the arena it was
      given; when it passes, it has added one node per entry up to where
      it stops, with the entry's types and mark; when it fails, it has
      done so up to the first entry `Attached` refuses, and returns that
      refusal. */
  lemma {:induction false} LoadFromNodes(nodes: seq<SchemaNode>, scopes: seq<Scope>, markup: seq<Markup>, i: nat)
    requires i <= |markup| && ScopesValid(nodes, scopes)
    ensures Keeps(nodes, LoadFrom(nodes, scopes, markup, i).0)
    ensures var r := LoadFrom(nodes, scopes, markup, i);
      r.1.Pass? ==> Records(nodes, r.0, markup, i, Stop(markup, i))
    ensures var r := LoadFrom(nodes, scopes, markup, i);
      r.1.Fail? ==> exists f | i <= f < Stop(markup, i) :: Records(nodes, r.0, markup, i, f) && Refused(r, markup[f])
    decreases |markup| - i
  {
    var r := LoadFrom(nodes, scopes, markup, i);
    if i == |markup| || markup[i].level <= 0 {
    } else {
      match Placed(nodes, scopes, markup[i])
      case Err(err) =>
        assert Refuses(r, scopes, markup[i]);
        assert Records(nodes, r.0, markup, i, i);
      case Ok((nodes', scopes')) =>
        LoadFromNodes(nodes', scopes', markup, i + 1);
        if r.1.Pass? {
          RecordsStep(nodes, nodes', r.0, markup, i, Stop(markup, i));
        } else {
          var f :| i + 1 <= f < Stop(markup, i + 1) && Records(nodes', r.0, markup, i + 1, f) && Refused(r, markup[f]);
          RecordsStep(nodes, nodes', r.0, markup, i, f);
        }
    }
  }

  /** One node for entry i in front of the nodes for the later entries. */
  lemma RecordsStep(nodes: seq<SchemaNode>, nodes': seq<SchemaNode>, r0: seq<SchemaNode>, markup: seq<Markup>, i: nat, n: nat)
    requires i < n && Keeps(nodes, nodes') && |nodes'| == |nodes| + 1
    requires Records(nodes', r0, markup, i + 1, n) && Keeps(nodes', r0)
    requires nodes'[|nodes|].types == markup[i].types && nodes'[|nodes|].mark == markup[i].mark
    ensures Records(nodes, r0, markup, i, n) && Keeps(nodes, r0)
  {
    forall k | i <= k < n
      ensures r0[|nodes| + k - i].types == markup[k].types && r0[|nodes| + k - i].mark == markup[k].mark
    {
      if k > i {
        assert |nodes'| + k - (i + 1) == |nodes| + k - i;
      }
    }
  }

  /** Attaching an entry below open scopes shallower than it, and opening
      its scope, keeps the scope stack valid. */
  lemma OpenedValid(nodes: seq<SchemaNode>, nodes': seq<SchemaNode>, sc: seq<Scope>, e: Markup)
    requires ScopesValid(nodes, sc) && sc[0].level < e.level && |nodes'| == |nodes| + 1
    requires forall i | 0 <= i < |nodes| :: nodes'[i].types == nodes[i].types
    requires nodes'[|nodes|].types == e.types
    ensures ScopesValid(nodes', Opened(sc, e, |nodes|))
  {
    ScopesValidGrow(nodes, nodes', sc);
    if e.types.hasList || e.types.hasMap {
      ScopesValidPush(nodes', sc, Scope(e.level, |nodes|));
    }
  }

  /** Attaching an entry retypes and remarks no node, and the new node has
      the entry's types. */
  lemma AttachedKeeps(nodes: seq<SchemaNode>, parent: NodeId, e: Markup)
    requires parent < |nodes| && Attached(nodes, parent, e).Ok?
    ensures forall i | 0 <= i < |nodes| :: Attached(nodes, parent, e).value[i].types == nodes[i].types
    ensures Keeps(nodes, Attached(nodes, parent, e).value)
    ensures Attached(nodes, parent, e).value[|nodes|].types == e.types
  {
    var nodes' := Attached(nodes, parent, e).value;
    forall i | 0 <= i < |nodes| ensures nodes'[i].types == nodes[i].types && nodes'[i].mark == nodes[i].mark {
      if i != parent {
        assert nodes'[i] == nodes[i];
      }
    }
  }

  /** Growing the arena without retyping a node keeps a scope stack valid. */
  lemma ScopesValidGrow(nodes: seq<SchemaNode>, nodes': seq<SchemaNode>, scopes: seq<Scope>)
    requires ScopesValid(nodes, scopes) && |nodes| <= |nodes'|
    requires forall i | 0 <= i < |nodes| :: nodes'[i].types == nodes[i].types
    ensures ScopesValid(nodes', scopes)
  {
  }

  /** A list or map node opened deeper than the top scope keeps the stack
      valid. */
  lemma ScopesValidPush(nodes: seq<SchemaNode>, scopes: seq<Scope>, s: Scope)
    requires ScopesValid(nodes, scopes) && s.node < |nodes| && s.level > scopes[0].level
    requires nodes[s.node].types.hasList || nodes[s.node].types.hasMap
    ensures ScopesValid(nodes, [s] + scopes)
  {
    var op := [s] + scopes;
    assert forall j | 1 <= j < |op| :: op[j] == scopes[j - 1];
  }

  /** Closing scopes leaves a valid scope stack with a scope in it. */
  lemma {:induction false} UnwindValid(nodes: seq<SchemaNode>, scopes: seq<Scope>, level: int)
    requires ScopesValid(nodes, scopes) && level > 0
    ensures ScopesValid(nodes, Unwind(scopes, level))
    decreases |scopes|
  {
    if scopes[0].level >= level {
      var tail := scopes[1..];
      assert forall j | 0 <= j < |tail| :: tail[j] == scopes[j + 1];
      UnwindValid(nodes, tail, level);
    }
  }

  /** `schema_load`: the nodes it builds (kept as far as they got when it
      fails) and its outcome. */
  function Loaded(markup: seq<Markup>): (r: (seq<SchemaNode>, Outcome<SchemaError>))
    ensures |r.0| >= 1
  {
    LoadFrom([RootNode], [Scope(0, 0)], markup, 0)
  }

  /** What `schema_load` builds: node 0 stays the root; when it passes,
      node k + 1 has the types and mark of entry k for every entry before
      the first one with a non-positive level; when it fails, it has built
      those nodes up to the first entry `Attached` refuses and returns that
      refusal. */
  lemma LoadedNodes(markup: seq<Markup>)
    ensures Loaded(markup).0[0].types == RootNode.types && Loaded(markup).0[0].mark == 0
    ensures var r := Loaded(markup);
      r.1.Pass? ==> |r.0| == Stop(markup, 0) + 1
    ensures var r := Loaded(markup);
      r.1.Pass? ==> forall k | 0 <= k < Stop(markup, 0) :: r.0[k + 1].types == markup[k].types && r.0[k + 1].mark == markup[k].mark
    ensures var r := Loaded(markup);
      r.1.Fail? ==> exists f | 0 <= f < Stop(markup, 0) :: Records([RootNode], r.0, markup, 0, f) && Refused(r, markup[f])
  {
    LoadFromNodes([RootNode], [Scope(0, 0)], markup, 0);
    var r := Loaded(markup);
    if r.1.Pass? {
      RecordsAfterRoot(r.0, markup, Stop(markup, 0));
    }
  }

  /** Records after the root alone, indexed from node 1. */
  lemma RecordsAfterRoot(r0: seq<SchemaNode>, markup: seq<Markup>, n: nat)
    requires Records([RootNode], r0, markup, 0, n)
    ensures |r0| == n + 1
    ensures forall k | 0 <= k < n :: r0[k + 1].types == markup[k].types && r0[k + 1].mark == markup[k].mark
  {
  }

}
