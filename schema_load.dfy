/**
 * `struct schema` and `schema_load` as written: a class whose node arena
 * and root the loader rebuilds, with the scope stack walked in place.
 */
module SchemaLoad {
  import opened Common
  import opened SchemaNodes

  /** The inner loop of `schema_load`: pop the scopes at the entry's level
      or deeper; the root scope at level 0 stops it. */
  method Close(scopes: seq<Scope>, level: int) returns (r: seq<Scope>)
    requires scopes != [] && scopes[|scopes| - 1].level == 0 && level > 0
    ensures r == Unwind(scopes, level)
  {
    r := scopes;
    while r[0].level >= level
      invariant r != [] && r[|r| - 1].level == 0
      invariant Unwind(r, level) == Unwind(scopes, level)
      decreases |r|
    {
      r := r[1..];
    }
  }

  /** The attach step of `schema_load`: the parent's map or list slot gets
      the next free index and the new node is appended. */
  method Attach(nodes: seq<SchemaNode>, parent: NodeId, e: Markup) returns (r: Result<seq<SchemaNode>, SchemaError>)
    requires parent < |nodes|
    ensures r == Attached(nodes, parent, e)
  {
    var p := nodes[parent];
    var id := |nodes|;
    match e.key {
      case Some(k) =>
        if !p.types.hasMap {
          return Err(ExpectedMap);
        } else if k in p.keys {
          return Err(DuplicateKey);
        }
        r := Ok(nodes[parent := p.(keys := p.keys[k := id])] + [NewNode(e.types, e.mark)]);
      case None =>
        if !p.types.hasList {
          return Err(ExpectedList);
        } else if p.list.Some? {
          return Err(InvalidList);
        }
        r := Ok(nodes[parent := p.(list := Some(id))] + [NewNode(e.types, e.mark)]);
    }
  }

  /** One pass of the main loop of `schema_load`. */
  method Place(nodes: seq<SchemaNode>, scopes: seq<Scope>, e: Markup) returns (r: Result<(seq<SchemaNode>, seq<Scope>), SchemaError>)
    requires ScopesValid(nodes, scopes) && e.level > 0
    ensures r == Placed(nodes, scopes, e)
  {
    var open := Close(scopes, e.level);
    var attached := Attach(nodes, open[0].node, e);
    if attached.Err? {
      return Err(attached.error);
    }
    if e.types.hasList || e.types.hasMap {
      open := [Scope(e.level, |nodes|)] + open;
    }
    return Ok((attached.value, open));
  }

  class Schema {
    /** The node store; node i is the node with index i. */
    var nodes: seq<SchemaNode>
    var root: Option<NodeId>

    /** `schema_create`: an empty schema. */
    constructor ()
      ensures nodes == [] && root == None
    {
      nodes := [];
      root := None;
    }

    /** `schema_load`: clear the schema, create the root, and hang every
        markup entry under the innermost open scope of a lower level. */
    method Load(markup: seq<Markup>) returns (status: Outcome<SchemaError>)
      modifies this
      ensures (nodes, status) == Loaded(markup)
      ensures root == Some(0)
    {
      root := Some(0);
      var ns := [RootNode];
      var scopes := [Scope(0, 0)];
      var i := 0;
      while i < |markup| && markup[i].level > 0
        invariant i <= |markup| && ScopesValid(ns, scopes) && root == Some(0)
        invariant LoadFrom(ns, scopes, markup, i) == Loaded(markup)
        decreases |markup| - i
      {
        var placed := Place(ns, scopes, markup[i]);
        if placed.Err? {
          nodes := ns;
          return Fail(placed.error);
        }
        ns, scopes := placed.value.0, placed.value.1;
        i := i + 1;
      }
      nodes := ns;
      return Pass;
    }
  }
}
