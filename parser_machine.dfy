/**
 * `struct parser` and the event handlers of parser.c as written: the
 * parser's `root` and `data` pointers are fields, and the stack threaded
 * through the schema nodes' `state` and `next` fields is updated in the
 * schema's node store.  Each handler is proved to follow the configuration
 * functions of ParserEvents.
 */
module ParserMachine {
  import opened Common
  import opened SchemaNodes
  import opened SchemaLoad
  import opened ParserEvents

  class Parser {
    /** Top of the parser's stack of open list and map nodes. */
    var root: Option<NodeId>
    /** The map child selected by the last key, waiting for its value. */
    var data: Option<NodeId>
    /** The callbacks made so far. */
    var trace: seq<Emit>

    /** The configuration the event handlers work on. */
    function Snapshot(schema: Schema): Config
      reads this, schema
    {
      Config(schema.nodes, root, data, trace)
    }

    constructor ()
      ensures root == None && data == None && trace == []
    {
      root := None;
      data := None;
      trace := [];
    }

    /** The set-up of `parser_parse`: the stack starts at the schema root,
        nothing is pending and no callback has been made. */
    method Begin(schema: Schema)
      modifies this
      ensures root == schema.root && data == None && trace == []
    {
      root := schema.root;
      data := None;
      trace := [];
    }

    /** `parser_start` on node `id`. */
    method Start(schema: Schema, id: NodeId, ev: Event, accept: bool) returns (status: Outcome<ParseError>)
      requires Consistent(Snapshot(schema)) && id < |schema.nodes|
      modifies this, schema
      ensures (Snapshot(schema), status) == Started(old(Snapshot(schema)), id, ev, accept)
      ensures schema.root == old(schema.root)
    {
      var n := schema.nodes[id];
      match ev {
        case ListStart =>
          if !n.types.hasList {
            return Fail(UnexpectedList);
          }
          trace := trace + [Emit.Start(n.mark)];
          if !accept {
            return Fail(CallbackFailed);
          }
          schema.nodes := schema.nodes[id := n.(state := InList, next := root)];
          root := Some(id);
        case MapStart =>
          if !n.types.hasMap {
            return Fail(UnexpectedMap);
          }
          trace := trace + [Emit.Start(n.mark)];
          if !accept {
            return Fail(CallbackFailed);
          }
          schema.nodes := schema.nodes[id := n.(state := InMap, next := root)];
          root := Some(id);
        case Scalar(v) =>
          if !n.types.hasString {
            return Fail(UnexpectedString);
          }
          trace := trace + [Next(n.mark, v)];
          if !accept {
            return Fail(CallbackFailed);
          }
        case _ =>
          return Fail(InvalidType);
      }
      return Pass;
    }

    /** The end branch of `parser_event` for the top node `id`. */
    method End(schema: Schema, id: NodeId, accept: bool) returns (status: Outcome<ParseError>)
      requires Consistent(Snapshot(schema)) && root == Some(id)
      modifies this, schema
      ensures (Snapshot(schema), status) == Ended(old(Snapshot(schema)), accept)
      ensures schema.root == old(schema.root)
    {
      var n := schema.nodes[id];
      trace := trace + [Emit.End(n.mark)];
      if !accept {
        return Fail(CallbackFailed);
      }
      schema.nodes := schema.nodes[id := n.(state := Idle)];
      root := n.next;
      return Pass;
    }

    /** `parser_event`. */
    method Event(schema: Schema, ev: Event, accept: bool) returns (status: Outcome<ParseError>)
      requires Consistent(Snapshot(schema))
      modifies this, schema
      ensures (Snapshot(schema), status) == Stepped(old(Snapshot(schema)), ev, accept)
      ensures schema.root == old(schema.root)
    {
      if data.Some? {
        status := Start(schema, data.value, ev, accept);
        if status.Pass? {
          data := None;
        }
        return;
      }
      if root.None? {
        return Fail(InvalidNode);
      }
      var id := root.value;
      var n := schema.nodes[id];
      match n.state {
        case InList =>
          if ev == ListEnd {
            status := End(schema, id, accept);
          } else if n.list.None? {
            status := Fail(MissingList);
          } else {
            status := Start(schema, n.list.value, ev, accept);
          }
        case InMap =>
          if ev == MapEnd {
            status := End(schema, id, accept);
          } else if ev.Scalar? {
            if ev.value in n.keys {
              data := Some(n.keys[ev.value]);
              status := Pass;
            } else {
              status := Fail(InvalidKey);
            }
          } else {
            status := Fail(InvalidType);
          }
        case Idle =>
          status := Fail(InvalidState);
      }
    }

    /** The final check of `parser_parse`, given what the event source
        reported. */
    method Finish(schema: Schema, parsed: Outcome<ParseError>) returns (status: Outcome<ParseError>)
      ensures status == Finished(parsed, root, schema.root)
    {
      status := parsed;
      if root != schema.root {
        status := Fail(Unbalanced);
      }
    }
  }
}
