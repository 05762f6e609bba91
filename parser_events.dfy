/**
 * The event automaton of parser.c as functions on a configuration: the
 * schema nodes (whose `state` and `next` fields carry the parser's stack),
 * the parser's `root` (top of that stack) and `data` (a map child chosen
 * by a key and waiting for its value), and the trace of callbacks made.
 * The callback is represented by its answer (`accept`: it returned 0) and
 * by the entry it appends to the trace, which is made whatever it answers.
 */
module ParserEvents {
  import opened Common
  import opened SchemaNodes

  /** `enum event_type`, with the scalar's value. */
  datatype Event = ListStart | ListEnd | MapStart | MapEnd | Scalar(value: string)

  /** One callback invocation: `start`, `next` (with the value) or `end`,
      with the mark of the node. */
  datatype Emit = Start(mark: int) | Next(mark: int, value: string) | End(mark: int)

  /** The root causes behind the parser's `panic` returns. */
  datatype ParseError =
    | UnexpectedList | UnexpectedMap | UnexpectedString | InvalidType
    | CallbackFailed | InvalidNode | InvalidKey | InvalidState
    | MissingList | Unbalanced

  /** What parser_event works on. */
  datatype Config = Config(nodes: seq<SchemaNode>, root: Option<NodeId>, data: Option<NodeId>, trace: seq<Emit>)

  predicate InRange(id: Option<NodeId>, n: nat) {
    id.Some? ==> id.value < n
  }

  /** Every reference held by a node names a node of the arena. */
  predicate Links(nodes: seq<SchemaNode>) {
    forall i | 0 <= i < |nodes| ::
      && InRange(nodes[i].list, |nodes|)
      && InRange(nodes[i].next, |nodes|)
      && (forall k | k in nodes[i].keys :: nodes[i].keys[k] < |nodes|)
  }

  /** The parser's pointers are valid. */
  predicate Consistent(c: Config) {
    Links(c.nodes) && InRange(c.root, |c.nodes|) && InRange(c.data, |c.nodes|)
  }

  /** Two arenas that differ at most in the parser's `state` and `next`
      fields. */
  predicate SameSchema(a: seq<SchemaNode>, b: seq<SchemaNode>) {
    && |a| == |b|
    && forall i | 0 <= i < |a| ::
         a[i].types == b[i].types && a[i].mark == b[i].mark && a[i].keys == b[i].keys && a[i].list == b[i].list
  }

  /** Whether a node of these types takes this event in `parser_start`. */
  predicate Admits(t: TypeSet, ev: Event) {
    match ev
    case ListStart => t.hasList
    case MapStart => t.hasMap
    case Scalar(_) => t.hasString
    case _ => false
  }

  predicate IsStart(ev: Event) {
    ev == ListStart || ev == MapStart
  }

  predicate IsEnd(ev: Event) {
    ev == ListEnd || ev == MapEnd
  }

  /** The error `parser_start` reports for an event the node refuses. */
  function Refusal(ev: Event): ParseError {
    match ev
    case ListStart => UnexpectedList
    case MapStart => UnexpectedMap
    case Scalar(_) => UnexpectedString
    case _ => InvalidType
  }

  /** The callback a node makes when it takes an event. */
  function Emitted(n: SchemaNode, ev: Event): Emit {
    if ev.Scalar? then Next(n.mark, ev.value) else Start(n.mark)
  }

  /** `parser_start` on node `id`: a start event the node admits makes a
      start callback and, when the callback accepts, puts the node in list
      or map state on top of the stack; an admitted scalar makes a next
      callback and changes nothing else. */
  function Started(c: Config, id: NodeId, ev: Event, accept: bool): (r: (Config, Outcome<ParseError>))
    requires Consistent(c) && id < |c.nodes|
    ensures Consistent(r.0) && SameSchema(c.nodes, r.0.nodes) && r.0.data == c.data
    ensures r.1.Pass? <==> Admits(c.nodes[id].types, ev) && accept
    ensures !Admits(c.nodes[id].types, ev) ==> r == (c, Fail(Refusal(ev)))
    ensures Admits(c.nodes[id].types, ev) ==> r.0.trace == c.trace + [Emitted(c.nodes[id], ev)]
    ensures Admits(c.nodes[id].types, ev) && !accept ==> r == (c.(trace := r.0.trace), Fail(CallbackFailed))
    ensures r.1.Pass? && IsStart(ev) ==>
      && r.0.root == Some(id)
      && r.0.nodes[id].state == (if ev == ListStart then InList else InMap)
      && r.0.nodes[id].next == c.root
      && (forall i | 0 <= i < |c.nodes| && i != id :: r.0.nodes[i] == c.nodes[i])
    ensures r.1.Pass? && ev.Scalar? ==> r.0 == c.(trace := r.0.trace)
  {
    var n := c.nodes[id];
    if !Admits(n.types, ev) then (c, Fail(Refusal(ev)))
    else
      var c' := c.(trace := c.trace + [Emitted(n, ev)]);
      if !accept then (c', Fail(CallbackFailed))
      else if ev.Scalar? then (c', Pass)
      else
        var state := if ev == ListStart then InList else InMap;
        (c'.(nodes := c.nodes[id := n.(state := state, next := c.root)], root := Some(id)), Pass)
  }

  /** The end branch of `parser_event`: an end callback with the mark of
      the top node and, when it accepts, the node goes idle and leaves the
      stack. */
  function Ended(c: Config, accept: bool): (r: (Config, Outcome<ParseError>))
    requires Consistent(c) && c.root.Some?
    ensures Consistent(r.0) && SameSchema(c.nodes, r.0.nodes) && r.0.data == c.data
    ensures r.0.trace == c.trace + [End(c.nodes[c.root.value].mark)]
    ensures r.1.Pass? <==> accept
    ensures !accept ==> r == (c.(trace := r.0.trace), Fail(CallbackFailed))
    ensures accept ==>
      && r.0.root == c.nodes[c.root.value].next
      && r.0.nodes == c.nodes[c.root.value := c.nodes[c.root.value].(state := Idle)]
  {
    var id := c.root.value;
    var c' := c.(trace := c.trace + [End(c.nodes[id].mark)]);
    if !accept then (c', Fail(CallbackFailed))
    else (c'.(nodes := c.nodes[id := c.nodes[id].(state := Idle)], root := c.nodes[id].next), Pass)
  }

  /** `parser_event`, with the missing list child of a list in list state
      reported as an error (see ListElementAsWritten). */
  function Stepped(c: Config, ev: Event, accept: bool): (r: (Config, Outcome<ParseError>))
    requires Consistent(c)
    ensures Consistent(r.0) && SameSchema(c.nodes, r.0.nodes)
    ensures r.1.Fail? ==> r.0.nodes == c.nodes && r.0.root == c.root && r.0.data == c.data
  {
    if c.data.Some? then
      var (c', status) := Started(c, c.data.value, ev, accept);
      if status.Pass? then (c'.(data := None), Pass) else (c', status)
    else if c.root.None? then (c, Fail(InvalidNode))
    else
      var n := c.nodes[c.root.value];
      match n.state
      case InList =>
        if ev == ListEnd then Ended(c, accept)
        else if n.list.None? then (c, Fail(MissingList))
        else Started(c, n.list.value, ev, accept)
      case InMap =>
        if ev == MapEnd then Ended(c, accept)
        else if ev.Scalar? then
          (if ev.value in n.keys then (c.(data := Some(n.keys[ev.value])), Pass) else (c, Fail(InvalidKey)))
        else (c, Fail(InvalidType))
      case Idle => (c, Fail(InvalidState))
  }

  /** How `parser_event` dispatches: a pending map child takes the event
      and is cleared once it succeeds; without one, an empty stack and an
      idle top are errors, and a taken end event is the end branch; a list
      in list state hands every other event to its list child (a missing
      one is an error), and a map in map state takes only a scalar naming
      one of its keys, which becomes the pending child. */
  lemma SteppedCases(c: Config, ev: Event, accept: bool)
    requires Consistent(c)
    ensures var r := Stepped(c, ev, accept);
      && (c.data.Some? ==> r == (if Started(c, c.data.value, ev, accept).1.Pass?
                                 then (Started(c, c.data.value, ev, accept).0.(data := None), Pass)
                                 else Started(c, c.data.value, ev, accept)))
      && (c.data.None? && c.root.None? ==> r == (c, Fail(InvalidNode)))
      && (c.data.None? && c.root.Some? && c.nodes[c.root.value].state == Idle ==> r == (c, Fail(InvalidState)))
      && (c.data.None? && c.root.Some? && IsEnd(ev) && r.1.Pass? ==> r == Ended(c, accept))
    ensures c.data.None? && c.root.Some? && c.nodes[c.root.value].state == InList ==>
      var n := c.nodes[c.root.value];
      var r := Stepped(c, ev, accept);
      && (ev == ListEnd ==> r == Ended(c, accept))
      && (ev != ListEnd && n.list.None? ==> r == (c, Fail(MissingList)))
      && (ev != ListEnd && n.list.Some? ==> r == Started(c, n.list.value, ev, accept))
    ensures c.data.None? && c.root.Some? && c.nodes[c.root.value].state == InMap ==>
      var n := c.nodes[c.root.value];
      var r := Stepped(c, ev, accept);
      && (ev == MapEnd ==> r == Ended(c, accept))
      && (ev.Scalar? && ev.value in n.keys ==> r == (c.(data := Some(n.keys[ev.value])), Pass))
      && (ev.Scalar? && ev.value !in n.keys ==> r == (c, Fail(InvalidKey)))
      && (!ev.Scalar? && ev != MapEnd ==> r == (c, Fail(InvalidType)))
  {
  }

  /** The list branch of `parser_event` as written: the list child is
      handed to `parser_start` without a check, so the code is only defined
      when the list node in list state has one. */
  function ListElementAsWritten(c: Config, ev: Event, accept: bool): (r: (Config, Outcome<ParseError>))
    requires Consistent(c) && c.data.None? && c.root.Some? && c.nodes[c.root.value].state == InList && ev != ListEnd
    requires c.nodes[c.root.value].list.Some?
    ensures r == Stepped(c, ev, accept)
  {
    Started(c, c.nodes[c.root.value].list.value, ev, accept)
  }

  /** The events of one document from configuration c on, each with the
      callback's answer; the first failure ends the run (the event source
      stops on a failed callback). */
  function Ran(c: Config, tokens: seq<(Event, bool)>): (r: (Config, Outcome<ParseError>))
    requires Consistent(c)
    ensures Consistent(r.0) && SameSchema(c.nodes, r.0.nodes)
    decreases |tokens|
  {
    if tokens == [] then (c, Pass)
    else match Stepped(c, tokens[0].0, tokens[0].1)
      case (c', Fail(e)) => (c', Fail(e))
      case (c', Pass) => Ran(c', tokens[1..])
  }

  /** The start of `parser_parse`: the stack is the schema root and no
      child is pending. */
  function Begun(nodes: seq<SchemaNode>): (c: Config)
    ensures Consistent(c) <==> Links(nodes) && |nodes| >= 1
    ensures c.nodes == nodes && c.root == Some(0) && c.data.None? && c.trace == []
  {
    Config(nodes, Some(0), None, [])
  }

  /** The end of `parser_parse`: whatever the event source reported, the
      parse fails unless the stack is back at the schema root. */
  function Finished(parsed: Outcome<ParseError>, root: Option<NodeId>, schemaRoot: Option<NodeId>): (r: Outcome<ParseError>)
    ensures r.Pass? <==> parsed.Pass? && root == schemaRoot
    ensures root != schemaRoot ==> r == Fail(Unbalanced)
    ensures root == schemaRoot ==> r == parsed
  {
    if root != schemaRoot then Fail(Unbalanced) else parsed
  }
}
