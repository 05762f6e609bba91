/**
 * What schema_load and the event automaton of parser.c guarantee together:
 * a loaded schema is a tree whose child indexes grow away from the root;
 * the parser's stack is always a chain of open nodes from the top down to
 * the schema root; and `parser_parse` succeeds exactly when every event
 * was taken and the events opened as many lists and maps as they closed.
 */
module ParserProofs {
  import opened Common
  import opened SchemaNodes
  import opened ParserEvents

  /** Every child has a larger index than its parent and lies in the
      arena. */
  ghost predicate SchemaTree(nodes: seq<SchemaNode>) {
    forall i | 0 <= i < |nodes| ::
      && (forall k | k in nodes[i].keys :: i < nodes[i].keys[k] < |nodes|)
      && (nodes[i].list.Some? ==> i < nodes[i].list.value < |nodes|)
  }

  /** The arena schema_load leaves: a tree whose root is the list node in
      list state, every other node idle, and no stack links yet. */
  ghost predicate LoadShape(nodes: seq<SchemaNode>) {
    && |nodes| >= 1
    && SchemaTree(nodes)
    && nodes[0].types == RootNode.types && nodes[0].state == InList
    && (forall i | 0 <= i < |nodes| :: nodes[i].next == None)
    && (forall i | 1 <= i < |nodes| :: nodes[i].state == Idle)
  }

  /** Hanging an entry under a node keeps the load shape. */
  lemma AttachedShape(nodes: seq<SchemaNode>, parent: NodeId, e: Markup)
    requires LoadShape(nodes) && parent < |nodes| && Attached(nodes, parent, e).Ok?
    ensures LoadShape(Attached(nodes, parent, e).value)
  {
    var ns := Attached(nodes, parent, e).value;
    forall i | 0 <= i < |ns|
      ensures (forall k | k in ns[i].keys :: i < ns[i].keys[k] < |ns|)
      ensures ns[i].list.Some? ==> i < ns[i].list.value < |ns|
    {
      if i < |nodes| && i != parent {
        assert ns[i] == nodes[i];
      }
    }
  }

  lemma {:induction false} LoadFromShape(nodes: seq<SchemaNode>, scopes: seq<Scope>, markup: seq<Markup>, i: nat)
    requires i <= |markup| && ScopesValid(nodes, scopes) && LoadShape(nodes)
    ensures LoadShape(LoadFrom(nodes, scopes, markup, i).0)
    decreases |markup| - i
  {
    if i < |markup| && markup[i].level > 0 {
      var sc := Unwind(scopes, markup[i].level);
      if Attached(nodes, sc[0].node, markup[i]).Ok? {
        AttachedShape(nodes, sc[0].node, markup[i]);
        var p := Placed(nodes, scopes, markup[i]).value;
        LoadFromShape(p.0, p.1, markup, i + 1);
      }
    }
  }

  /** `schema_load`, complete or not, leaves a tree of idle nodes under a
      root in list state. */
  lemma LoadedShape(markup: seq<Markup>)
    ensures LoadShape(Loaded(markup).0)
  {
    LoadFromShape([RootNode], [Scope(0, 0)], markup, 0);
  }

  lemma {:induction false} LoadFromStops(nodes: seq<SchemaNode>, scopes: seq<Scope>, markup: seq<Markup>, i: nat, j: nat)
    requires i <= j < |markup| && markup[j].level <= 0 && ScopesValid(nodes, scopes)
    ensures LoadFrom(nodes, scopes, markup, i) == LoadFrom(nodes, scopes, markup[..j], i)
    decreases j - i
  {
    if i < j && markup[i].level > 0 {
      assert markup[..j][i] == markup[i];
      match Placed(nodes, scopes, markup[i])
      case Err(_) =>
      case Ok((nodes', scopes')) => LoadFromStops(nodes', scopes', markup, i + 1, j);
    }
  }

  /** Nothing after the terminating entry (level 0 or less) is read. */
  lemma LoadedStops(markup: seq<Markup>, j: nat)
    requires j < |markup| && markup[j].level <= 0
    ensures Loaded(markup) == Loaded(markup[..j])
  {
    LoadFromStops([RootNode], [Scope(0, 0)], markup, 0, j);
  }

  /** The parser's stack, top first: `frames` lists the open nodes, each
      linked by `next` to the one below, down to the schema root; exactly
      these nodes are out of the idle state; a pending map child lies
      above the top. */
  ghost predicate Framed(c: Config, frames: seq<NodeId>) {
    && Consistent(c) && SchemaTree(c.nodes)
    && |c.nodes| >= 1 && c.nodes[0].next == None
    && (forall j | 0 <= j < |frames| :: frames[j] < |c.nodes|)
    && (forall j, k | 0 <= j < k < |frames| :: frames[j] > frames[k])
    && (frames != [] ==> frames[|frames| - 1] == 0)
    && c.root == (if frames == [] then None else Some(frames[0]))
    && (forall j, k | 0 <= j < |frames| && k == j + 1 && k < |frames| :: c.nodes[frames[j]].next == Some(frames[k]))
    && (forall i | 0 <= i < |c.nodes| :: c.nodes[i].state != Idle <==> i in frames)
    && (c.data.Some? ==> frames != [] && frames[0] < c.data.value)
  }

  /** `parser_parse` on a loaded schema starts with the root as the only
      frame. */
  lemma BegunFramed(nodes: seq<SchemaNode>)
    requires LoadShape(nodes)
    ensures Framed(Begun(nodes), [0])
  {
    forall i | 0 <= i < |nodes| ensures nodes[i].state != Idle <==> i in [0] {
      if i > 0 {
        assert nodes[i].state == Idle;
      }
    }
  }

  /** A configuration that differs from a framed one only in its trace. */
  lemma RetracedFramed(c: Config, frames: seq<NodeId>, trace: seq<Emit>)
    requires Framed(c, frames)
    ensures Framed(c.(trace := trace), frames)
  {
  }

  /** Opening node id above the top frame, with nothing pending, pushes
      it as a new frame. */
  lemma OpenedFramed(c: Config, frames: seq<NodeId>, id: NodeId, state: State, trace: seq<Emit>)
    requires Framed(c, frames) && id < |c.nodes| && frames != [] && frames[0] < id && state != Idle
    ensures Framed(Config(c.nodes[id := c.nodes[id].(state := state, next := c.root)], Some(id), None, trace), [id] + frames)
  {
    var d := Config(c.nodes[id := c.nodes[id].(state := state, next := c.root)], Some(id), None, trace);
    var fs := [id] + frames;
    assert id !in frames;
    forall j, k | 0 <= j < k < |fs| ensures fs[j] > fs[k] {
      if j > 0 {
        assert fs[j] == frames[j - 1] && fs[k] == frames[k - 1];
      } else {
        assert fs[k] == frames[k - 1];
      }
    }
    forall j, k | 0 <= j < |fs| && k == j + 1 && k < |fs| ensures d.nodes[fs[j]].next == Some(fs[k]) {
      if j > 0 {
        assert fs[j] == frames[j - 1] && fs[k] == frames[k - 1];
        assert frames[j - 1] != id;
      }
    }
    forall i | 0 <= i < |d.nodes| ensures d.nodes[i].state != Idle <==> i in fs {
      if i != id {
        assert d.nodes[i] == c.nodes[i];
        assert i in fs <==> i in frames;
      }
    }
    assert fs[|fs| - 1] == frames[|frames| - 1];
  }

  /** Starting a node above the top frame pushes it. */
  lemma PushFramed(c: Config, frames: seq<NodeId>, id: NodeId, ev: Event, accept: bool)
    requires Framed(c, frames) && id < |c.nodes| && frames != [] && frames[0] < id
    requires c.data.None? || c.data == Some(id)
    ensures var (c', s) := Started(c, id, ev, accept);
      && (s.Fail? ==> Framed(c', frames))
      && (s.Pass? && IsStart(ev) ==> Framed(c'.(data := None), [id] + frames))
      && (s.Pass? && ev.Scalar? ==> Framed(c'.(data := None), frames))
  {
    var (c', s) := Started(c, id, ev, accept);
    if s.Fail? {
      RetracedFramed(c, frames, c'.trace);
    } else if IsStart(ev) {
      var state := if ev == ListStart then InList else InMap;
      OpenedFramed(c, frames, id, state, c'.trace);
      assert c'.(data := None) == Config(c.nodes[id := c.nodes[id].(state := state, next := c.root)], Some(id), None, c'.trace);
    } else {
      RetracedFramed(c.(data := None), frames, c'.trace);
    }
  }

  /** Ending the top node pops it. */
  lemma PopFramed(c: Config, frames: seq<NodeId>, accept: bool)
    requires Framed(c, frames) && c.root.Some? && c.data.None?
    ensures var (c', s) := Ended(c, accept);
      && (s.Fail? ==> Framed(c', frames))
      && (s.Pass? ==> frames != [] && Framed(c', frames[1..]))
  {
    var (c', s) := Ended(c, accept);
    if s.Fail? {
      RetracedFramed(c, frames, c'.trace);
    } else {
      var t := frames[0];
      var fs := frames[1..];
      assert forall j | 0 <= j < |fs| :: fs[j] == frames[j + 1];
      forall j, k | 0 <= j < |fs| && k == j + 1 && k < |fs| ensures c'.nodes[fs[j]].next == Some(fs[k]) {
        assert fs[j] == frames[j + 1] && fs[k] == frames[k + 1] && frames[j + 1] != t;
      }
      forall i | 0 <= i < |c'.nodes| ensures c'.nodes[i].state != Idle <==> i in fs {
        if i != t {
          assert c'.nodes[i] == c.nodes[i];
          assert i in frames ==> i in fs;
        } else {
          assert t !in fs;
        }
      }
      if |frames| == 1 {
        assert t == 0;
        assert c'.root == None;
      } else {
        var z, o := 0, 1;
        assert c.nodes[frames[z]].next == Some(frames[o]);
      }
      assert Framed(c', fs);
    }
  }

  /** With a pending map child, `parser_event` starts that child. */
  lemma DataFramed(c: Config, frames: seq<NodeId>, ev: Event, accept: bool)
    requires Framed(c, frames) && c.data.Some?
    ensures var (c', s) := Stepped(c, ev, accept);
      && (s.Fail? ==> Framed(c', frames))
      && (s.Pass? && IsStart(ev) ==> c'.root.Some? && Framed(c', [c'.root.value] + frames))
      && (s.Pass? && ev.Scalar? ==> Framed(c', frames))
      && (s.Pass? ==> !IsEnd(ev))
  {
    PushFramed(c, frames, c.data.value, ev, accept);
  }

  /** With a list node on top, `parser_event` ends it or starts its list
      child. */
  lemma ListFramed(c: Config, frames: seq<NodeId>, ev: Event, accept: bool)
    requires Framed(c, frames) && c.data.None? && c.root.Some? && c.nodes[c.root.value].state == InList
    ensures var (c', s) := Stepped(c, ev, accept);
      && (s.Fail? ==> Framed(c', frames))
      && (s.Pass? && IsStart(ev) ==> c'.root.Some? && Framed(c', [c'.root.value] + frames))
      && (s.Pass? && IsEnd(ev) ==> frames != [] && Framed(c', frames[1..]))
      && (s.Pass? && ev.Scalar? ==> Framed(c', frames))
  {
    var n := c.nodes[c.root.value];
    if ev == ListEnd {
      PopFramed(c, frames, accept);
    } else if n.list.Some? {
      assert Stepped(c, ev, accept) == Started(c, n.list.value, ev, accept);
      PushFramed(c, frames, n.list.value, ev, accept);
    }
  }

  /** With a map node on top, `parser_event` ends it or selects a child by
      key. */
  lemma MapFramed(c: Config, frames: seq<NodeId>, ev: Event, accept: bool)
    requires Framed(c, frames) && c.data.None? && c.root.Some? && c.nodes[c.root.value].state == InMap
    ensures var (c', s) := Stepped(c, ev, accept);
      && (s.Fail? ==> Framed(c', frames))
      && (s.Pass? ==> !IsStart(ev))
      && (s.Pass? && IsEnd(ev) ==> frames != [] && Framed(c', frames[1..]))
      && (s.Pass? && ev.Scalar? ==> Framed(c', frames))
  {
    var n := c.nodes[c.root.value];
    if ev == MapEnd {
      PopFramed(c, frames, accept);
    } else if ev.Scalar? && ev.value in n.keys {
      assert Stepped(c, ev, accept) == (c.(data := Some(n.keys[ev.value])), Pass);
    }
  }

  /** `parser_event` keeps the stack framed: a failed event changes neither
      the stack nor the pending child, a taken start event pushes, a taken
      end event pops, a taken scalar keeps the frames. */
  lemma SteppedFramed(c: Config, frames: seq<NodeId>, ev: Event, accept: bool)
    requires Framed(c, frames)
    ensures var (c', s) := Stepped(c, ev, accept);
      && (s.Fail? ==> Framed(c', frames))
      && (s.Pass? && IsStart(ev) ==> c'.root.Some? && Framed(c', [c'.root.value] + frames))
      && (s.Pass? && IsEnd(ev) ==> frames != [] && Framed(c', frames[1..]))
      && (s.Pass? && ev.Scalar? ==> Framed(c', frames))
  {
    if c.data.Some? {
      DataFramed(c, frames, ev, accept);
    } else if c.root.Some? {
      var n := c.nodes[c.root.value];
      if n.state == InList {
        ListFramed(c, frames, ev, accept);
      } else if n.state == InMap {
        MapFramed(c, frames, ev, accept);
      }
    }
  }

  /** The number of start events and of end events in a token sequence. */
  function Opens(tokens: seq<(Event, bool)>): nat {
    if tokens == [] then 0 else (if IsStart(tokens[0].0) then 1 else 0) + Opens(tokens[1..])
  }

  function Closes(tokens: seq<(Event, bool)>): nat {
    if tokens == [] then 0 else (if IsEnd(tokens[0].0) then 1 else 0) + Closes(tokens[1..])
  }

  /** The stack is framed by some chain of n open nodes. */
  ghost predicate FramedDepth(c: Config, n: int) {
    exists fs :: Framed(c, fs) && |fs| == n
  }

  /** A taken event changes the depth by one per start and minus one per
      end. */
  lemma SteppedDepth(c: Config, n: int, ev: Event, accept: bool)
    requires FramedDepth(c, n) && Stepped(c, ev, accept).1.Pass?
    ensures FramedDepth(Stepped(c, ev, accept).0, n + (if IsStart(ev) then 1 else 0) - (if IsEnd(ev) then 1 else 0))
  {
    var frames :| Framed(c, frames) && |frames| == n;
    var c' := Stepped(c, ev, accept).0;
    SteppedFramed(c, frames, ev, accept);
    if IsStart(ev) {
      assert Framed(c', [c'.root.value] + frames);
    } else if IsEnd(ev) {
      assert Framed(c', frames[1..]);
    } else {
      assert Framed(c', frames);
    }
  }

  /** A run goes on from where its first event, when taken, leaves the
      configuration. */
  lemma RanStep(c: Config, tokens: seq<(Event, bool)>)
    requires Consistent(c) && tokens != []
    ensures Ran(c, tokens).1.Pass? ==> Stepped(c, tokens[0].0, tokens[0].1).1.Pass?
    ensures Stepped(c, tokens[0].0, tokens[0].1).1.Pass? ==>
      Ran(c, tokens) == Ran(Stepped(c, tokens[0].0, tokens[0].1).0, tokens[1..])
  {
  }

  /** The start and end events of a non-empty run are those of its first
      event and those of the rest. */
  lemma CountsStep(tokens: seq<(Event, bool)>)
    requires tokens != []
    ensures Opens(tokens) - Closes(tokens)
      == (if IsStart(tokens[0].0) then 1 else 0) - (if IsEnd(tokens[0].0) then 1 else 0)
         + Opens(tokens[1..]) - Closes(tokens[1..])
  {
  }

  /** A run that takes every event leaves as many frames as it started
      with, plus one per start event, minus one per end event. */
  lemma {:induction false} RanFramed(c: Config, n: int, tokens: seq<(Event, bool)>)
    requires FramedDepth(c, n)
    ensures Ran(c, tokens).1.Pass? ==> FramedDepth(Ran(c, tokens).0, n + Opens(tokens) - Closes(tokens))
    decreases |tokens|
  {
    if tokens != [] {
      var ev := tokens[0].0;
      var accept := tokens[0].1;
      assert Consistent(c);
      RanStep(c, tokens);
      if Stepped(c, ev, accept).1.Pass? {
        SteppedDepth(c, n, ev, accept);
        RanFramed(Stepped(c, ev, accept).0, n + (if IsStart(ev) then 1 else 0) - (if IsEnd(ev) then 1 else 0), tokens[1..]);
        CountsStep(tokens);
      }
    }
  }

  /** The stack is back at the schema root exactly when only the root
      frame is left. */
  lemma FramedAtRoot(c: Config, frames: seq<NodeId>)
    requires Framed(c, frames)
    ensures c.root == Some(0) <==> |frames| == 1
  {
    if |frames| > 1 {
      var z, o := 0, 1;
      assert frames[z] > frames[o];
    }
  }

  /** From the root frame alone, a run that takes every event is back at
      the root exactly when it closed as many nodes as it opened. */
  lemma RanBalanced(c: Config, tokens: seq<(Event, bool)>)
    requires Framed(c, [0])
    ensures Ran(c, tokens).1.Pass? ==>
      (Ran(c, tokens).0.root == Some(0) <==> Opens(tokens) == Closes(tokens))
  {
    assert FramedDepth(c, 1) by {
      assert Framed(c, [0]);
    }
    RanFramed(c, 1, tokens);
    if Ran(c, tokens).1.Pass? {
      var fs :| Framed(Ran(c, tokens).0, fs) && |fs| == 1 + Opens(tokens) - Closes(tokens);
      FramedAtRoot(Ran(c, tokens).0, fs);
    }
  }

  /** `parser_parse` over an arena of the shape schema_load leaves. */
  lemma BegunBalanced(nodes: seq<SchemaNode>, tokens: seq<(Event, bool)>)
    requires LoadShape(nodes)
    ensures Consistent(Begun(nodes))
    ensures var (c', s) := Ran(Begun(nodes), tokens);
      Finished(s, c'.root, Some(0)).Pass? <==> s.Pass? && Opens(tokens) == Closes(tokens)
  {
    BegunFramed(nodes);
    RanBalanced(Begun(nodes), tokens);
  }

  /** `parser_parse` over a loaded schema: it succeeds exactly when every
      event was taken and the events closed as many lists and maps as
      they opened. */
  lemma ParseBalanced(markup: seq<Markup>, tokens: seq<(Event, bool)>)
    ensures Consistent(Begun(Loaded(markup).0))
    ensures var (c', s) := Ran(Begun(Loaded(markup).0), tokens);
      Finished(s, c'.root, Some(0)).Pass? <==> s.Pass? && Opens(tokens) == Closes(tokens)
  {
    LoadedShape(markup);
    BegunBalanced(Loaded(markup).0, tokens);
  }

  /** The arena of a schema whose root holds one list node of no
      children. */
  function ChildlessNodes(): seq<SchemaNode> {
    [RootNode.(list := Some(1)), NewNode(TypeSet(true, false, false), 1)]
  }

  /** A list node without a list child is accepted by schema_load. */
  lemma ChildlessListLoads()
    ensures Loaded([Markup(1, TypeSet(true, false, false), 1, None)]) == (ChildlessNodes(), Pass)
  {
    var e := Markup(1, TypeSet(true, false, false), 1, None);
    var nodes := ChildlessNodes();
    assert Unwind([Scope(0, 0)], 1) == [Scope(0, 0)];
    assert [RootNode][0 := RootNode.(list := Some(1))] == [RootNode.(list := Some(1))];
    assert [RootNode.(list := Some(1))] + [NewNode(e.types, e.mark)] == nodes;
    assert Attached([RootNode], 0, e) == Ok(nodes);
    assert Opened([Scope(0, 0)], e, 1) == [Scope(1, 1), Scope(0, 0)];
    assert Placed([RootNode], [Scope(0, 0)], e) == Ok((nodes, [Scope(1, 1), Scope(0, 0)]));
  }

  /** That schema as the parser sees it after the document opens the
      list. */
  function ChildlessOpened(): Config {
    var child := NewNode(TypeSet(true, false, false), 1);
    Config([RootNode.(list := Some(1)), child.(state := InList, next := Some(0))], Some(1), None, [Emit.Start(1)])
  }

  /** The document opening the list reaches that configuration. */
  lemma ChildlessListOpens()
    ensures Consistent(Begun(ChildlessNodes()))
    ensures Stepped(Begun(ChildlessNodes()), ListStart, true) == (ChildlessOpened(), Pass)
  {
    var child := NewNode(TypeSet(true, false, false), 1);
    var nodes := ChildlessNodes();
    var c0 := Begun(nodes);
    assert Consistent(c0);
    var c1 := ChildlessOpened();
    assert nodes[1 := child.(state := InList, next := Some(0))] == c1.nodes;
    assert Emitted(child, ListStart) == Emit.Start(1);
    assert [] + [Emit.Start(1)] == c1.trace;
    assert Started(c0, 1, ListStart, true) == (c1, Pass);
  }

  /** In that configuration the top is a list node in list state with no
      list child, so the condition ListElementAsWritten needs fails; the
      checked step reports the error and changes nothing. */
  lemma ChildlessListFails()
    ensures Consistent(ChildlessOpened())
    ensures var c := ChildlessOpened();
      && c.data.None? && c.root == Some(1)
      && c.nodes[1].state == InList && c.nodes[1].list.None?
      && Stepped(c, Scalar("x"), true) == (c, Fail(MissingList))
  {
    assert Consistent(ChildlessOpened());
  }
}
