/**
 * The traversal callbacks: every tagged template whose tag is a resolved tag
 * name, and every string or template literal argument of a call whose callee
 * is one, becomes a template node.
 */
module Collector {
  import opened Syntax
  import Sorter

  /** A plain identifier that is one of the resolved tag names. */
  predicate IsTag(e: Expr, tags: seq<string>) {
    e.Identifier? && e.name in tags
  }

  /** The node for a template chunk: its raw text and its own location and offset. */
  function ElementNode(e: TemplateElement): TemplateNode {
    TemplateNode(e.raw, e.loc.start.line, e.loc.start.column, e.loc.end.line, e.loc.end.column, e.start)
  }

  /** A string literal or template literal argument: the only arguments that yield a node. */
  predicate IsLiteral(a: Argument) {
    a.StringLiteral? || a.TemplateLiteralArg?
  }

  /**
   * The node for a literal argument. A string literal's column points at its
   * opening quote, so the text starts one column further right; a template
   * literal contributes its first chunk.
   */
  function LiteralNode(a: Argument): TemplateNode
    requires IsLiteral(a)
  {
    match a
    case StringLiteral(value, loc, start) =>
      TemplateNode(value, loc.start.line, loc.start.column + 1, loc.end.line, loc.end.column, start)
    case TemplateLiteralArg(quasi) => ElementNode(quasi.first)
  }

  /** The nodes a matching call yields for `args`, built argument by argument as the callback does. */
  function ArgumentNodes(args: seq<Argument>): seq<TemplateNode>
  {
    if args == [] then []
    else
      var last := args[|args| - 1];
      ArgumentNodes(args[..|args| - 1]) + (if IsLiteral(last) then [LiteralNode(last)] else [])
  }

  /** The literal arguments of a call, in argument order. */
  function LiteralArguments(args: seq<Argument>): (r: seq<Argument>)
    ensures forall a :: a in r <==> a in args && IsLiteral(a)
  {
    if args == [] then []
    else (if IsLiteral(args[0]) then [args[0]] else []) + LiteralArguments(args[1..])
  }

  /** The nodes one visited node yields. */
  function VisitNodes(v: Visited, tags: seq<string>): seq<TemplateNode>
  {
    match v
    case TaggedTemplateExpression(tag, quasi) =>
      if IsTag(tag, tags) then [ElementNode(quasi.first)] else []
    case CallExpression(callee, args) =>
      if IsTag(callee, tags) then ArgumentNodes(args) else []
  }

  /** The nodes the traversal accumulates over the visited nodes, in visiting order. */
  function Collected(visits: seq<Visited>, tags: seq<string>): seq<TemplateNode>
  {
    if visits == [] then []
    else Collected(visits[..|visits| - 1], tags) + VisitNodes(visits[|visits| - 1], tags)
  }

  /** The nodes of the tree, sorted by offset when asked. */
  function TemplateNodes(visits: seq<Visited>, tags: seq<string>, sortByStartKey: bool): seq<TemplateNode>
  {
    var nodes := Collected(visits, tags);
    if sortByStartKey then Sorter.SortByStartKey(nodes) else nodes
  }

  /** The tagged-template callback: one more node when the tag is a plain identifier among the tags. */
  method VisitTaggedTemplate(templateNodes: seq<TemplateNode>, tag: Expr, quasi: TemplateLiteral, tags: seq<string>)
    returns (nodes: seq<TemplateNode>)
    ensures nodes == templateNodes + VisitNodes(TaggedTemplateExpression(tag, quasi), tags)
  {
    nodes := templateNodes;
    if tag.Identifier? && tag.name in tags {
      var innerNode := quasi.first;
      nodes := nodes + [TemplateNode(
        innerNode.raw,
        innerNode.loc.start.line,
        innerNode.loc.start.column,
        innerNode.loc.end.line,
        innerNode.loc.end.column,
        innerNode.start)];
    }
  }

  /**
   * The call callback: the arguments are scanned one by one, and each string
   * or template literal argument of a call to a tag adds one node.
   */
  method VisitCall(templateNodes: seq<TemplateNode>, callee: Expr, args: seq<Argument>, tags: seq<string>)
    returns (nodes: seq<TemplateNode>)
    ensures nodes == templateNodes + VisitNodes(CallExpression(callee, args), tags)
  {
    nodes := templateNodes;
    var j := 0;
    while j < |args|
      invariant 0 <= j <= |args|
      invariant nodes == templateNodes + (if IsTag(callee, tags) then ArgumentNodes(args[..j]) else [])
    {
      assert args[..j + 1][..j] == args[..j];
      var argument := args[j];
      if callee.Identifier? && callee.name in tags && (argument.StringLiteral? || argument.TemplateLiteralArg?) {
        match argument
        case StringLiteral(value, loc, start) =>
          nodes := nodes +
            [TemplateNode(value, loc.start.line, loc.start.column + 1, loc.end.line, loc.end.column, start)];
        case TemplateLiteralArg(quasi) =>
          var q := quasi.first;
          nodes := nodes +
            [TemplateNode(q.raw, q.loc.start.line, q.loc.start.column, q.loc.end.line, q.loc.end.column, q.start)];
      }
      j := j + 1;
    }
    assert args[..|args|] == args;
  }

  /**
   * The traversal: the node list is rebuilt at every visited node by the
   * matching callback, then sorted by offset when asked.
   */
  method GetTemplateNodes(visits: seq<Visited>, tags: seq<string>, sortByStartKey: bool)
    returns (templateNodes: seq<TemplateNode>)
    ensures templateNodes == TemplateNodes(visits, tags, sortByStartKey)
  {
    templateNodes := [];
    var i := 0;
    while i < |visits|
      invariant 0 <= i <= |visits|
      invariant templateNodes == Collected(visits[..i], tags)
    {
      assert visits[..i + 1][..i] == visits[..i];
      match visits[i] {
        case TaggedTemplateExpression(tag, quasi) =>
          templateNodes := VisitTaggedTemplate(templateNodes, tag, quasi, tags);
        case CallExpression(callee, args) =>
          templateNodes := VisitCall(templateNodes, callee, args, tags);
      }
      i := i + 1;
    }
    assert visits[..|visits|] == visits;
    if sortByStartKey {
      templateNodes := Sorter.SortByStartKey(templateNodes);
    }
  }

  /** The accumulation over consecutive stretches of the walk concatenates their nodes in order. */
  lemma {:induction false} CollectedAppend(a: seq<Visited>, b: seq<Visited>, tags: seq<string>)
    ensures Collected(a + b, tags) == Collected(a, tags) + Collected(b, tags)
  {
    if b == [] {
      assert a + b == a;
    } else {
      var b' := b[..|b| - 1];
      var last := b[|b| - 1];
      assert (a + b)[..|a + b| - 1] == a + b';
      assert (a + b)[|a + b| - 1] == last;
      var v := VisitNodes(last, tags);
      assert Collected(a + b, tags) == Collected(a + b', tags) + v;
      assert Collected(b, tags) == Collected(b', tags) + v;
      CollectedAppend(a, b', tags);
      assert (Collected(a, tags) + Collected(b', tags)) + v == Collected(a, tags) + (Collected(b', tags) + v);
    }
  }

  /** Filtering the literal arguments distributes over appending arguments. */
  lemma {:induction false} LiteralArgumentsAppend(a: seq<Argument>, b: seq<Argument>)
    ensures LiteralArguments(a + b) == LiteralArguments(a) + LiteralArguments(b)
  {
    if a == [] {
      assert a + b == b;
    } else {
      assert (a + b)[1..] == a[1..] + b;
      LiteralArgumentsAppend(a[1..], b);
    }
  }

  /**
   * A matching call yields exactly one node per literal argument, in argument
   * order: the k-th node is the node of the k-th literal argument.
   */
  lemma {:induction false} ArgumentNodesAreLiterals(args: seq<Argument>)
    ensures |ArgumentNodes(args)| == |LiteralArguments(args)|
    ensures forall k :: 0 <= k < |ArgumentNodes(args)| ==>
      IsLiteral(LiteralArguments(args)[k]) && ArgumentNodes(args)[k] == LiteralNode(LiteralArguments(args)[k])
  {
    if args != [] {
      var init := args[..|args| - 1];
      var last := args[|args| - 1];
      ArgumentNodesAreLiterals(init);
      assert args == init + [last];
      LiteralArgumentsAppend(init, [last]);
      assert [last][1..] == [];
      var lits := LiteralArguments(init);
      var nodes := ArgumentNodes(init);
      if IsLiteral(last) {
        assert LiteralArguments(args) == lits + [last];
        assert ArgumentNodes(args) == nodes + [LiteralNode(last)];
      } else {
        assert LiteralArguments(args) == lits;
        assert ArgumentNodes(args) == nodes;
      }
    }
  }

  /**
   * A tagged template yields one node exactly when its tag is a plain
   * identifier among the tags; the node carries the first chunk's raw text,
   * location and offset, whatever the later chunks hold.
   */
  lemma TaggedTemplateNodes(tag: Expr, quasi: TemplateLiteral, tags: seq<string>)
    ensures var nodes := Collected([TaggedTemplateExpression(tag, quasi)], tags);
      (|nodes| == 1 <==> tag.Identifier? && tag.name in tags) &&
      (|nodes| != 1 ==> nodes == []) &&
      (|nodes| == 1 ==>
        nodes[0].template == quasi.first.raw &&
        nodes[0].startLine == quasi.first.loc.start.line &&
        nodes[0].startColumn == quasi.first.loc.start.column &&
        nodes[0].endLine == quasi.first.loc.end.line &&
        nodes[0].endColumn == quasi.first.loc.end.column &&
        nodes[0].start == quasi.first.start)
  {
    var v := [TaggedTemplateExpression(tag, quasi)];
    assert v[..0] == [];
  }

  /**
   * A call yields nothing unless its callee is a plain identifier among the
   * tags, and then exactly one node per literal argument, in argument order; a
   * string literal's node starts one column right of the literal's location,
   * a template literal's node is its first chunk's.
   */
  lemma CallNodes(callee: Expr, args: seq<Argument>, tags: seq<string>)
    ensures var nodes := Collected([CallExpression(callee, args)], tags);
      (!IsTag(callee, tags) ==> nodes == []) &&
      (IsTag(callee, tags) ==>
        |nodes| == |LiteralArguments(args)| &&
        forall k :: 0 <= k < |nodes| ==>
          match LiteralArguments(args)[k]
          case StringLiteral(value, loc, start) =>
            nodes[k].template == value && nodes[k].startLine == loc.start.line &&
            nodes[k].startColumn == loc.start.column + 1 && nodes[k].endLine == loc.end.line &&
            nodes[k].endColumn == loc.end.column && nodes[k].start == start
          case TemplateLiteralArg(quasi) => nodes[k] == ElementNode(quasi.first)
          case OtherArgument => false)
  {
    var v := [CallExpression(callee, args)];
    assert v[..0] == [];
    ArgumentNodesAreLiterals(args);
  }

  /**
   * A tag called with one string literal yields one node: the literal's
   * value, starting one column right of the literal's opening quote.
   */
  lemma StringLiteralCallNode(tag: string, value: string, loc: SourceLocation, start: nat, tags: seq<string>)
    requires tag in tags
    ensures Collected([CallExpression(Identifier(tag), [StringLiteral(value, loc, start)])], tags) ==
      [TemplateNode(value, loc.start.line, loc.start.column + 1, loc.end.line, loc.end.column, start)]
  {
    var arg := StringLiteral(value, loc, start);
    var v := [CallExpression(Identifier(tag), [arg])];
    assert v[..0] == [];
    assert [arg][..0] == [];
    assert ArgumentNodes([arg]) == [LiteralNode(arg)];
  }
}
