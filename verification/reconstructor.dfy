/**
 * Stitching the template nodes into one template document in which every
 * template reappears at its line (and, where it can, its column) in the
 * script.
 */
module Reconstructor {
  import opened Syntax
  import Sorter

  /** `n` copies of `c`. */
  function Repeat(c: char, n: nat): (r: string)
    ensures |r| == n
    ensures forall i :: 0 <= i < n ==> r[i] == c
  {
    if n == 0 then [] else [c] + Repeat(c, n - 1)
  }

  /** The number of newline characters in `s`. */
  function CountNewlines(s: string): nat
  {
    if s == [] then 0 else (if s[0] == '\n' then 1 else 0) + CountNewlines(s[1..])
  }

  predicate StartsWithNewline(s: string) {
    |s| > 0 && s[0] == '\n'
  }

  /** The newlines that bring the document from the cursor line down to `startLine`. */
  function VerticalGap(lastParsedLine: int, startLine: int): (r: string)
    ensures |r| == if lastParsedLine < startLine then startLine - lastParsedLine else 0
    ensures forall i :: 0 <= i < |r| ==> r[i] == '\n'
  {
    if lastParsedLine < startLine then Repeat('\n', startLine - lastParsedLine) else ""
  }

  /**
   * The spaces put before a template: as many as its start column, but only
   * when that column is above 1 and the template does not begin with a newline.
   */
  function Indentation(node: TemplateNode): (r: string)
    ensures |r| == if node.startColumn > 1 && !StartsWithNewline(node.template) then node.startColumn else 0
    ensures forall i :: 0 <= i < |r| ==> r[i] == ' '
  {
    if node.startColumn > 1 && !StartsWithNewline(node.template) then Repeat(' ', node.startColumn) else ""
  }

  /** The length of the run of space characters that ends `s`. */
  function TrailingSpaces(s: string): (n: nat)
    ensures n <= |s|
    ensures forall i :: |s| - n <= i < |s| ==> s[i] == ' '
    ensures n < |s| ==> s[|s| - n - 1] != ' '
  {
    if s == [] || s[|s| - 1] != ' ' then 0 else 1 + TrailingSpaces(s[..|s| - 1])
  }

  /**
   * The template with a final newline followed by one or more spaces at its
   * very end replaced by that newline alone. The result is a prefix of the
   * template; what is cut off is spaces only; and when anything is cut off,
   * the result ends in the newline that preceded them.
   */
  function RightTrim(s: string): (r: string)
    ensures r <= s
    ensures forall i :: |r| <= i < |s| ==> s[i] == ' '
    ensures |r| < |s| ==> |r| > 0 && r[|r| - 1] == '\n'
  {
    var n := |s| - TrailingSpaces(s);
    if n < |s| && 0 < n && s[n - 1] == '\n' then s[..n] else s
  }

  /** What one node adds to the document when the cursor is at `lastParsedLine`. */
  function Piece(node: TemplateNode, lastParsedLine: int): string
  {
    VerticalGap(lastParsedLine, node.startLine) + Indentation(node) + RightTrim(node.template)
  }

  /** The document built from `nodes` in order, the cursor moving to each node's end line after it. */
  function RenderFrom(nodes: seq<TemplateNode>, lastParsedLine: int): string
  {
    if nodes == [] then ""
    else Piece(nodes[0], lastParsedLine) + RenderFrom(nodes[1..], nodes[0].endLine)
  }

  /** The cursor after rendering `nodes` from `lastParsedLine`: the end line of the last node. */
  function Cursor(nodes: seq<TemplateNode>, lastParsedLine: int): int
  {
    if nodes == [] then lastParsedLine else nodes[|nodes| - 1].endLine
  }

  /** The document for the nodes sorted by offset, the cursor starting at line 1. */
  function HbsSource(nodes: seq<TemplateNode>): (r: string)
    ensures nodes == [] ==> r == ""
  {
    RenderFrom(Sorter.SortByStartKey(nodes), 1)
  }

  /**
   * The source's conversion to a template document: the nodes are sorted by
   * offset, then reduced into one string.
   */
  method ToHbsSource(templateNodes: seq<TemplateNode>) returns (output: string)
    ensures output == HbsSource(templateNodes)
  {
    var sortedTemplateNodes := Sorter.SortByStartKey(templateNodes);
    output := ReduceToHbs(sortedTemplateNodes);
  }

  /**
   * The reduce over the sorted nodes: a cursor `lastParsedLine`, starting at
   * 1, is moved to each node's end line once its gap, indentation and trimmed
   * text are appended to the accumulator.
   */
  method ReduceToHbs(sortedTemplateNodes: seq<TemplateNode>) returns (acc: string)
    ensures acc == RenderFrom(sortedTemplateNodes, 1)
  {
    var lastParsedLine := 1;
    acc := "";
    var i := 0;
    while i < |sortedTemplateNodes|
      invariant 0 <= i <= |sortedTemplateNodes|
      invariant acc == RenderFrom(sortedTemplateNodes[..i], 1)
      invariant lastParsedLine == Cursor(sortedTemplateNodes[..i], 1)
    {
      var node := sortedTemplateNodes[i];
      var verticalGap := VerticalGap(lastParsedLine, node.startLine);
      var indentation := Indentation(node);
      var rightTrimmedTemplate := RightTrim(node.template);
      RenderSnoc(sortedTemplateNodes, i);
      lastParsedLine := node.endLine;
      acc := acc + (verticalGap + indentation + rightTrimmedTemplate);
      i := i + 1;
    }
    assert sortedTemplateNodes[..i] == sortedTemplateNodes;
  }

  /** Rendering one more node appends its piece, laid out from the cursor the earlier nodes left. */
  lemma RenderSnoc(nodes: seq<TemplateNode>, i: nat)
    requires i < |nodes|
    ensures RenderFrom(nodes[..i + 1], 1) ==
      RenderFrom(nodes[..i], 1) + (VerticalGap(Cursor(nodes[..i], 1), nodes[i].startLine) +
        Indentation(nodes[i]) + RightTrim(nodes[i].template))
    ensures Cursor(nodes[..i + 1], 1) == nodes[i].endLine
  {
    assert nodes[..i + 1] == nodes[..i] + [nodes[i]];
    RenderAppend(nodes[..i], [nodes[i]], 1);
    assert [nodes[i]][1..] == [];
    assert RenderFrom([nodes[i]], Cursor(nodes[..i], 1)) == Piece(nodes[i], Cursor(nodes[..i], 1)) + "";
  }

  lemma AppendAssoc(a: string, b: string, c: string)
    ensures a + (b + c) == (a + b) + c
  {
  }

  /** Exactly the shape the trim looks for: some text, a newline, then at least one space to the end. */
  lemma RightTrimShape(p: string, k: nat)
    requires k >= 1
    ensures RightTrim(p + "\n" + Repeat(' ', k)) == p + "\n"
  {
    var s := p + "\n" + Repeat(' ', k);
    var n := TrailingSpaces(s);
    assert s[|s| - k - 1] == '\n';
    assert forall i :: |s| - k <= i < |s| ==> s[i] == ' ';
    assert n == k;
    assert s[..|s| - k] == p + "\n";
  }

  lemma {:induction false} CountNewlinesAppend(a: string, b: string)
    ensures CountNewlines(a + b) == CountNewlines(a) + CountNewlines(b)
  {
    if a == [] {
      assert a + b == b;
    } else {
      assert (a + b)[0] == a[0];
      assert (a + b)[1..] == a[1..] + b;
      CountNewlinesAppend(a[1..], b);
    }
  }

  lemma {:induction false} CountNewlinesUniform(s: string, c: char)
    requires forall i :: 0 <= i < |s| ==> s[i] == c
    ensures CountNewlines(s) == if c == '\n' then |s| else 0
  {
    if s != [] {
      CountNewlinesUniform(s[1..], c);
    }
  }

  /** Trimming never removes a newline. */
  lemma RightTrimNewlines(s: string)
    ensures CountNewlines(RightTrim(s)) == CountNewlines(s)
  {
    var r := RightTrim(s);
    assert s == r + s[|r|..];
    CountNewlinesAppend(r, s[|r|..]);
    CountNewlinesUniform(s[|r|..], ' ');
  }

  /**
   * Rendering a list in two stretches: the second stretch starts with the
   * cursor at the end line of the first stretch's last node.
   */
  lemma {:induction false} RenderAppend(a: seq<TemplateNode>, b: seq<TemplateNode>, lastParsedLine: int)
    ensures RenderFrom(a + b, lastParsedLine) == RenderFrom(a, lastParsedLine) + RenderFrom(b, Cursor(a, lastParsedLine))
  {
    if a == [] {
      assert a + b == b;
    } else {
      var p := Piece(a[0], lastParsedLine);
      assert (a + b)[0] == a[0];
      assert (a + b)[1..] == a[1..] + b;
      RenderAppend(a[1..], b, a[0].endLine);
      assert Cursor(a[1..], a[0].endLine) == Cursor(a, lastParsedLine);
      assert RenderFrom(a + b, lastParsedLine) == p + RenderFrom(a[1..] + b, a[0].endLine);
      assert RenderFrom(a, lastParsedLine) == p + RenderFrom(a[1..], a[0].endLine);
      AppendAssoc(p, RenderFrom(a[1..], a[0].endLine), RenderFrom(b, Cursor(a, lastParsedLine)));
    }
  }

  /**
   * The nodes can be laid out from cursor `lastParsedLine` without overlap:
   * each starts at or below the line where the previous one (or the cursor)
   * ended, and each template spans as many lines as it holds newlines.
   */
  predicate Chained(nodes: seq<TemplateNode>, lastParsedLine: int) {
    (nodes != [] ==> lastParsedLine <= nodes[0].startLine) &&
    (forall i :: 0 < i < |nodes| ==> nodes[i - 1].endLine <= nodes[i].startLine) &&
    (forall i :: 0 <= i < |nodes| ==> CountNewlines(nodes[i].template) == nodes[i].endLine - nodes[i].startLine)
  }

  /** A chained document holds as many newlines as there are lines from the cursor to the last end line. */
  lemma {:induction false} RenderNewlines(nodes: seq<TemplateNode>, lastParsedLine: int)
    requires Chained(nodes, lastParsedLine)
    ensures CountNewlines(RenderFrom(nodes, lastParsedLine)) == Cursor(nodes, lastParsedLine) - lastParsedLine
  {
    if nodes != [] {
      var node := nodes[0];
      assert Chained(nodes[1..], node.endLine);
      RenderNewlines(nodes[1..], node.endLine);
      var gap, indent, text := VerticalGap(lastParsedLine, node.startLine), Indentation(node), RightTrim(node.template);
      CountNewlinesUniform(gap, '\n');
      CountNewlinesUniform(indent, ' ');
      RightTrimNewlines(node.template);
      CountNewlinesAppend(gap, indent);
      CountNewlinesAppend(gap + indent, text);
      CountNewlinesAppend(Piece(node, lastParsedLine), RenderFrom(nodes[1..], node.endLine));
      assert Cursor(nodes[1..], node.endLine) == Cursor(nodes, lastParsedLine);
    }
  }

  /** The text the document holds in front of node `i`'s trimmed template. */
  function TextBefore(nodes: seq<TemplateNode>, i: nat): string
    requires i < |nodes|
  {
    RenderFrom(nodes[..i], 1) + VerticalGap(Cursor(nodes[..i], 1), nodes[i].startLine) + Indentation(nodes[i])
  }

  /** Node `i`'s trimmed template follows the text before it in the document rendered from line 1. */
  lemma RenderAt(nodes: seq<TemplateNode>, i: nat)
    requires i < |nodes|
    ensures RenderFrom(nodes, 1) ==
      TextBefore(nodes, i) + RightTrim(nodes[i].template) + RenderFrom(nodes[i + 1..], nodes[i].endLine)
  {
    var before, rest := nodes[..i], nodes[i..];
    assert nodes == before + rest;
    RenderAppend(before, rest, 1);
    assert rest[1..] == nodes[i + 1..];
    var r := RenderFrom(before, 1);
    var g := VerticalGap(Cursor(before, 1), nodes[i].startLine);
    var ind := Indentation(nodes[i]);
    var t := RightTrim(nodes[i].template);
    var z := RenderFrom(nodes[i + 1..], nodes[i].endLine);
    assert RenderFrom(rest, Cursor(before, 1)) == (g + ind + t) + z;
    assert RenderFrom(nodes, 1) == r + ((g + ind + t) + z);
    AppendAssoc(r, g + ind + t, z);
    AppendAssoc(r, g + ind, t);
    AppendAssoc(r, g, ind);
  }

  /** In a chained list, the text before node `i`'s template holds exactly `startLine - 1` newlines. */
  lemma TextBeforeNewlines(nodes: seq<TemplateNode>, i: nat)
    requires Chained(nodes, 1)
    requires i < |nodes|
    ensures CountNewlines(TextBefore(nodes, i)) == nodes[i].startLine - 1
  {
    var before := nodes[..i];
    assert Chained(before, 1);
    RenderNewlines(before, 1);
    var gap := VerticalGap(Cursor(before, 1), nodes[i].startLine);
    var indent := Indentation(nodes[i]);
    assert Cursor(before, 1) <= nodes[i].startLine;
    CountNewlinesUniform(gap, '\n');
    CountNewlinesUniform(indent, ' ');
    CountNewlinesAppend(RenderFrom(before, 1), gap);
    CountNewlinesAppend(RenderFrom(before, 1) + gap, indent);
  }

  /**
   * Line preservation: for nodes sorted by offset and chained from line 1,
   * the document holds node `i`'s trimmed template right after exactly
   * `startLine - 1` newlines, so the template begins on its original line.
   */
  /**
   * Line preservation needs `Chained`: a string literal `'a\nb'` on line 2
   * spans one line but its decoded value holds a newline, so the cursor
   * stays at 2 and the next template, written on line 3, lands on line 4.
   */
  lemma ShiftedByEscapedNewline()
    ensures HbsSource([TemplateNode("a\nb", 2, 5, 2, 13, 10), TemplateNode("c", 3, 5, 3, 8, 20)]) ==
      "\n     a\nb\n     c"
  {
    var first := TemplateNode("a\nb", 2, 5, 2, 13, 10);
    var second := TemplateNode("c", 3, 5, 3, 8, 20);
    Sorter.SortSortedIsIdentity([first, second]);
    assert RenderFrom([second], 2) == "\n     c" by {
      assert RenderFrom([second], 2) == Piece(second, 2) + RenderFrom([], 3);
      assert Repeat('\n', 1) == "\n";
      assert Repeat(' ', 5) == "     ";
    }
    assert RenderFrom([first, second], 1) == "\n     a\nb" + RenderFrom([second], 2) by {
      assert [first, second][1..] == [second];
      assert Repeat('\n', 1) == "\n";
      assert Repeat(' ', 5) == "     ";
      assert RightTrim("a\nb") == "a\nb";
    }
  }

  lemma LinePreserved(nodes: seq<TemplateNode>, i: nat)
    requires Sorter.SortedByStart(nodes)
    requires Chained(nodes, 1)
    requires i < |nodes|
    ensures HbsSource(nodes) ==
      TextBefore(nodes, i) + RightTrim(nodes[i].template) + RenderFrom(nodes[i + 1..], nodes[i].endLine)
    ensures CountNewlines(TextBefore(nodes, i)) == nodes[i].startLine - 1
  {
    Sorter.SortSortedIsIdentity(nodes);
    RenderAt(nodes, i);
    TextBeforeNewlines(nodes, i);
  }

  /**
   * A single template at line L (L at least 1) and column C becomes L - 1
   * newlines, C spaces when C is above 1 and the template does not start with
   * a newline, and the trimmed template.
   */
  lemma SingleNode(node: TemplateNode)
    requires node.startLine >= 1
    ensures HbsSource([node]) ==
      Repeat('\n', node.startLine - 1) +
      (if node.startColumn > 1 && !StartsWithNewline(node.template) then Repeat(' ', node.startColumn) else "") +
      RightTrim(node.template)
  {
    assert Sorter.SortByStartKey([node]) == [node];
    assert [node][1..] == [];
    assert RenderFrom([node], 1) == Piece(node, 1) + "";
    assert VerticalGap(1, node.startLine) == Repeat('\n', node.startLine - 1);
  }
}
