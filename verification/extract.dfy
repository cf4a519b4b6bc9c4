/**
 * The two public operations: listing the inline templates of a script, and
 * extracting them as one template document.
 */
module Extract {
  import opened Syntax
  import TagSources
  import Collector
  import Sorter
  import Reconstructor

  /**
   * The caller's options: extra tag sources (merged over the built-in ones),
   * the parser (None when what was given is not a function), and whether to
   * sort the listed nodes by offset.
   */
  datatype Options = Options(
    hbsTagSources: Option<TagSources.TagSourceMap>,
    parse: Option<string -> Result<File>>,
    sortByStartKey: bool)

  /** Parsing: fails before anything else without a parse function; a parser failure is passed on unchanged. */
  function GetAst(source: string, parse: Option<string -> Result<File>>): (r: Result<File>)
    ensures parse.None? ==> r == Err(ParseRequired)
  {
    match parse
    case None => Err(ParseRequired)
    case Some(p) => p(source)
  }

  /**
   * The template nodes of a script: none when the tags resolve to nothing, in
   * traversal order or, when asked, sorted by offset.
   */
  function GetTemplateNodes(source: string, options: Options): (r: Result<seq<TemplateNode>>)
    ensures options.parse.None? ==> r == Err(ParseRequired)
    ensures GetAst(source, options.parse).Err? ==> r == Err(GetAst(source, options.parse).error)
    ensures GetAst(source, options.parse).Ok? ==>
      var ast := GetAst(source, options.parse).value;
      var tags := TagSources.HbsTags(ast.body, TagSources.MergedTagSources(options.hbsTagSources));
      (tags.Err? ==> r == Err(tags.error)) &&
      (tags == Ok(None) ==> r == Ok([])) &&
      (tags.Ok? && tags.value.Some? ==>
        r == Ok(Collector.TemplateNodes(ast.visits, tags.value.value, options.sortByStartKey)) &&
        multiset(r.value) == multiset(Collector.Collected(ast.visits, tags.value.value)))
    ensures r.Ok? && options.sortByStartKey ==> Sorter.SortedByStart(r.value)
  {
    var hbsTagSources := TagSources.MergedTagSources(options.hbsTagSources);
    match GetAst(source, options.parse)
    case Err(e) => Err(e)
    case Ok(ast) =>
      match TagSources.HbsTags(ast.body, hbsTagSources)
      case Err(e) => Err(e)
      case Ok(None) => Ok([])
      case Ok(Some(hbsTags)) =>
        var nodes := Collector.Collected(ast.visits, hbsTags);
        Sorter.SortByStartKeyCorrect(nodes);
        Ok(Collector.TemplateNodes(ast.visits, hbsTags, options.sortByStartKey))
  }

  /** The template document of a script: empty when it has no inline template. */
  function SearchAndExtractHbs(source: string, options: Options): (r: Result<string>)
    ensures options.parse.None? ==> r == Err(ParseRequired)
    ensures r.Err? <==> GetTemplateNodes(source, options).Err?
    ensures GetTemplateNodes(source, options) == Ok([]) ==> r == Ok("")
    ensures GetTemplateNodes(source, options).Ok? ==>
      r == Ok(Reconstructor.HbsSource(GetTemplateNodes(source, options).value))
  {
    match GetTemplateNodes(source, options)
    case Err(e) => Err(e)
    case Ok(templateNodes) =>
      if |templateNodes| == 0 then Ok("") else Ok(Reconstructor.HbsSource(templateNodes))
  }

  /** A parser failure reaches the caller of either operation unchanged. */
  lemma ParseFailurePropagates(source: string, options: Options, e: Error)
    requires options.parse.Some? && options.parse.value(source) == Err(e)
    ensures GetTemplateNodes(source, options) == Err(e)
    ensures SearchAndExtractHbs(source, options) == Err(e)
  {
  }

  /**
   * No tags, no work: a script without top-level import declarations, or
   * whose declarations contribute no tag name, has no template nodes and an
   * empty document, and this is not an error.
   */
  lemma NoTagsNoTemplates(source: string, options: Options, ast: File)
    requires options.parse.Some? && options.parse.value(source) == Ok(ast)
    requires (forall i :: 0 <= i < |ast.body| ==> !ast.body[i].Import?) ||
      TagSources.HbsTags(ast.body, TagSources.MergedTagSources(options.hbsTagSources)) == Ok(None)
    ensures GetTemplateNodes(source, options) == Ok([])
    ensures SearchAndExtractHbs(source, options) == Ok("")
  {
  }

  /**
   * The document does not depend on whether the caller asked for sorted
   * nodes: the conversion sorts them anyway, and sorting twice is sorting once.
   */
  lemma DocumentIgnoresSortFlag(source: string, options: Options, sortByStartKey: bool)
    ensures SearchAndExtractHbs(source, options) ==
      SearchAndExtractHbs(source, options.(sortByStartKey := sortByStartKey))
  {
    var other := options.(sortByStartKey := sortByStartKey);
    match GetAst(source, options.parse)
    case Err(e) =>
    case Ok(ast) =>
      match TagSources.HbsTags(ast.body, TagSources.MergedTagSources(options.hbsTagSources))
      case Err(e) =>
      case Ok(None) =>
      case Ok(Some(hbsTags)) =>
        var nodes := Collector.Collected(ast.visits, hbsTags);
        Sorter.SortIdempotent(nodes);
        Sorter.SortByStartKeyCorrect(nodes);
        assert |Sorter.SortByStartKey(nodes)| == |nodes| by {
          assert |multiset(Sorter.SortByStartKey(nodes))| == |multiset(nodes)|;
        }
  }

  /**
   * A tag called with one string literal at line L (at least 1) and column C
   * (at least 1) gives L - 1 newlines, C + 1 spaces (the literal's column is
   * that of its opening quote) and the trimmed literal, when the literal does
   * not start with a newline.
   */
  lemma StringLiteralCallLayout(tag: string, value: string, loc: SourceLocation, start: nat, tags: seq<string>)
    requires tag in tags
    requires loc.start.line >= 1 && loc.start.column >= 1
    requires !Reconstructor.StartsWithNewline(value)
    ensures Reconstructor.HbsSource(
        Collector.Collected([CallExpression(Identifier(tag), [StringLiteral(value, loc, start)])], tags)) ==
      Reconstructor.Repeat('\n', loc.start.line - 1) + Reconstructor.Repeat(' ', loc.start.column + 1) +
      Reconstructor.RightTrim(value)
  {
    var node := TemplateNode(value, loc.start.line, loc.start.column + 1, loc.end.line, loc.end.column, start);
    var indentation := Reconstructor.Repeat(' ', loc.start.column + 1);
    assert Reconstructor.HbsSource([node]) ==
        Reconstructor.Repeat('\n', loc.start.line - 1) + indentation + Reconstructor.RightTrim(value) by {
      assert node.startColumn > 1 && !Reconstructor.StartsWithNewline(node.template);
      Reconstructor.SingleNode(node);
    }
    Collector.StringLiteralCallNode(tag, value, loc, start, tags);
  }

  /**
   * A tagged template whose text begins with a newline (the usual multi-line
   * form) gets no indentation: the document is L - 1 newlines and the
   * trimmed first chunk, L being the chunk's start line.
   */
  lemma MultilineTaggedTemplateLayout(tag: string, quasi: TemplateLiteral, tags: seq<string>)
    requires tag in tags
    requires quasi.first.loc.start.line >= 1
    requires Reconstructor.StartsWithNewline(quasi.first.raw)
    ensures Reconstructor.HbsSource(Collector.Collected([TaggedTemplateExpression(Identifier(tag), quasi)], tags)) ==
      Reconstructor.Repeat('\n', quasi.first.loc.start.line - 1) + Reconstructor.RightTrim(quasi.first.raw)
  {
    var node := Collector.ElementNode(quasi.first);
    assert Reconstructor.HbsSource([node]) ==
        Reconstructor.Repeat('\n', quasi.first.loc.start.line - 1) + Reconstructor.RightTrim(quasi.first.raw) by {
      Reconstructor.SingleNode(node);
    }
    assert Collector.Collected([TaggedTemplateExpression(Identifier(tag), quasi)], tags) == [node] by {
      Collector.TaggedTemplateNodes(Identifier(tag), quasi, tags);
    }
  }

  /**
   * Caller sources are added to the built-in ones, not put in their place: a
   * renamed `hbs` import from a built-in source stays a tag whatever other
   * sources the caller adds.
   */
  lemma BuiltInTagSurvivesMerge(overrides: TagSources.TagSourceMap)
    requires "ember-cli-htmlbars" !in overrides
    ensures TagSources.DeclarationTags(
        ImportDeclaration("ember-cli-htmlbars", [ImportNamedSpecifier("hbs", "h")]),
        TagSources.MergedTagSources(Some(overrides))) == Ok(["h"])
  {
    var sources := TagSources.MergedTagSources(Some(overrides));
    assert "ember-cli-htmlbars" in TagSources.DefaultHbsTagSources;
    assert sources["ember-cli-htmlbars"] == TagSources.Single("hbs");
    var specs := [ImportNamedSpecifier("hbs", "h")];
    assert specs[1..] == [];
    assert TagSources.MatchingLocals(specs, TagSources.Single("hbs")) == ["h"];
  }

  /**
   * The script of the single multi-line template fixture: its seven top-level
   * statements (two imports, the `const template`, the interface, the class,
   * the empty statement after it and the default export), its tagged template
   * and an untagged call.
   */
  predicate MultilineFixture(ast: File, quasi: TemplateLiteral) {
    ast.body == [
      Import(ImportDeclaration("@glimmer/component", [ImportDefaultSpecifier("GlimmerComponent")])),
      Import(ImportDeclaration("ember-cli-htmlbars-inline-precompile", [ImportDefaultSpecifier("hbs")])),
      OtherStatement, OtherStatement, OtherStatement, OtherStatement, OtherStatement] &&
    ast.visits == [
      TaggedTemplateExpression(Identifier("hbs"), quasi),
      CallExpression(OtherExpr, [OtherArgument, OtherArgument])]
  }

  /**
   * Listing the nodes of that script with the built-in sources: the default
   * `hbs` import is the only tag, so the tagged template is the only node and
   * the call through a member expression adds none.
   */
  lemma MultilineFixtureNodes(source: string, options: Options, ast: File, quasi: TemplateLiteral)
    requires options.parse.Some? && options.parse.value(source) == Ok(ast)
    requires options.hbsTagSources.None?
    requires MultilineFixture(ast, quasi)
    ensures GetTemplateNodes(source, options) == Ok([Collector.ElementNode(quasi.first)])
  {
    var node := Collector.ElementNode(quasi.first);
    var tags := ["hbs"];
    assert Collector.Collected(ast.visits, tags) == [node] by {
      var call := CallExpression(OtherExpr, [OtherArgument, OtherArgument]);
      assert Collector.VisitNodes(call, tags) == [];
      assert ast.visits[..1] == [TaggedTemplateExpression(Identifier("hbs"), quasi)];
      Collector.TaggedTemplateNodes(Identifier("hbs"), quasi, tags);
      assert Collector.Collected(ast.visits[..1], tags) == [node];
    }
    var imports := [
      Import(ImportDeclaration("@glimmer/component", [ImportDefaultSpecifier("GlimmerComponent")])),
      Import(ImportDeclaration("ember-cli-htmlbars-inline-precompile", [ImportDefaultSpecifier("hbs")]))];
    assert TagSources.HbsTags(ast.body, TagSources.DefaultHbsTagSources) == Ok(Some(tags)) by {
      TagSources.DefaultImportAmongOthers();
      TagSources.ImportDeclarationsOthers(imports, 5);
      assert ast.body == imports + seq(5, _ => OtherStatement);
    }
    assert GetAst(source, options.parse) == Ok(ast);
    assert TagSources.MergedTagSources(options.hbsTagSources) == TagSources.DefaultHbsTagSources;
    assert Collector.TemplateNodes(ast.visits, tags, options.sortByStartKey) == [node];
  }

  /**
   * The document of that script, whose template starts on line 6 with a
   * newline: five newlines and the trimmed template, with no indentation.
   */
  lemma MultilineFixtureDocument(source: string, options: Options, ast: File, quasi: TemplateLiteral)
    requires options.parse.Some? && options.parse.value(source) == Ok(ast)
    requires options.hbsTagSources.None?
    requires MultilineFixture(ast, quasi)
    requires quasi.first.loc.start.line == 6
    requires Reconstructor.StartsWithNewline(quasi.first.raw)
    ensures SearchAndExtractHbs(source, options) == Ok("\n\n\n\n\n" + Reconstructor.RightTrim(quasi.first.raw))
  {
    var node := Collector.ElementNode(quasi.first);
    MultilineFixtureNodes(source, options, ast, quasi);
    LineSixDocument(node);
  }

  /** One node on line 6 whose text starts with a newline: five newlines, then the trimmed text. */
  lemma LineSixDocument(node: TemplateNode)
    requires node.startLine == 6 && Reconstructor.StartsWithNewline(node.template)
    ensures Reconstructor.HbsSource([node]) == "\n\n\n\n\n" + Reconstructor.RightTrim(node.template)
  {
    Reconstructor.SingleNode(node);
    assert Reconstructor.Repeat('\n', 5) == "\n\n\n\n\n";
  }
}
