/**
 * Tag resolution: which local identifiers of a script are inline-template
 * tags, decided from its top-level import declarations and a map from
 * module source to the export(s) that count as a tag.
 */
module TagSources {
  import opened Syntax

  /**
   * What a tag source maps to: one export name, or a list of export names.
   * The single name "default" stands for the module's default import.
   */
  datatype Wanted = Single(name: string) | Many(names: seq<string>)

  type TagSourceMap = map<string, Wanted>

  /** The built-in tag sources. */
  const DefaultHbsTagSources: TagSourceMap := map[
    "ember-cli-htmlbars" := Single("hbs"),
    "htmlbars-inline-precompile" := Single("default"),
    "ember-cli-htmlbars-inline-precompile" := Single("default"),
    "@glimmerx/component" := Single("hbs"),
    "@glimmer/core" := Many(["createTemplate", "precompileTemplate"])
  ]

  /**
   * The built-in sources: two Ember packages and the Glimmer component
   * package export `hbs`, the two inline-precompile packages export their
   * default, and `@glimmer/core` exports either of two template functions.
   */
  lemma BuiltInTagSources()
    ensures DefaultHbsTagSources.Keys == {
      "ember-cli-htmlbars", "htmlbars-inline-precompile", "ember-cli-htmlbars-inline-precompile",
      "@glimmerx/component", "@glimmer/core"}
    ensures forall k :: k in DefaultHbsTagSources ==>
      (IsDefaultMarker(DefaultHbsTagSources[k]) <==>
        k == "htmlbars-inline-precompile" || k == "ember-cli-htmlbars-inline-precompile")
    ensures DefaultHbsTagSources["ember-cli-htmlbars"] == Single("hbs")
    ensures DefaultHbsTagSources["@glimmerx/component"] == Single("hbs")
    ensures forall name :: Matches(DefaultHbsTagSources["@glimmer/core"], name) <==>
      name == "createTemplate" || name == "precompileTemplate"
  {
  }

  /**
   * The caller's tag sources spread over the built-in ones (when the caller
   * gives any): every key of either map is present, and on a key both maps
   * have the caller's value wins.
   */
  function MergedTagSources(overrides: Option<TagSourceMap>): (m: TagSourceMap)
    ensures overrides.None? ==> m == DefaultHbsTagSources
    ensures overrides.Some? ==> m.Keys == DefaultHbsTagSources.Keys + overrides.value.Keys
    ensures overrides.Some? ==> forall k :: k in overrides.value ==> m[k] == overrides.value[k]
    ensures overrides.Some? ==>
      forall k :: k in DefaultHbsTagSources && k !in overrides.value ==> m[k] == DefaultHbsTagSources[k]
  {
    match overrides
    case None => DefaultHbsTagSources
    case Some(o) => DefaultHbsTagSources + o
  }

  /** The mapping that selects the default import: exactly the string "default", not a list holding it. */
  predicate IsDefaultMarker(w: Wanted) {
    w == Single("default")
  }

  /** Whether an imported export name is one the mapping asks for. */
  predicate Matches(w: Wanted, imported: string) {
    match w
    case Single(name) => imported == name
    case Many(names) => imported in names
  }

  /** The local name of the first default specifier of a declaration, if it has one. */
  function FirstDefaultLocal(specs: seq<ImportSpecifier>): (r: Option<string>)
    ensures r.None? <==> forall i :: 0 <= i < |specs| ==> !specs[i].ImportDefaultSpecifier?
    ensures r.Some? ==>
      exists i :: 0 <= i < |specs| && specs[i] == ImportDefaultSpecifier(r.value) &&
        forall j :: 0 <= j < i ==> !specs[j].ImportDefaultSpecifier?
  {
    if specs == [] then None
    else if specs[0].ImportDefaultSpecifier? then Some(specs[0].local)
    else
      var r := FirstDefaultLocal(specs[1..]);
      assert forall i :: 1 <= i < |specs| ==> specs[i] == specs[1..][i - 1];
      r
  }

  /** Every specifier has an `imported` name (none is a default or namespace specifier). */
  predicate AllNamed(specs: seq<ImportSpecifier>) {
    forall i :: 0 <= i < |specs| ==> specs[i].ImportNamedSpecifier?
  }

  /** Whether specifier `s` is a named specifier importing `n` under an export name the mapping asks for. */
  predicate SelectsLocal(s: ImportSpecifier, w: Wanted, n: string) {
    s.ImportNamedSpecifier? && s.local == n && Matches(w, s.imported)
  }

  /** The local names of the named specifiers the mapping asks for, in specifier order. */
  function MatchingLocals(specs: seq<ImportSpecifier>, w: Wanted): (r: seq<string>)
    requires AllNamed(specs)
    ensures |r| <= |specs|
    ensures forall n :: n in r <==> exists i :: 0 <= i < |specs| && SelectsLocal(specs[i], w, n)
  {
    if specs == [] then []
    else
      var tail := MatchingLocals(specs[1..], w);
      assert forall i :: 1 <= i < |specs| ==> specs[i] == specs[1..][i - 1];
      (if Matches(w, specs[0].imported) then [specs[0].local] else []) + tail
  }

  /**
   * The local names of a single specifier: its own when the mapping asks for
   * its imported name, none otherwise.
   */
  lemma MatchingLocalsSingle(s: ImportSpecifier, w: Wanted)
    requires s.ImportNamedSpecifier?
    ensures MatchingLocals([s], w) == if Matches(w, s.imported) then [s.local] else []
  {
    assert [s][1..] == [];
  }

  /**
   * Filtering keeps specifier order: the names of two stretches of specifiers
   * are the first stretch's names followed by the second's. With
   * MatchingLocalsSingle this fixes the result as the matching specifiers'
   * local names taken in specifier order, duplicates kept.
   */
  lemma {:induction false} MatchingLocalsAppend(a: seq<ImportSpecifier>, b: seq<ImportSpecifier>, w: Wanted)
    requires AllNamed(a) && AllNamed(b)
    ensures AllNamed(a + b)
    ensures MatchingLocals(a + b, w) == MatchingLocals(a, w) + MatchingLocals(b, w)
  {
    if a != [] {
      var ab := a + b;
      assert ab[0] == a[0];
      assert ab[1..] == a[1..] + b;
      assert AllNamed(a[1..]) by {
        forall i | 0 <= i < |a[1..]| ensures a[1..][i].ImportNamedSpecifier? {
          assert a[1..][i] == a[i + 1];
        }
      }
      MatchingLocalsAppend(a[1..], b, w);
      assert AllNamed(ab) by {
        forall i | 0 <= i < |ab| ensures ab[i].ImportNamedSpecifier? {
          if i == 0 {
          } else {
            assert ab[i] == ab[1..][i - 1];
          }
        }
      }
      var h := if Matches(w, a[0].imported) then [a[0].local] else [];
      assert MatchingLocals(ab, w) == h + MatchingLocals(a[1..] + b, w);
      assert MatchingLocals(a, w) == h + MatchingLocals(a[1..], w);
      assert h + (MatchingLocals(a[1..], w) + MatchingLocals(b, w)) ==
        (h + MatchingLocals(a[1..], w)) + MatchingLocals(b, w);
    } else {
      assert a + b == b;
    }
  }

  /**
   * The names one import declaration contributes. A source that is not a key
   * contributes nothing. For the default marker with a default specifier
   * present, that specifier's local name alone. Otherwise every specifier's
   * `imported` name is read, which fails on a default or namespace specifier,
   * and the named specifiers the mapping asks for contribute their local names.
   */
  function DeclarationTags(decl: ImportDeclaration, sources: TagSourceMap): (r: Result<seq<string>>)
    ensures decl.source !in sources ==> r == Ok([])
    ensures (decl.source in sources && IsDefaultMarker(sources[decl.source]) &&
             FirstDefaultLocal(decl.specifiers).Some?) ==>
        r == Ok([FirstDefaultLocal(decl.specifiers).value])
    ensures (decl.source in sources &&
             !(IsDefaultMarker(sources[decl.source]) && FirstDefaultLocal(decl.specifiers).Some?)) ==>
        (r.Ok? <==> AllNamed(decl.specifiers)) &&
        (r.Ok? ==> forall n :: n in r.value <==>
          exists i :: 0 <= i < |decl.specifiers| && SelectsLocal(decl.specifiers[i], sources[decl.source], n)) &&
        (r.Ok? ==> r.value == MatchingLocals(decl.specifiers, sources[decl.source]))
  {
    if decl.source !in sources then Ok([])
    else
      var wanted := sources[decl.source];
      var defaultLocal := FirstDefaultLocal(decl.specifiers);
      if IsDefaultMarker(wanted) && defaultLocal.Some? then Ok([defaultLocal.value])
      else if !AllNamed(decl.specifiers) then Err(MissingImportedName)
      else Ok(MatchingLocals(decl.specifiers, wanted))
  }

  /** The reduce over the import declarations, left to right, appending to `acc`; a failure aborts it. */
  function ReduceTags(decls: seq<ImportDeclaration>, sources: TagSourceMap, acc: seq<string>): (r: Result<seq<string>>)
    ensures decls == [] ==> r == Ok(acc)
    ensures r.Ok? ==> acc <= r.value
    ensures r.Err? ==> r == Err(MissingImportedName)
  {
    if decls == [] then Ok(acc)
    else
      match DeclarationTags(decls[0], sources)
      case Err(e) => Err(e)
      case Ok(names) => ReduceTags(decls[1..], sources, acc + names)
  }

  /** The top-level import declarations of a program body, in order. */
  function ImportDeclarations(body: seq<Statement>): (r: seq<ImportDeclaration>)
    ensures forall d :: d in r <==> Import(d) in body
    ensures r == [] <==> forall i :: 0 <= i < |body| ==> !body[i].Import?
  {
    if body == [] then []
    else
      (if body[0].Import? then [body[0].decl] else []) + ImportDeclarations(body[1..])
  }

  /**
   * Statements other than imports after the imports contribute no declaration,
   * so they change neither the declarations nor the tags.
   */
  lemma {:induction false} ImportDeclarationsOthers(imports: seq<Statement>, n: nat)
    ensures ImportDeclarations(imports + seq(n, _ => OtherStatement)) == ImportDeclarations(imports)
    ensures forall sources :: HbsTags(imports + seq(n, _ => OtherStatement), sources) == HbsTags(imports, sources)
    decreases |imports| + n
  {
    var others := seq(n, _ => OtherStatement);
    var body := imports + others;
    if imports == [] {
      assert body == others;
      if n > 0 {
        assert others[1..] == seq(n - 1, _ => OtherStatement);
        ImportDeclarationsOthers([], n - 1);
        assert [] + others[1..] == others[1..];
      }
    } else {
      assert body[0] == imports[0];
      assert body[1..] == imports[1..] + others;
      ImportDeclarationsOthers(imports[1..], n);
    }
  }

  /**
   * The tag names of a program, or None (the source's `false`) when the body
   * has no import declaration or none contributes a name.
   */
  function HbsTags(body: seq<Statement>, sources: TagSourceMap): (r: Result<Option<seq<string>>>)
    ensures (forall i :: 0 <= i < |body| ==> !body[i].Import?) ==> r == Ok(None)
    ensures r.Ok? && r.value.Some? ==> |r.value.value| > 0
  {
    var imports := ImportDeclarations(body);
    if |imports| == 0 then Ok(None)
    else
      match ReduceTags(imports, sources, [])
      case Err(e) => Err(e)
      case Ok(tags) => if |tags| > 0 then Ok(Some(tags)) else Ok(None)
  }

  /**
   * The reduce fails exactly when some declaration fails, and otherwise holds
   * the accumulator's names and the names some declaration contributes.
   */
  lemma {:induction false} ReduceTagsMembership(decls: seq<ImportDeclaration>, sources: TagSourceMap, acc: seq<string>)
    ensures ReduceTags(decls, sources, acc).Ok? <==>
      forall i :: 0 <= i < |decls| ==> DeclarationTags(decls[i], sources).Ok?
    ensures ReduceTags(decls, sources, acc).Ok? ==>
      forall n :: n in ReduceTags(decls, sources, acc).value <==>
        n in acc || exists i :: 0 <= i < |decls| && n in DeclarationTags(decls[i], sources).value
  {
    if decls != [] {
      assert forall i :: 1 <= i < |decls| ==> decls[i] == decls[1..][i - 1];
      match DeclarationTags(decls[0], sources)
      case Err(e) =>
      case Ok(names) =>
        ReduceTagsMembership(decls[1..], sources, acc + names);
        if ReduceTags(decls, sources, acc).Ok? {
          forall n | n in ReduceTags(decls, sources, acc).value
            ensures n in acc || exists i :: 0 <= i < |decls| && n in DeclarationTags(decls[i], sources).value
          {
            if n !in acc && n !in names {
              var j :| 0 <= j < |decls[1..]| && n in DeclarationTags(decls[1..][j], sources).value;
              assert n in DeclarationTags(decls[j + 1], sources).value;
            }
          }
          forall n | exists i :: 0 <= i < |decls| && n in DeclarationTags(decls[i], sources).value
            ensures n in ReduceTags(decls, sources, acc).value
          {
            var i :| 0 <= i < |decls| && n in DeclarationTags(decls[i], sources).value;
            if i > 0 {
              assert n in DeclarationTags(decls[1..][i - 1], sources).value;
            }
          }
        }
    }
  }

  /** Whether some top-level import declaration whose source is a key contributes `n`. */
  ghost predicate Contributed(body: seq<Statement>, sources: TagSourceMap, n: string) {
    exists d :: Import(d) in body && d.source in sources && DeclarationTags(d, sources).Ok? &&
      n in DeclarationTags(d, sources).value
  }

  /** One name at a time: `n` is a tag exactly when some keyed import declaration contributes it. */
  lemma HbsTagsName(body: seq<Statement>, sources: TagSourceMap, n: string)
    requires HbsTags(body, sources).Ok?
    ensures (HbsTags(body, sources).value.Some? && n in HbsTags(body, sources).value.value) <==>
      Contributed(body, sources, n)
  {
    var imports := ImportDeclarations(body);
    if |imports| != 0 {
      var reduced := ReduceTags(imports, sources, []);
      ReduceTagsMembership(imports, sources, []);
      assert reduced.Ok?;
      if n in reduced.value {
        var i :| 0 <= i < |imports| && n in DeclarationTags(imports[i], sources).value;
        assert imports[i] in imports;
      }
      if Contributed(body, sources, n) {
        var d :| Import(d) in body && d.source in sources && DeclarationTags(d, sources).Ok? &&
          n in DeclarationTags(d, sources).value;
        assert d in imports;
        var i :| 0 <= i < |imports| && imports[i] == d;
        assert n in reduced.value;
      }
    }
  }

  /**
   * A name is a tag exactly when some top-level import declaration whose
   * source is a key of the map contributes it; resolution fails exactly when
   * some declaration's `imported` read fails.
   */
  lemma HbsTagsMembership(body: seq<Statement>, sources: TagSourceMap)
    ensures HbsTags(body, sources).Ok? <==>
      forall d :: Import(d) in body ==> DeclarationTags(d, sources).Ok?
    ensures HbsTags(body, sources).Ok? ==>
      forall n :: (HbsTags(body, sources).value.Some? && n in HbsTags(body, sources).value.value) <==>
        Contributed(body, sources, n)
  {
    var imports := ImportDeclarations(body);
    if |imports| != 0 {
      ReduceTagsMembership(imports, sources, []);
      forall d | Import(d) in body ensures exists i :: 0 <= i < |imports| && imports[i] == d {
        assert d in imports;
      }
      forall i | 0 <= i < |imports| ensures Import(imports[i]) in body {
        assert imports[i] in imports;
      }
    }
    if HbsTags(body, sources).Ok? {
      forall n ensures (HbsTags(body, sources).value.Some? && n in HbsTags(body, sources).value.value) <==>
        Contributed(body, sources, n)
      {
        HbsTagsName(body, sources, n);
      }
    }
  }

  /**
   * A list mapping picks named imports in the order the declaration lists
   * them, not the order of the list; unlisted imports are skipped.
   */
  lemma GlimmerCoreTags()
    ensures DeclarationTags(
        ImportDeclaration("@glimmer/core", [
          ImportNamedSpecifier("setComponentTemplate", "setComponentTemplate"),
          ImportNamedSpecifier("precompileTemplate", "precompileTemplate"),
          ImportNamedSpecifier("createTemplate", "createTemplate")]),
        DefaultHbsTagSources) == Ok(["precompileTemplate", "createTemplate"])
  {
    var specs := [
      ImportNamedSpecifier("setComponentTemplate", "setComponentTemplate"),
      ImportNamedSpecifier("precompileTemplate", "precompileTemplate"),
      ImportNamedSpecifier("createTemplate", "createTemplate")];
    var w := Many(["createTemplate", "precompileTemplate"]);
    assert DefaultHbsTagSources["@glimmer/core"] == w;
    assert specs[1..][1..][1..] == [];
    assert MatchingLocals(specs[1..][1..][1..], w) == [];
    assert MatchingLocals(specs[1..][1..], w) == ["createTemplate"];
    assert MatchingLocals(specs[1..], w) == ["precompileTemplate", "createTemplate"];
    assert MatchingLocals(specs, w) == ["precompileTemplate", "createTemplate"];
  }

  /**
   * With the default marker and no default specifier, a named import whose
   * imported name is literally "default" is picked up.
   */
  lemma NamedDefaultImportIsTag()
    ensures DeclarationTags(
        ImportDeclaration("htmlbars-inline-precompile", [ImportNamedSpecifier("default", "hbs")]),
        DefaultHbsTagSources) == Ok(["hbs"])
  {
    var specs := [ImportNamedSpecifier("default", "hbs")];
    assert DefaultHbsTagSources["htmlbars-inline-precompile"] == Single("default");
    assert specs[1..] == [];
    assert MatchingLocals(specs, Single("default")) == ["hbs"];
  }

  /**
   * A named mapping meets a default specifier in the same declaration: its
   * `imported` name is read though it has none, and resolution fails.
   */
  lemma DefaultSpecifierUnderNamedMappingFails()
    ensures DeclarationTags(
        ImportDeclaration("ember-cli-htmlbars", [ImportDefaultSpecifier("templates"), ImportNamedSpecifier("hbs", "hbs")]),
        DefaultHbsTagSources) == Err(MissingImportedName)
  {
    assert DefaultHbsTagSources["ember-cli-htmlbars"] == Single("hbs");
  }

  /**
   * A default import from a source that is not a key contributes nothing; a
   * default import from a built-in source with the default marker
   * contributes its local name.
   */
  lemma DefaultImportAmongOthers()
    ensures HbsTags([
        Import(ImportDeclaration("@glimmer/component", [ImportDefaultSpecifier("GlimmerComponent")])),
        Import(ImportDeclaration("ember-cli-htmlbars-inline-precompile", [ImportDefaultSpecifier("hbs")]))],
      DefaultHbsTagSources) == Ok(Some(["hbs"]))
  {
    var body := [
      Import(ImportDeclaration("@glimmer/component", [ImportDefaultSpecifier("GlimmerComponent")])),
      Import(ImportDeclaration("ember-cli-htmlbars-inline-precompile", [ImportDefaultSpecifier("hbs")]))];
    var sources := DefaultHbsTagSources;
    var glimmer := ImportDeclaration("@glimmer/component", [ImportDefaultSpecifier("GlimmerComponent")]);
    var precompile := ImportDeclaration("ember-cli-htmlbars-inline-precompile", [ImportDefaultSpecifier("hbs")]);
    assert "@glimmer/component" !in sources;
    assert sources["ember-cli-htmlbars-inline-precompile"] == Single("default");
    assert DeclarationTags(glimmer, sources) == Ok([]);
    assert DeclarationTags(precompile, sources) == Ok(["hbs"]);
    assert body[1..][1..] == [];
    assert ImportDeclarations(body) == [glimmer, precompile];
    var decls := [glimmer, precompile];
    assert decls[1..] == [precompile];
    assert [precompile][1..] == [];
    assert [precompile][0] == precompile;
    var noNames: seq<string> := [];
    assert noNames + ["hbs"] == ["hbs"];
    assert ReduceTags([precompile], sources, noNames) == ReduceTags([], sources, ["hbs"]);
    assert ReduceTags(decls, sources, noNames) == ReduceTags([precompile], sources, noNames);
    assert ReduceTags(decls, sources, []) == Ok(["hbs"]);
    assert HbsTags(body, sources) == Ok(Some(["hbs"]));
  }
}
