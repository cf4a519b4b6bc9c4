/**
 * The parts of a parsed script file that the inline-template extractor reads,
 * the payload record it builds for every inline template it finds, and the
 * ways an extraction can fail.
 */
module Syntax {

  datatype Option<T> = None | Some(value: T)

  /** Why an extraction fails. */
  datatype Error =
    | ParseRequired                 // `options.parse` is not a function
    | SyntaxError(message: string)  // raised by the caller's parser, passed through unchanged
    | MissingImportedName           // `specifier.imported.name` read on a default or namespace specifier

  datatype Result<T> = Ok(value: T) | Err(error: Error)

  /** A parser position: 1-based line, 0-based column. */
  datatype Position = Position(line: nat, column: nat)

  datatype SourceLocation = SourceLocation(start: Position, end: Position)

  /** One chunk (quasi) of a template literal: its raw text, location and offset. */
  datatype TemplateElement = TemplateElement(raw: string, loc: SourceLocation, start: nat)

  /** A template literal; the parser always produces at least one chunk. */
  datatype TemplateLiteral = TemplateLiteral(first: TemplateElement, rest: seq<TemplateElement>)

  /** A tag or callee expression: a plain identifier, or anything else (e.g. `obj.hbs`). */
  datatype Expr = Identifier(name: string) | OtherExpr

  /** An argument of a call expression. */
  datatype Argument =
    | StringLiteral(value: string, loc: SourceLocation, start: nat)
    | TemplateLiteralArg(quasi: TemplateLiteral)
    | OtherArgument

  /** The two node kinds the traversal visits, in the order the traversal visits them. */
  datatype Visited =
    | TaggedTemplateExpression(tag: Expr, quasi: TemplateLiteral)
    | CallExpression(callee: Expr, arguments: seq<Argument>)

  datatype ImportSpecifier =
    | ImportDefaultSpecifier(local: string)
    | ImportNamedSpecifier(imported: string, local: string)
    | ImportNamespaceSpecifier(local: string)

  datatype ImportDeclaration = ImportDeclaration(source: string, specifiers: seq<ImportSpecifier>)

  /** A top-level statement of the program body. */
  datatype Statement = Import(decl: ImportDeclaration) | OtherStatement

  /**
   * A parsed file: the top-level program body, and the tagged-template and
   * call expressions of the whole tree in the traversal's visiting order.
   */
  datatype File = File(body: seq<Statement>, visits: seq<Visited>)

  /** One extracted inline template with its position in the script. */
  datatype TemplateNode = TemplateNode(
    template: string,
    startLine: nat,
    startColumn: nat,
    endLine: nat,
    endColumn: nat,
    start: nat)
}
