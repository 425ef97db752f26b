/** The interface of the Slice compiler library as the server uses it. Nothing
    here is computed by the server: the compiler itself is a pair of function
    values, and a compiled file is represented by the sequence of `visit_*`
    calls its `visit_with` makes, in pre-order. */
module Slicec {
  import opened Common

  /** A 1-based source position. */
  datatype Location = Location(row: nat, col: nat)

  datatype Span = Span(start: Location, end: Location, file: Str)

  predicate LocationLe(a: Location, b: Location) {
    a.row < b.row || (a.row == b.row && a.col <= b.col)
  }

  /** `Location::is_within`: inclusive lexicographic containment. */
  predicate IsWithin(loc: Location, span: Span) {
    LocationLe(span.start, loc) && LocationLe(loc, span.end)
  }

  datatype DiagnosticLevel = Error | Warning | Allowed

  datatype Diagnostic = Diagnostic(level: DiagnosticLevel, message: Str, span: Option<Span>)

  /** An opaque handle on the compiler's syntax tree; the server never looks inside. */
  datatype Ast = Ast(handle: nat)

  /** `Ast::create()`. */
  function EmptyAst(): Ast { Ast(0) }

  /** `linked_entity()` / `thrown_type()`: `Ok` carries the identifier span of the
      entity the link resolved to; `Err` carries the unresolved identifier. */
  datatype LinkTarget = Resolved(identifierSpan: Span) | Unresolved(identifier: Str)

  datatype MessageComponent = Text(text: Str) | Link(target: LinkTarget, span: Span)

  type Message = seq<MessageComponent>

  datatype SeeTag = SeeTag(linkedEntity: LinkTarget, span: Span)

  datatype ThrowsTag = ThrowsTag(message: Message, thrownType: LinkTarget, span: Span)

  /** A doc comment: overview, `@returns`, `@param`, `@see` and `@throws` tags. */
  datatype DocComment = DocComment(
    overview: Option<Message>,
    returnTags: seq<Message>,
    paramTags: seq<Message>,
    seeTags: seq<SeeTag>,
    throwsTags: seq<ThrowsTag>)

  /** A patched reference to a class, exception or interface: its own span and the
      identifier span of the definition it names. */
  datatype BaseRef = BaseRef(span: Span, definitionIdentifierSpan: Span)

  /** `concrete_type()` of a patched type reference (aliases already unwrapped). */
  datatype ConcreteType =
    | StructType(identifierSpan: Span)
    | ClassType(identifierSpan: Span)
    | InterfaceType(identifierSpan: Span)
    | EnumType(identifierSpan: Span)
    | CustomType(identifierSpan: Span)
    | Primitive
    | SequenceType
    | DictionaryType
    | ResultType

  datatype TypeRefDefinition = Patched(concreteType: ConcreteType) | Unpatched

  datatype TypeRef = TypeRef(span: Span, definition: TypeRefDefinition)

  /** One call the compiler's `visit_with` makes on a visitor, with the parts of
      the visited element that the server reads. */
  datatype VisitEvent =
    | FileEvent
    | ModuleEvent
    | StructEvent(comment: Option<DocComment>)
    | ClassEvent(comment: Option<DocComment>, base: Option<BaseRef>)
    | ExceptionEvent(comment: Option<DocComment>, base: Option<BaseRef>)
    | InterfaceEvent(comment: Option<DocComment>, bases: seq<BaseRef>)
    | EnumEvent(comment: Option<DocComment>)
    | OperationEvent(comment: Option<DocComment>, exceptionSpecification: seq<BaseRef>)
    | CustomTypeEvent(comment: Option<DocComment>)
    | TypeAliasEvent(comment: Option<DocComment>)
    | FieldEvent(comment: Option<DocComment>)
    | ParameterEvent
    | EnumeratorEvent(comment: Option<DocComment>)
    | TypeRefEvent(typeRef: TypeRef)

  datatype SliceFile = SliceFile(relativePath: Str, events: seq<VisitEvent>)

  /** `SliceOptions`; the server only fills in the reference list. */
  datatype SliceOptions = SliceOptions(references: seq<Str>)

  datatype CompilationState = CompilationState(ast: Ast, diagnostics: seq<Diagnostic>, files: map<Str, SliceFile>)

  /** The compiler: `compile_from_options`, and `Diagnostics::into_updated`, which
      drops allowed lints and remaps levels from the options. */
  datatype Compiler = Compiler(
    compileFromOptions: SliceOptions -> CompilationState,
    intoUpdated: (seq<Diagnostic>, Ast, map<Str, SliceFile>, SliceOptions) -> seq<Diagnostic>)
}
