/** Go-to-definition: `JumpVisitor` watches the compiler's pre-order walk over one
    file and records in `foundSpan` the identifier span of whatever the search
    location points at. Every check overwrites the field when it matches and
    nothing stops the walk, so the answer is the LAST assignment made, not the
    first match.

    The visitor's methods are proved against `...Step` functions (a fold over the
    walk); `...Hits` functions list, independently, the assignments each check
    makes, and `RunIsLastHit` connects the two. */
module JumpDefinition {
  import opened Common
  import opened Slicec

  type Found = Option<Span>

  const U32Modulus: nat := 0x1_0000_0000

  type U32 = x: nat | x < 0x1_0000_0000

  /** An LSP position: 0-based line and character. */
  datatype Position = Position(line: U32, character: U32)

  /** The 1-based location of an LSP position. The `+ 1` is computed in `u32`;
      the model takes the wrap-around of a release build. */
  function ToLocation(position: Position): (loc: Location)
    ensures position.line < U32Modulus - 1 ==> loc.row == position.line + 1
    ensures position.character < U32Modulus - 1 ==> loc.col == position.character + 1
    ensures position.line == U32Modulus - 1 ==> loc.row == 0
    ensures position.character == U32Modulus - 1 ==> loc.col == 0
  {
    Location((position.line + 1) % U32Modulus, (position.character + 1) % U32Modulus)
  }

  // ---------------------------------------------------------------------------
  // Generic folds and concatenations

  function Fold<T>(found: Found, items: seq<T>, step: (Found, T) -> Found): Found {
    if items == [] then found
    else step(Fold(found, items[..|items| - 1], step), items[|items| - 1])
  }

  function Concat<T, U>(items: seq<T>, part: T -> seq<U>): seq<U> {
    if items == [] then [] else Concat(items[..|items| - 1], part) + part(items[|items| - 1])
  }

  /** The value left by a list of assignments made after `found`. */
  function LastOr(found: Found, hits: seq<Found>): Found {
    if hits == [] then found else hits[|hits| - 1]
  }

  lemma LastOrAppend(found: Found, a: seq<Found>, b: seq<Found>)
    ensures LastOr(LastOr(found, a), b) == LastOr(found, a + b)
  {
  }

  lemma {:induction false} ConcatAppend<T, U>(a: seq<T>, b: seq<T>, part: T -> seq<U>)
    ensures Concat(a + b, part) == Concat(a, part) + Concat(b, part)
  {
    if b == [] {
      assert a + b == a;
    } else {
      assert (a + b)[..|a + b| - 1] == a + b[..|b| - 1];
      ConcatAppend(a, b[..|b| - 1], part);
    }
  }

  /** Something in a concatenation comes from one of its parts, and every part is in it. */
  lemma {:induction false} FoldIsLastHit<T>(found: Found, items: seq<T>, step: (Found, T) -> Found, hits: T -> seq<Found>)
    requires forall f: Found, x: T :: step(f, x) == LastOr(f, hits(x))
    ensures Fold(found, items, step) == LastOr(found, Concat(items, hits))
  {
    if items != [] {
      var init := items[..|items| - 1];
      FoldIsLastHit(found, init, step, hits);
      LastOrAppend(found, Concat(init, hits), hits(items[|items| - 1]));
    }
  }

  // ---------------------------------------------------------------------------
  // The checks, as steps of the fold

  /** `check_and_set_span`: only a resolved link whose span holds the location
      sets the result, to the linked entity's identifier span. */
  function LinkStep(loc: Location, found: Found, target: LinkTarget, span: Span): Found {
    if target.Resolved? && IsWithin(loc, span) then Some(target.identifierSpan) else found
  }

  function ComponentStep(loc: Location, found: Found, component: MessageComponent): Found {
    match component
    case Text(_) => found
    case Link(target, span) => LinkStep(loc, found, target, span)
  }

  function ComponentStepFn(loc: Location): (Found, MessageComponent) -> Found {
    (found, component) => ComponentStep(loc, found, component)
  }

  /** `check_message_links`. */
  function MessageStep(loc: Location, found: Found, message: Message): Found {
    Fold(found, message, ComponentStepFn(loc))
  }

  function MessageStepFn(loc: Location): (Found, Message) -> Found {
    (found, message) => MessageStep(loc, found, message)
  }

  function SeeStepFn(loc: Location): (Found, SeeTag) -> Found {
    (found, see: SeeTag) => LinkStep(loc, found, see.linkedEntity, see.span)
  }

  /** A `@throws` tag: its message's links, then the thrown type itself. */
  function ThrowsStep(loc: Location, found: Found, throws: ThrowsTag): Found {
    LinkStep(loc, MessageStep(loc, found, throws.message), throws.thrownType, throws.span)
  }

  function ThrowsStepFn(loc: Location): (Found, ThrowsTag) -> Found {
    (found, throws) => ThrowsStep(loc, found, throws)
  }

  /** `check_comment`: overview, returns, params, see and throws, in that order. */
  function CommentStep(loc: Location, found: Found, comment: Option<DocComment>): Found {
    match comment
    case None => found
    case Some(c) =>
      var afterOverview := if c.overview.Some? then MessageStep(loc, found, c.overview.value) else found;
      var afterReturns := Fold(afterOverview, c.returnTags, MessageStepFn(loc));
      var afterParams := Fold(afterReturns, c.paramTags, MessageStepFn(loc));
      var afterSee := Fold(afterParams, c.seeTags, SeeStepFn(loc));
      Fold(afterSee, c.throwsTags, ThrowsStepFn(loc))
  }

  /** The single base of a class or exception. */
  function BaseStep(loc: Location, found: Found, base: Option<BaseRef>): Found {
    if base.Some? && IsWithin(loc, base.value.span) then Some(base.value.definitionIdentifierSpan) else found
  }

  /** The first reference in `refs` whose span holds the location. */
  function FirstContaining(loc: Location, refs: seq<BaseRef>): (r: Option<nat>)
    ensures r.Some? ==> r.value < |refs| && IsWithin(loc, refs[r.value].span)
    ensures r.Some? ==> forall j | 0 <= j < r.value :: !IsWithin(loc, refs[j].span)
    ensures r.None? ==> forall j | 0 <= j < |refs| :: !IsWithin(loc, refs[j].span)
  {
    if refs == [] then None
    else if IsWithin(loc, refs[0].span) then Some(0)
    else match FirstContaining(loc, refs[1..])
      case None => None
      case Some(i) => Some(i + 1)
  }

  /** The base list of an interface or the exception specification of an
      operation: the loop returns at the first containing reference. */
  function BasesStep(loc: Location, found: Found, refs: seq<BaseRef>): Found {
    match FirstContaining(loc, refs)
    case None => found
    case Some(i) => Some(refs[i].definitionIdentifierSpan)
  }

  /** The identifier span of a named type; `None` for every other type. */
  function NamedTypeIdentifier(t: ConcreteType): Found {
    match t
    case StructType(s) => Some(s)
    case ClassType(s) => Some(s)
    case InterfaceType(s) => Some(s)
    case EnumType(s) => Some(s)
    case CustomType(s) => Some(s)
    case _ => None
  }

  /** `visit_type_ref`: outside its span, or unpatched, nothing changes; a
      patched reference sets the result to the named type's identifier or to
      `None`. */
  function TypeRefStep(loc: Location, found: Found, typeRef: TypeRef): Found {
    if !IsWithin(loc, typeRef.span) then found
    else match typeRef.definition
      case Unpatched => found
      case Patched(t) => NamedTypeIdentifier(t)
  }

  /** One `visit_*` call. */
  function EventStep(loc: Location, found: Found, event: VisitEvent): Found {
    match event
    case FileEvent => found
    case ModuleEvent => found
    case ParameterEvent => found
    case StructEvent(comment) => CommentStep(loc, found, comment)
    case EnumEvent(comment) => CommentStep(loc, found, comment)
    case CustomTypeEvent(comment) => CommentStep(loc, found, comment)
    case TypeAliasEvent(comment) => CommentStep(loc, found, comment)
    case FieldEvent(comment) => CommentStep(loc, found, comment)
    case EnumeratorEvent(comment) => CommentStep(loc, found, comment)
    case ClassEvent(comment, base) => BaseStep(loc, CommentStep(loc, found, comment), base)
    case ExceptionEvent(comment, base) => BaseStep(loc, CommentStep(loc, found, comment), base)
    case InterfaceEvent(comment, bases) => BasesStep(loc, CommentStep(loc, found, comment), bases)
    case OperationEvent(comment, refs) => BasesStep(loc, CommentStep(loc, found, comment), refs)
    case TypeRefEvent(typeRef) => TypeRefStep(loc, found, typeRef)
  }

  function EventStepFn(loc: Location): (Found, VisitEvent) -> Found {
    (found, event) => EventStep(loc, found, event)
  }

  /** The whole walk. */
  function Run(loc: Location, found: Found, events: seq<VisitEvent>): Found {
    Fold(found, events, EventStepFn(loc))
  }

  /** What go-to-definition answers for a file: a fresh visitor run over its walk. */
  function DefinitionSpan(file: SliceFile, position: Position): Found {
    Run(ToLocation(position), None, file.events)
  }

  // ---------------------------------------------------------------------------
  // The same checks, as the list of assignments each makes to `found_span`

  function LinkHits(loc: Location, target: LinkTarget, span: Span): seq<Found> {
    if target.Resolved? && IsWithin(loc, span) then [Some(target.identifierSpan)] else []
  }

  function ComponentHitsFn(loc: Location): MessageComponent -> seq<Found> {
    (component: MessageComponent) => if component.Link? then LinkHits(loc, component.target, component.span) else []
  }

  function MessageHits(loc: Location, message: Message): seq<Found> {
    Concat(message, ComponentHitsFn(loc))
  }

  function MessageHitsFn(loc: Location): Message -> seq<Found> {
    (message: Message) => MessageHits(loc, message)
  }

  function SeeHitsFn(loc: Location): SeeTag -> seq<Found> {
    (see: SeeTag) => LinkHits(loc, see.linkedEntity, see.span)
  }

  function ThrowsHitsFn(loc: Location): ThrowsTag -> seq<Found> {
    (throws: ThrowsTag) => MessageHits(loc, throws.message) + LinkHits(loc, throws.thrownType, throws.span)
  }

  function CommentHits(loc: Location, comment: Option<DocComment>): seq<Found> {
    match comment
    case None => []
    case Some(c) =>
      (if c.overview.Some? then MessageHits(loc, c.overview.value) else [])
      + Concat(c.returnTags, MessageHitsFn(loc))
      + Concat(c.paramTags, MessageHitsFn(loc))
      + Concat(c.seeTags, SeeHitsFn(loc))
      + Concat(c.throwsTags, ThrowsHitsFn(loc))
  }

  function BaseHits(loc: Location, base: Option<BaseRef>): seq<Found> {
    if base.Some? && IsWithin(loc, base.value.span) then [Some(base.value.definitionIdentifierSpan)] else []
  }

  function BasesHits(loc: Location, refs: seq<BaseRef>): seq<Found> {
    match FirstContaining(loc, refs)
    case None => []
    case Some(i) => [Some(refs[i].definitionIdentifierSpan)]
  }

  function TypeRefHits(loc: Location, typeRef: TypeRef): seq<Found> {
    if IsWithin(loc, typeRef.span) && typeRef.definition.Patched? then
      [NamedTypeIdentifier(typeRef.definition.concreteType)]
    else []
  }

  function EventHits(loc: Location, event: VisitEvent): seq<Found> {
    match event
    case FileEvent => []
    case ModuleEvent => []
    case ParameterEvent => []
    case TypeRefEvent(typeRef) => TypeRefHits(loc, typeRef)
    case ClassEvent(comment, base) => CommentHits(loc, comment) + BaseHits(loc, base)
    case ExceptionEvent(comment, base) => CommentHits(loc, comment) + BaseHits(loc, base)
    case InterfaceEvent(comment, bases) => CommentHits(loc, comment) + BasesHits(loc, bases)
    case OperationEvent(comment, refs) => CommentHits(loc, comment) + BasesHits(loc, refs)
    case _ => CommentHits(loc, event.comment)
  }

  function EventHitsFn(loc: Location): VisitEvent -> seq<Found> {
    (event: VisitEvent) => EventHits(loc, event)
  }

  /** Every assignment the walk makes, in order. */
  function AllHits(loc: Location, events: seq<VisitEvent>): seq<Found> {
    Concat(events, EventHitsFn(loc))
  }

  // ---------------------------------------------------------------------------
  // The fold leaves the last assignment

  lemma MessageStepIsLastHit(loc: Location, found: Found, message: Message)
    ensures MessageStep(loc, found, message) == LastOr(found, MessageHits(loc, message))
  {
    forall f: Found, c: MessageComponent
      ensures ComponentStepFn(loc)(f, c) == LastOr(f, ComponentHitsFn(loc)(c))
    {
    }
    FoldIsLastHit(found, message, ComponentStepFn(loc), ComponentHitsFn(loc));
  }

  lemma CommentStepIsLastHit(loc: Location, found: Found, comment: Option<DocComment>)
    ensures CommentStep(loc, found, comment) == LastOr(found, CommentHits(loc, comment))
  {
    if comment.Some? {
      var c := comment.value;
      forall f: Found, m: Message ensures MessageStepFn(loc)(f, m) == LastOr(f, MessageHitsFn(loc)(m)) {
        MessageStepIsLastHit(loc, f, m);
      }
      forall f: Found, t: SeeTag ensures SeeStepFn(loc)(f, t) == LastOr(f, SeeHitsFn(loc)(t)) {
      }
      forall f: Found, t: ThrowsTag ensures ThrowsStepFn(loc)(f, t) == LastOr(f, ThrowsHitsFn(loc)(t)) {
        MessageStepIsLastHit(loc, f, t.message);
        LastOrAppend(f, MessageHits(loc, t.message), LinkHits(loc, t.thrownType, t.span));
      }
      var overview := if c.overview.Some? then MessageHits(loc, c.overview.value) else [];
      if c.overview.Some? {
        MessageStepIsLastHit(loc, found, c.overview.value);
      }
      var afterOverview := LastOr(found, overview);
      var returnHits := Concat(c.returnTags, MessageHitsFn(loc));
      FoldIsLastHit(afterOverview, c.returnTags, MessageStepFn(loc), MessageHitsFn(loc));
      var afterReturns := LastOr(afterOverview, returnHits);
      var params := Concat(c.paramTags, MessageHitsFn(loc));
      FoldIsLastHit(afterReturns, c.paramTags, MessageStepFn(loc), MessageHitsFn(loc));
      var afterParams := LastOr(afterReturns, params);
      var see := Concat(c.seeTags, SeeHitsFn(loc));
      FoldIsLastHit(afterParams, c.seeTags, SeeStepFn(loc), SeeHitsFn(loc));
      var afterSee := LastOr(afterParams, see);
      var throws := Concat(c.throwsTags, ThrowsHitsFn(loc));
      FoldIsLastHit(afterSee, c.throwsTags, ThrowsStepFn(loc), ThrowsHitsFn(loc));
      LastOrAppend(found, overview, returnHits);
      LastOrAppend(found, overview + returnHits, params);
      LastOrAppend(found, overview + returnHits + params, see);
      LastOrAppend(found, overview + returnHits + params + see, throws);
    }
  }

  /** A class or exception: its comment, then its single base. */
  lemma CommentThenBaseIsLastHit(loc: Location, found: Found, comment: Option<DocComment>, base: Option<BaseRef>)
    ensures BaseStep(loc, CommentStep(loc, found, comment), base)
      == LastOr(found, CommentHits(loc, comment) + BaseHits(loc, base))
  {
    CommentStepIsLastHit(loc, found, comment);
    LastOrAppend(found, CommentHits(loc, comment), BaseHits(loc, base));
  }

  /** An interface or operation: its comment, then its list of references. */
  lemma CommentThenBasesIsLastHit(loc: Location, found: Found, comment: Option<DocComment>, refs: seq<BaseRef>)
    ensures BasesStep(loc, CommentStep(loc, found, comment), refs)
      == LastOr(found, CommentHits(loc, comment) + BasesHits(loc, refs))
  {
    CommentStepIsLastHit(loc, found, comment);
    LastOrAppend(found, CommentHits(loc, comment), BasesHits(loc, refs));
  }

  lemma EventStepIsLastHit(loc: Location, found: Found, event: VisitEvent)
    ensures EventStep(loc, found, event) == LastOr(found, EventHits(loc, event))
  {
    match event
    case FileEvent =>
    case ModuleEvent =>
    case ParameterEvent =>
    case TypeRefEvent(_) =>
    case ClassEvent(comment, base) => CommentThenBaseIsLastHit(loc, found, comment, base);
    case ExceptionEvent(comment, base) => CommentThenBaseIsLastHit(loc, found, comment, base);
    case InterfaceEvent(comment, bases) => CommentThenBasesIsLastHit(loc, found, comment, bases);
    case OperationEvent(comment, refs) => CommentThenBasesIsLastHit(loc, found, comment, refs);
    case _ => CommentStepIsLastHit(loc, found, event.comment);
  }

  /** The walk is never cut short: its result is the last assignment any check
      makes, or the starting value when none makes one. */
  lemma RunIsLastHit(loc: Location, found: Found, events: seq<VisitEvent>)
    ensures Run(loc, found, events) == LastOr(found, AllHits(loc, events))
  {
    forall f: Found, e: VisitEvent ensures EventStepFn(loc)(f, e) == LastOr(f, EventHitsFn(loc)(e)) {
      EventStepIsLastHit(loc, f, e);
    }
    FoldIsLastHit(found, events, EventStepFn(loc), EventHitsFn(loc));
  }

  /** When nothing after `event` assigns, the assignments end with its own. */
  lemma HitsEndWithEvent(loc: Location, before: seq<VisitEvent>, event: VisitEvent, after: seq<VisitEvent>)
    requires AllHits(loc, after) == []
    ensures AllHits(loc, before + [event] + after) == AllHits(loc, before) + EventHits(loc, event)
  {
    ConcatAppend(before + [event], after, EventHitsFn(loc));
    ConcatAppend(before, [event], EventHitsFn(loc));
    assert Concat([event], EventHitsFn(loc)) == EventHits(loc, event) by {
      assert [event][..0] == [];
    }
  }

  /** A later containing check overrides every earlier one: the answer comes from
      the last event that assigns, whatever came before it. */
  lemma LastAssigningEventDecides(loc: Location, found: Found, before: seq<VisitEvent>, event: VisitEvent, after: seq<VisitEvent>)
    requires EventHits(loc, event) != [] && AllHits(loc, after) == []
    ensures Run(loc, found, before + [event] + after) == EventHits(loc, event)[|EventHits(loc, event)| - 1]
  {
    RunIsLastHit(loc, found, before + [event] + after);
    HitsEndWithEvent(loc, before, event, after);
  }

  // ---------------------------------------------------------------------------
  // The spans the walk checks the location against

  function ComponentSpansFn(): MessageComponent -> seq<Span> {
    (component: MessageComponent) => if component.Link? then [component.span] else []
  }

  function MessageSpans(message: Message): seq<Span> {
    Concat(message, ComponentSpansFn())
  }

  function MessageSpansFn(): Message -> seq<Span> {
    (message: Message) => MessageSpans(message)
  }

  function SeeSpansFn(): SeeTag -> seq<Span> {
    (see: SeeTag) => [see.span]
  }

  function ThrowsSpansFn(): ThrowsTag -> seq<Span> {
    (throws: ThrowsTag) => MessageSpans(throws.message) + [throws.span]
  }

  function CommentSpans(comment: Option<DocComment>): seq<Span> {
    match comment
    case None => []
    case Some(c) =>
      (if c.overview.Some? then MessageSpans(c.overview.value) else [])
      + Concat(c.returnTags, MessageSpansFn())
      + Concat(c.paramTags, MessageSpansFn())
      + Concat(c.seeTags, SeeSpansFn())
      + Concat(c.throwsTags, ThrowsSpansFn())
  }

  function BaseSpans(refs: seq<BaseRef>): seq<Span> {
    seq(|refs|, i requires 0 <= i < |refs| => refs[i].span)
  }

  /** Every span an event's checks compare the location with. */
  function EventSpans(event: VisitEvent): seq<Span> {
    match event
    case FileEvent => []
    case ModuleEvent => []
    case ParameterEvent => []
    case TypeRefEvent(typeRef) => [typeRef.span]
    case ClassEvent(comment, base) => CommentSpans(comment) + (if base.Some? then [base.value.span] else [])
    case ExceptionEvent(comment, base) => CommentSpans(comment) + (if base.Some? then [base.value.span] else [])
    case InterfaceEvent(comment, bases) => CommentSpans(comment) + BaseSpans(bases)
    case OperationEvent(comment, refs) => CommentSpans(comment) + BaseSpans(refs)
    case _ => CommentSpans(event.comment)
  }

  predicate Covers(loc: Location, spans: seq<Span>) {
    exists i | 0 <= i < |spans| :: IsWithin(loc, spans[i])
  }

  lemma CoversAppend(loc: Location, a: seq<Span>, b: seq<Span>)
    ensures Covers(loc, a + b) <==> Covers(loc, a) || Covers(loc, b)
  {
    if Covers(loc, a + b) {
      var i :| 0 <= i < |a + b| && IsWithin(loc, (a + b)[i]);
      if i >= |a| {
        assert b[i - |a|] == (a + b)[i];
      }
    }
    if Covers(loc, a) {
      var i :| 0 <= i < |a| && IsWithin(loc, a[i]);
      assert (a + b)[i] == a[i];
    }
    if Covers(loc, b) {
      var i :| 0 <= i < |b| && IsWithin(loc, b[i]);
      assert (a + b)[|a| + i] == b[i];
    }
  }

  /** An assignment somewhere in a concatenation comes from a covering span. */
  lemma {:induction false} ConcatCovers<T>(loc: Location, items: seq<T>, hits: T -> seq<Found>, spans: T -> seq<Span>)
    requires forall x: T :: hits(x) != [] ==> Covers(loc, spans(x))
    ensures Concat(items, hits) != [] ==> Covers(loc, Concat(items, spans))
  {
    if items != [] {
      var init, last := items[..|items| - 1], items[|items| - 1];
      ConcatCovers(loc, init, hits, spans);
      CoversAppend(loc, Concat(init, spans), spans(last));
    }
  }

  lemma MessageHitsCovered(loc: Location, message: Message)
    ensures MessageHits(loc, message) != [] ==> Covers(loc, MessageSpans(message))
  {
    forall c: MessageComponent | ComponentHitsFn(loc)(c) != [] ensures Covers(loc, ComponentSpansFn()(c)) {
      assert IsWithin(loc, ComponentSpansFn()(c)[0]);
    }
    ConcatCovers(loc, message, ComponentHitsFn(loc), ComponentSpansFn());
  }

  lemma CommentHitsCovered(loc: Location, comment: Option<DocComment>)
    ensures CommentHits(loc, comment) != [] ==> Covers(loc, CommentSpans(comment))
  {
    if comment.Some? {
      var c := comment.value;
      forall m: Message | MessageHitsFn(loc)(m) != [] ensures Covers(loc, MessageSpansFn()(m)) {
        MessageHitsCovered(loc, m);
      }
      forall t: SeeTag | SeeHitsFn(loc)(t) != [] ensures Covers(loc, SeeSpansFn()(t)) {
        assert IsWithin(loc, SeeSpansFn()(t)[0]);
      }
      forall t: ThrowsTag | ThrowsHitsFn(loc)(t) != [] ensures Covers(loc, ThrowsSpansFn()(t)) {
        MessageHitsCovered(loc, t.message);
        CoversAppend(loc, MessageSpans(t.message), [t.span]);
        if IsWithin(loc, t.span) {
          assert [t.span][0] == t.span;
        }
      }
      var overviewSpans := if c.overview.Some? then MessageSpans(c.overview.value) else [];
      if c.overview.Some? {
        MessageHitsCovered(loc, c.overview.value);
      }
      var returnSpans := Concat(c.returnTags, MessageSpansFn());
      var paramSpans := Concat(c.paramTags, MessageSpansFn());
      var seeSpans := Concat(c.seeTags, SeeSpansFn());
      var throwsSpans := Concat(c.throwsTags, ThrowsSpansFn());
      ConcatCovers(loc, c.returnTags, MessageHitsFn(loc), MessageSpansFn());
      ConcatCovers(loc, c.paramTags, MessageHitsFn(loc), MessageSpansFn());
      ConcatCovers(loc, c.seeTags, SeeHitsFn(loc), SeeSpansFn());
      ConcatCovers(loc, c.throwsTags, ThrowsHitsFn(loc), ThrowsSpansFn());
      CoversAppend(loc, overviewSpans, returnSpans);
      CoversAppend(loc, overviewSpans + returnSpans, paramSpans);
      CoversAppend(loc, overviewSpans + returnSpans + paramSpans, seeSpans);
      CoversAppend(loc, overviewSpans + returnSpans + paramSpans + seeSpans, throwsSpans);
    }
  }

  /** An event assigns only when one of the spans it checks holds the location. */
  lemma EventHitsCovered(loc: Location, event: VisitEvent)
    ensures EventHits(loc, event) != [] ==> Covers(loc, EventSpans(event))
  {
    if event.TypeRefEvent? {
      assert [event.typeRef.span][0] == event.typeRef.span;
    } else if event.ClassEvent? || event.ExceptionEvent? {
      CommentHitsCovered(loc, event.comment);
      CoversAppend(loc, CommentSpans(event.comment), if event.base.Some? then [event.base.value.span] else []);
      if event.base.Some? && IsWithin(loc, event.base.value.span) {
        assert ([event.base.value.span])[0] == event.base.value.span;
      }
    } else if event.InterfaceEvent? || event.OperationEvent? {
      var refs := if event.InterfaceEvent? then event.bases else event.exceptionSpecification;
      CommentHitsCovered(loc, event.comment);
      CoversAppend(loc, CommentSpans(event.comment), BaseSpans(refs));
      var first := FirstContaining(loc, refs);
      if first.Some? {
        assert BaseSpans(refs)[first.value] == refs[first.value].span;
      }
    } else if !(event.FileEvent? || event.ModuleEvent? || event.ParameterEvent?) {
      CommentHitsCovered(loc, event.comment);
    }
  }

  lemma {:induction false} ConcatOfEmptyParts<T, U>(items: seq<T>, part: T -> seq<U>)
    requires forall i | 0 <= i < |items| :: part(items[i]) == []
    ensures Concat(items, part) == []
  {
    if items != [] {
      ConcatOfEmptyParts(items[..|items| - 1], part);
    }
  }

  /** When no span the walk checks holds the cursor, there is nothing to jump to. */
  lemma NoCheckedSpanGivesNone(file: SliceFile, position: Position)
    requires forall i | 0 <= i < |file.events| :: !Covers(ToLocation(position), EventSpans(file.events[i]))
    ensures DefinitionSpan(file, position) == None
  {
    var loc := ToLocation(position);
    forall i | 0 <= i < |file.events| ensures EventHitsFn(loc)(file.events[i]) == [] {
      EventHitsCovered(loc, file.events[i]);
    }
    ConcatOfEmptyParts(file.events, EventHitsFn(loc));
    RunIsLastHit(loc, None, file.events);
  }

  /** A containing reference to an unnamed type (here a primitive) wipes out
      whatever an earlier check found: the answer is `None`. */
  lemma UnnamedTypeRefResets(loc: Location, found: Found, before: seq<VisitEvent>, span: Span)
    requires IsWithin(loc, span)
    ensures Run(loc, found, before + [TypeRefEvent(TypeRef(span, Patched(Primitive)))]) == None
  {
    var events := before + [TypeRefEvent(TypeRef(span, Patched(Primitive)))];
    assert events[..|events| - 1] == before;
  }

  // ---------------------------------------------------------------------------
  // The visitor

  class JumpVisitor {
    const searchLocation: Location
    var foundSpan: Found

    constructor (searchLocation: Location)
      ensures this.searchLocation == searchLocation && foundSpan == None
    {
      this.searchLocation := searchLocation;
      foundSpan := None;
    }

    /** `check_and_set_span`: a resolved link whose span holds the location sets
        the result to the entity's identifier span; otherwise nothing changes. */
    method CheckAndSetSpan(target: LinkTarget, span: Span)
      modifies this
      ensures foundSpan == LinkStep(searchLocation, old(foundSpan), target, span)
      ensures target.Unresolved? || !IsWithin(searchLocation, span) ==> foundSpan == old(foundSpan)
    {
      if target.Resolved? {
        if IsWithin(searchLocation, span) {
          foundSpan := Some(target.identifierSpan);
          return;
        }
      }
    }

    /** `check_message_links`: every link of a message, in order. */
    method CheckMessageLinks(message: Message)
      modifies this
      ensures foundSpan == MessageStep(searchLocation, old(foundSpan), message)
    {
      for i := 0 to |message|
        invariant foundSpan == MessageStep(searchLocation, old(foundSpan), message[..i])
      {
        if message[i].Link? {
          CheckAndSetSpan(message[i].target, message[i].span);
        }
        assert message[..i + 1][..i] == message[..i];
      }
      assert message[..|message|] == message;
    }

    /** `check_comment`. */
    method CheckComment(comment: Option<DocComment>)
      modifies this
      ensures foundSpan == CommentStep(searchLocation, old(foundSpan), comment)
    {
      if comment.Some? {
        var c := comment.value;
        if c.overview.Some? {
          CheckMessageLinks(c.overview.value);
        }
        ghost var start := foundSpan;
        for i := 0 to |c.returnTags|
          invariant foundSpan == Fold(start, c.returnTags[..i], MessageStepFn(searchLocation))
        {
          CheckMessageLinks(c.returnTags[i]);
          assert c.returnTags[..i + 1][..i] == c.returnTags[..i];
        }
        assert c.returnTags[..|c.returnTags|] == c.returnTags;
        start := foundSpan;
        for i := 0 to |c.paramTags|
          invariant foundSpan == Fold(start, c.paramTags[..i], MessageStepFn(searchLocation))
        {
          CheckMessageLinks(c.paramTags[i]);
          assert c.paramTags[..i + 1][..i] == c.paramTags[..i];
        }
        assert c.paramTags[..|c.paramTags|] == c.paramTags;
        start := foundSpan;
        for i := 0 to |c.seeTags|
          invariant foundSpan == Fold(start, c.seeTags[..i], SeeStepFn(searchLocation))
        {
          CheckAndSetSpan(c.seeTags[i].linkedEntity, c.seeTags[i].span);
          assert c.seeTags[..i + 1][..i] == c.seeTags[..i];
        }
        assert c.seeTags[..|c.seeTags|] == c.seeTags;
        start := foundSpan;
        for i := 0 to |c.throwsTags|
          invariant foundSpan == Fold(start, c.throwsTags[..i], ThrowsStepFn(searchLocation))
        {
          CheckMessageLinks(c.throwsTags[i].message);
          CheckAndSetSpan(c.throwsTags[i].thrownType, c.throwsTags[i].span);
          assert c.throwsTags[..i + 1][..i] == c.throwsTags[..i];
        }
        assert c.throwsTags[..|c.throwsTags|] == c.throwsTags;
      }
    }

    /** The base check of `visit_class` and `visit_exception`. */
    method CheckBase(base: Option<BaseRef>)
      modifies this
      ensures foundSpan == BaseStep(searchLocation, old(foundSpan), base)
    {
      if base.Some? {
        if IsWithin(searchLocation, base.value.span) {
          foundSpan := Some(base.value.definitionIdentifierSpan);
          return;
        }
      }
    }

    /** The loop of `visit_interface` and `visit_operation`: the first reference
        holding the location decides and the loop returns. */
    method CheckBaseRefs(refs: seq<BaseRef>)
      modifies this
      ensures foundSpan == BasesStep(searchLocation, old(foundSpan), refs)
    {
      for i := 0 to |refs|
        invariant foundSpan == old(foundSpan)
        invariant forall j | 0 <= j < i :: !IsWithin(searchLocation, refs[j].span)
      {
        if IsWithin(searchLocation, refs[i].span) {
          foundSpan := Some(refs[i].definitionIdentifierSpan);
          return;
        }
      }
    }

    method VisitStruct(comment: Option<DocComment>)
      modifies this
      ensures foundSpan == CommentStep(searchLocation, old(foundSpan), comment)
    {
      CheckComment(comment);
    }

    /** `visit_class`: the comment, then a base reference holding the location. */
    method VisitClass(comment: Option<DocComment>, base: Option<BaseRef>)
      modifies this
      ensures foundSpan == BaseStep(searchLocation, CommentStep(searchLocation, old(foundSpan), comment), base)
      ensures base.Some? && IsWithin(searchLocation, base.value.span) ==>
        foundSpan == Some(base.value.definitionIdentifierSpan)
    {
      CheckComment(comment);
      CheckBase(base);
    }

    /** `visit_exception`: as for a class. */
    method VisitException(comment: Option<DocComment>, base: Option<BaseRef>)
      modifies this
      ensures foundSpan == BaseStep(searchLocation, CommentStep(searchLocation, old(foundSpan), comment), base)
      ensures base.Some? && IsWithin(searchLocation, base.value.span) ==>
        foundSpan == Some(base.value.definitionIdentifierSpan)
    {
      CheckComment(comment);
      CheckBase(base);
    }

    /** `visit_interface`: the comment, then the first containing base. */
    method VisitInterface(comment: Option<DocComment>, bases: seq<BaseRef>)
      modifies this
      ensures foundSpan == BasesStep(searchLocation, CommentStep(searchLocation, old(foundSpan), comment), bases)
    {
      CheckComment(comment);
      CheckBaseRefs(bases);
    }

    method VisitEnum(comment: Option<DocComment>)
      modifies this
      ensures foundSpan == CommentStep(searchLocation, old(foundSpan), comment)
    {
      CheckComment(comment);
    }

    /** `visit_operation`: the comment, then the first containing thrown type. */
    method VisitOperation(comment: Option<DocComment>, exceptionSpecification: seq<BaseRef>)
      modifies this
      ensures foundSpan == BasesStep(searchLocation, CommentStep(searchLocation, old(foundSpan), comment), exceptionSpecification)
    {
      CheckComment(comment);
      CheckBaseRefs(exceptionSpecification);
    }

    method VisitCustomType(comment: Option<DocComment>)
      modifies this
      ensures foundSpan == CommentStep(searchLocation, old(foundSpan), comment)
    {
      CheckComment(comment);
    }

    method VisitTypeAlias(comment: Option<DocComment>)
      modifies this
      ensures foundSpan == CommentStep(searchLocation, old(foundSpan), comment)
    {
      CheckComment(comment);
    }

    method VisitField(comment: Option<DocComment>)
      modifies this
      ensures foundSpan == CommentStep(searchLocation, old(foundSpan), comment)
    {
      CheckComment(comment);
    }

    method VisitEnumerator(comment: Option<DocComment>)
      modifies this
      ensures foundSpan == CommentStep(searchLocation, old(foundSpan), comment)
    {
      CheckComment(comment);
    }

    /** `visit_type_ref`: a patched reference holding the location sets the
        result to its named type's identifier, or to `None` for any other type;
        an unpatched one changes nothing. */
    method VisitTypeRef(typeRef: TypeRef)
      modifies this
      ensures foundSpan == TypeRefStep(searchLocation, old(foundSpan), typeRef)
      ensures typeRef.definition.Unpatched? ==> foundSpan == old(foundSpan)
    {
      if IsWithin(searchLocation, typeRef.span) {
        if !typeRef.definition.Patched? {
          return;
        }
        var entityDef := NamedTypeIdentifier(typeRef.definition.concreteType);
        foundSpan := entityDef;
      }
    }

    /** The dispatch `visit_with` performs; file, module and parameter visits do nothing. */
    method Visit(event: VisitEvent)
      modifies this
      ensures foundSpan == EventStep(searchLocation, old(foundSpan), event)
    {
      match event
      case FileEvent =>
      case ModuleEvent =>
      case ParameterEvent =>
      case StructEvent(comment) => VisitStruct(comment);
      case ClassEvent(comment, base) => VisitClass(comment, base);
      case ExceptionEvent(comment, base) => VisitException(comment, base);
      case InterfaceEvent(comment, bases) => VisitInterface(comment, bases);
      case EnumEvent(comment) => VisitEnum(comment);
      case OperationEvent(comment, refs) => VisitOperation(comment, refs);
      case CustomTypeEvent(comment) => VisitCustomType(comment);
      case TypeAliasEvent(comment) => VisitTypeAlias(comment);
      case FieldEvent(comment) => VisitField(comment);
      case EnumeratorEvent(comment) => VisitEnumerator(comment);
      case TypeRefEvent(typeRef) => VisitTypeRef(typeRef);
    }
  }

  /** A fresh visitor at the 1-based location of `position`, driven through the
      file's whole walk. */
  method DefinitionSpanInFile(file: SliceFile, position: Position) returns (span: Found)
    ensures span == DefinitionSpan(file, position)
  {
    var visitor := new JumpVisitor(ToLocation(position));
    for i := 0 to |file.events|
      invariant visitor.searchLocation == ToLocation(position)
      invariant visitor.foundSpan == Run(visitor.searchLocation, None, file.events[..i])
    {
      visitor.Visit(file.events[i]);
      assert file.events[..i + 1][..i] == file.events[..i];
    }
    assert file.events[..|file.events|] == file.events;
    span := visitor.foundSpan;
  }

  /** `get_definition_span`: the URI's file path (`toFilePath`) is looked up in
      the compiled files; no path, or an unknown file, gives `None`. */
  method GetDefinitionSpan(files: map<Str, SliceFile>, uri: Str, position: Position, toFilePath: Str -> Option<Str>)
    returns (span: Found)
    ensures toFilePath(uri).None? ==> span.None?
    ensures toFilePath(uri).Some? && toFilePath(uri).value !in files ==> span.None?
    ensures toFilePath(uri).Some? && toFilePath(uri).value in files ==>
      span == DefinitionSpan(files[toFilePath(uri).value], position)
  {
    var filePath := toFilePath(uri);
    var file: Option<SliceFile> := None;
    if filePath.Some? && filePath.value in files {
      file := Some(files[filePath.value]);
    }
    if file.Some? {
      span := DefinitionSpanInFile(file.value, position);
    } else {
      span := None;
    }
  }
}
