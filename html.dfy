/** Special handling of some HTML elements: the step that rewrites the
    provisional box built for an element into the boxes that stand for it in
    the box tree (replaced images, alt text, forced line breaks and the
    integer attributes of table columns and cells). */
module Html {
  import opened Wrappers
  import opened Replacements
  import opened Boxes
  import opened IntegerText

  /** The exceptions the handlers let escape. */
  datatype Error =
    | UnsupportedDisplay(display: string)  // ValueError from the classifier
    | KeyError(tag: string)                // handler table lookup that misses

  /** Collaborators that are called but not modelled, as oracles:
      the document's image loader, the URL-attribute resolver and the style
      inheritance used for generated text. */
  datatype Oracles = Oracles(
    getImageSurfaceFromUri: string -> Option<Surface>,
    getUrlAttribute: (Element, string) -> Option<string>,
    inheritFrom: Style -> Style)

  /** Python truthiness of an optional string: present and not empty. */
  predicate Truthy(s: Option<string>) {
    s.Some? && s.value != ""
  }

  // ---------------------------------------------------------------------
  // Block/inline classification

  const BlockDisplays: set<string> := {"block", "list-item", "table"}
  const InlineDisplays: set<string> := {"inline", "inline-table", "inline-block"}

  /** Whether the box is block-level (`Ok(true)`) or inline-level
      (`Ok(false)`); any other display value is an error naming it. */
  function IsBlockLevel(box: Box): (r: Result<bool, Error>)
    reads box
    ensures r == Ok(true) <==> box.style.display in BlockDisplays
    ensures r == Ok(false) <==> box.style.display in InlineDisplays
    ensures r.Err? ==> r.error == UnsupportedDisplay(box.style.display)
  {
    var display := box.style.display;
    if display in BlockDisplays then Ok(true)
    else if display in InlineDisplays then Ok(false)
    else Err(UnsupportedDisplay(display))
  }

  // ---------------------------------------------------------------------
  // Box builders

  /** `b` is the replaced box built for `element`: block-level or inline-level
      as `block` says, with the element's tag and line, the given style and
      replacement, and no children. */
  predicate IsReplacedBox(b: Box, element: Element, style: Style, replacement: Replacement, block: bool)
    reads b
  {
    b.kind == (if block then BlockLevelReplacedBox(replacement) else InlineLevelReplacedBox(replacement))
    && b.elementTag == element.tag && b.sourceline == element.sourceline
    && b.style == style && b.children == []
  }

  /** `b` is a box of kind `kind` for `element`, with the given style, whose
      only child is a new text box for `element` holding `text` in
      `textStyle`. */
  twostate predicate IsTextWrapper(new b: Box, element: Element, kind: BoxKind, style: Style, text: string, textStyle: Style)
    reads b, b.children
  {
    fresh(b) && b.kind == kind && b.elementTag == element.tag && b.sourceline == element.sourceline
    && b.style == style && |b.children| == 1
    && var t := b.children[0];
       fresh(t) && t.kind == TextBox(text) && t.elementTag == element.tag
       && t.sourceline == element.sourceline && t.style == textStyle && t.children == []
  }

  /** The outcome of building a replaced box for `box`, as a list: the
      classifier's error, or exactly one new replaced box whose level is the
      classifier's verdict on `box`. */
  twostate predicate ReplacedOutcome(element: Element, box: Box, replacement: Replacement, new r: Result<seq<Box>, Error>)
    reads *
  {
    match IsBlockLevel(box)
    case Err(e) => r == Err(e)
    case Ok(block) =>
      r.Ok? && |r.value| == 1 && fresh(r.value[0])
      && IsReplacedBox(r.value[0], element, box.style, replacement, block)
  }

  /** The outcome of building a text box for `box`, as a list: the
      classifier's error, or exactly one new block or inline box (as the
      classifier says) wrapping one text box that holds `text` in the style
      inherited from `box`'s. */
  twostate predicate TextOutcome(ext: Oracles, element: Element, box: Box, text: string, new r: Result<seq<Box>, Error>)
    reads *
  {
    match IsBlockLevel(box)
    case Err(e) => r == Err(e)
    case Ok(block) =>
      r.Ok? && |r.value| == 1
      && IsTextWrapper(r.value[0], element, if block then BlockBox else InlineBox, box.style, text, ext.inheritFrom(box.style))
  }

  /** The list `[b]` for a built box, or the error that stopped it. */
  function AsList(made: Result<Box, Error>): (r: Result<seq<Box>, Error>)
    ensures made.Err? ==> r == Err(made.error)
    ensures made.Ok? ==> r == Ok([made.value])
  {
    match made
    case Err(e) => Err(e)
    case Ok(b) => Ok([b])
  }

  /** Wraps a replacement in a block-level or inline-level replaced box. */
  method MakeReplacedBox(element: Element, box: Box, replacement: Replacement) returns (r: Result<Box, Error>)
    ensures ReplacedOutcome(element, box, replacement, AsList(r))
    ensures r.Ok? ==> IsBlockLevel(r.value) == IsBlockLevel(box)
  {
    var block := IsBlockLevel(box);
    if block.Err? {
      return Err(block.error);
    }
    var b;
    if block.value {
      b := new Box(BlockLevelReplacedBox(replacement), element.tag, element.sourceline, box.style, []);
    } else {
      b := new Box(InlineLevelReplacedBox(replacement), element.tag, element.sourceline, box.style, []);
    }
    r := Ok(b);
  }

  /** Makes a text box holding `text`, wrapped in a block or inline box. */
  method MakeTextBox(ext: Oracles, element: Element, box: Box, text: string) returns (r: Result<Box, Error>)
    ensures TextOutcome(ext, element, box, text, AsList(r))
  {
    var textBox := new Box(TextBox(text), element.tag, element.sourceline, ext.inheritFrom(box.style), []);
    var block := IsBlockLevel(box);
    if block.Err? {
      return Err(block.error);
    }
    var b;
    if block.value {
      b := new Box(BlockBox, element.tag, element.sourceline, box.style, [textBox]);
    } else {
      b := new Box(InlineBox, element.tag, element.sourceline, box.style, [textBox]);
    }
    r := Ok(b);
  }

  // ---------------------------------------------------------------------
  // <img>

  /** What an `<img>` becomes: an image whose source resolves to a surface
      gives one replaced box; otherwise a non-empty alt text gives one text
      box; otherwise (alt empty or absent) nothing. Whether the source was
      absent or failed to load makes no difference. The box is untouched. */
  twostate predicate ImgPost(ext: Oracles, element: Element, box: Box, new r: Result<seq<Box>, Error>)
    reads *
  {
    var src := ext.getUrlAttribute(element, "src");
    var alt := element.Get("alt");
    var surface := if Truthy(src) then ext.getImageSurfaceFromUri(src.value) else None;
    unchanged(box)
    && if surface.Some? then ReplacedOutcome(element, box, ImageReplacement(surface.value), r)
       else if Truthy(alt) then TextOutcome(ext, element, box, alt.value, r)
       else r == Ok([])
  }

  method HandleImg(ext: Oracles, element: Element, box: Box) returns (r: Result<seq<Box>, Error>)
    ensures ImgPost(ext, element, box, r)
  {
    var src := ext.getUrlAttribute(element, "src");
    var alt := element.Get("alt");
    if Truthy(src) {
      var surface := ext.getImageSurfaceFromUri(src.value);
      if surface.Some? {
        var replacement := ImageReplacement(surface.value);
        var made := MakeReplacedBox(element, box, replacement);
        r := AsList(made);
      } else {
        // The source gave no surface: fall back on the alt text.
        if Truthy(alt) {
          var made := MakeTextBox(ext, element, box, alt.value);
          r := AsList(made);
        } else if alt == Some("") {
          // An empty alt text: the image contributes no box.
          r := Ok([]);
        } else {
          // No alt attribute at all: the image is dropped as well.
          r := Ok([]);
        }
      }
    } else {
      if Truthy(alt) {
        var made := MakeTextBox(ext, element, box, alt.value);
        r := AsList(made);
      } else {
        r := Ok([]);
      }
    }
  }

  // ---------------------------------------------------------------------
  // <br>

  /** A `<br>` becomes one new inline box, in the element's style, holding
      one new text box with a single newline whose white-space is `pre`, so
      that later whitespace collapsing keeps it. The box is untouched. */
  twostate predicate BrPost(element: Element, box: Box, new r: seq<Box>)
    reads *
  {
    unchanged(box) && |r| == 1
    && IsTextWrapper(r[0], element, InlineBox, box.style, "\n", box.style.(whiteSpace := "pre"))
  }

  method HandleBr(element: Element, box: Box) returns (r: seq<Box>)
    ensures BrPost(element, box, r)
  {
    var newline := new Box(TextBox("\n"), element.tag, element.sourceline, box.style, []);
    newline.style := newline.style.(whiteSpace := "pre");
    var wrapper := new Box(InlineBox, element.tag, element.sourceline, box.style, [newline]);
    r := [wrapper];
  }

  // ---------------------------------------------------------------------
  // Integer attributes

  /** The value an integer attribute sets: the attribute's text, stripped,
      read as an integer that is at least `minimum`. An absent attribute, text
      that is not an integer, or an integer below `minimum` gives nothing. */
  function ParsedAttribute(element: Element, name: string, minimum: int): (v: Option<int>)
    ensures v.Some? <==>
              name in element.attributes && ParseInt(Strip(element.attributes[name])).Some?
              && ParseInt(Strip(element.attributes[name])).value >= minimum
    ensures v.Some? ==> v == ParseInt(Strip(element.attributes[name])) && v.value >= minimum
  {
    var value := Strip(element.Get(name).GetOr(""));
    match ParseInt(value)
    case None => None
    case Some(n) => if n >= minimum then Some(n) else None
  }

  /** The box state after `integer_attribute`: only the named field may
      change, and it changes to a value no smaller than `minimum`; when the
      attribute yields nothing, the state is as before. */
  function SetIntegerAttribute(s: BoxState, element: Element, field: IntegerField, minimum: int): (t: BoxState)
    ensures t.style == s.style
    ensures field != Span ==> t.span == s.span
    ensures field != Colspan ==> t.colspan == s.colspan
    ensures field != Rowspan ==> t.rowspan == s.rowspan
    ensures ParsedAttribute(element, field.Name(), minimum).None? ==> t == s
    ensures ParsedAttribute(element, field.Name(), minimum).Some? ==>
              t == s.WithInteger(field, ParsedAttribute(element, field.Name(), minimum).value)
  {
    match ParsedAttribute(element, field.Name(), minimum)
    case None => s
    case Some(n) => s.WithInteger(field, n)
  }

  /** Reads an integer attribute of the element and sets it on the box,
      ignoring an invalid or too small value. */
  method IntegerAttribute(element: Element, box: Box, field: IntegerField, minimum: int := 1)
    modifies box
    ensures box.State() == SetIntegerAttribute(old(box.State()), element, field, minimum)
  {
    var value := Strip(element.Get(field.Name()).GetOr(""));
    var parsed := ParseInt(value);
    if parsed.Some? {
      if parsed.value >= minimum {
        match field
        case Span => box.span := Some(parsed.value);
        case Colspan => box.colspan := parsed.value;
        case Rowspan => box.rowspan := parsed.value;
      }
    }
  }

  /** An attribute written as a decimal integer, with whitespace around it,
      sets exactly that integer when it reaches the minimum and is ignored
      otherwise. */
  lemma IntegerAttributeFromText(element: Element, field: IntegerField, minimum: int, before: string, n: int, after: string)
    requires AllWhitespace(before) && AllWhitespace(after)
    requires field.Name() in element.attributes
    requires element.attributes[field.Name()] == before + FormatInt(n) + after
    ensures ParsedAttribute(element, field.Name(), minimum) == if n >= minimum then Some(n) else None
  {
    PaddedIntegerParses(before, n, after);
  }

  /** `rowspan="0"` is accepted (its minimum is 0) while `colspan="0"` is
      ignored (its minimum is 1). */
  lemma ZeroSpans(s: BoxState, element: Element)
    requires "colspan" in element.attributes && element.attributes["colspan"] == "0"
    requires "rowspan" in element.attributes && element.attributes["rowspan"] == "0"
    ensures SetIntegerAttribute(s, element, Colspan, 1) == s
    ensures SetIntegerAttribute(s, element, Rowspan, 0) == s.(rowspan := 0)
  {
    IntegerAttributeFromText(element, Colspan, 1, "", 0, "");
    IntegerAttributeFromText(element, Rowspan, 0, "", 0, "");
  }

  /** Text that is not an integer, such as `colspan="abc"`, leaves the box
      as it was. */
  lemma NonIntegerIgnored(s: BoxState, element: Element, field: IntegerField, minimum: int)
    requires field.Name() in element.attributes && element.attributes[field.Name()] == "abc"
    ensures SetIntegerAttribute(s, element, field, minimum) == s
  {
    StripPadded("", "abc", "");
    assert "" + "abc" + "" == "abc";
    assert "abc"[0] as int == 97 && '+' as int == 43 && '-' as int == 45;
    ParseIntRejects("abc", 0);
  }

  /** An absent attribute leaves the box as it was. */
  lemma AbsentIgnored(s: BoxState, element: Element, field: IntegerField, minimum: int)
    requires field.Name() !in element.attributes
    ensures SetIntegerAttribute(s, element, field, minimum) == s
  {
  }

  /** `<col span="n">` with `n` at least 1 gives the column box a span of
      `n`, so it is expanded into `n` copies exactly when `n > 1`. */
  lemma ColumnSpanFromText(s: BoxState, element: Element, n: int)
    requires n >= 1
    requires "span" in element.attributes && element.attributes["span"] == FormatInt(n)
    ensures SetIntegerAttribute(s, element, Span, 1).span == Some(n)
    ensures SpanExceedsOne(SetIntegerAttribute(s, element, Span, 1).span) <==> n > 1
  {
    assert "" + FormatInt(n) + "" == FormatInt(n);
    IntegerAttributeFromText(element, Span, 1, "", n, "");
  }

  // ---------------------------------------------------------------------
  // Table columns and cells

  /** Whether some child element is a `<col>`. */
  predicate HasColChild(element: Element) {
    exists i :: 0 <= i < |element.children| && element.children[i].tag == "col"
  }

  /** A `<colgroup>` stays one box. On a column-group box, its span becomes
      unset (left for the `<col>` children to determine) when it has such
      children, and is read
      from its `span` attribute otherwise; any other box is untouched. */
  twostate predicate ColgroupPost(element: Element, box: Box, new r: seq<Box>)
    reads *
  {
    r == [box]
    && box.State() ==
       if !box.kind.TableColumnGroupBox? then old(box.State())
       else if HasColChild(element) then old(box.State()).(span := None)
       else SetIntegerAttribute(old(box.State()), element, Span, 1)
  }

  method HandleColgroup(element: Element, box: Box) returns (r: seq<Box>)
    modifies box
    ensures ColgroupPost(element, box, r)
  {
    if box.kind.TableColumnGroupBox? {
      if HasColChild(element) {
        box.span := None;  // derived later from the <col> children
      } else {
        IntegerAttribute(element, box, Span);
      }
    }
    r := [box];
  }

  /** `box.span > 1` under Python 2, where an unset span (`None`) compares
      below every integer. */
  predicate SpanExceedsOne(span: Option<int>) {
    span.Some? && span.value > 1
  }

  /** A `<col>` on a column box reads its `span` attribute; when the span is
      then above 1, it becomes that many distinct new copies of the updated
      box (the box itself not among them), and otherwise stays one box. Any
      other box is untouched and stays one box. */
  twostate predicate ColPost(element: Element, box: Box, new r: seq<Box>)
    reads *
  {
    if !box.kind.TableColumnBox? then
      box.State() == old(box.State()) && r == [box]
    else
      box.State() == SetIntegerAttribute(old(box.State()), element, Span, 1)
      && if SpanExceedsOne(box.span) then ColumnCopies(box, r) else r == [box]
  }

  /** `r` holds one new copy of the column box per spanned column, all
      distinct (so the box itself is not among them). */
  twostate predicate ColumnCopies(box: Box, new r: seq<Box>)
    requires SpanExceedsOne(box.span)
    reads *
  {
    |r| == box.span.value
    && (forall i :: 0 <= i < |r| ==> fresh(r[i]) && box.SameAs(r[i]))
    && (forall i, j :: 0 <= i < j < |r| ==> r[i] != r[j])
  }

  /** `[box.copy() for i in xrange(n)]`: `n` distinct new copies of the box. */
  method CopyMany(box: Box, n: nat) returns (r: seq<Box>)
    ensures |r| == n
    ensures forall i :: 0 <= i < n ==> fresh(r[i]) && box.SameAs(r[i])
    ensures forall i, j :: 0 <= i < j < n ==> r[i] != r[j]
  {
    r := [];
    for i := 0 to n
      invariant |r| == i
      invariant forall k :: 0 <= k < i ==> fresh(r[k]) && box.SameAs(r[k])
      invariant forall k, l :: 0 <= k < l < i ==> r[k] != r[l]
    {
      var copy := box.Copy();
      r := r + [copy];
    }
  }

  method HandleCol(element: Element, box: Box) returns (r: seq<Box>)
    modifies box
    ensures ColPost(element, box, r)
  {
    if box.kind.TableColumnBox? {
      IntegerAttribute(element, box, Span);
      assert box.State() == SetIntegerAttribute(old(box.State()), element, Span, 1);
      if SpanExceedsOne(box.span) {
        // One copy of the column box per spanned column.
        r := CopyMany(box, box.span.value);
        assert ColumnCopies(box, r);
        return;
      }
    }
    r := [box];
  }

  /** A `<td>` or `<th>` stays one box. On a cell box, `colspan` is read with
      minimum 1 and then `rowspan` with minimum 0 (so `rowspan="0"` is kept
      and `colspan="0"` ignored); any other box is untouched. */
  twostate predicate TdPost(element: Element, box: Box, new r: seq<Box>)
    reads *
  {
    r == [box]
    && box.State() ==
       if box.kind.TableCellBox? then
         SetIntegerAttribute(SetIntegerAttribute(old(box.State()), element, Colspan, 1), element, Rowspan, 0)
       else old(box.State())
  }

  method HandleTd(element: Element, box: Box) returns (r: seq<Box>)
    modifies box
    ensures TdPost(element, box, r)
  {
    if box.kind.TableCellBox? {
      IntegerAttribute(element, box, Colspan);
      IntegerAttribute(element, box, Rowspan, minimum := 0);
    }
    r := [box];
  }

  // ---------------------------------------------------------------------
  // Handler table and dispatch

  /** The registered handlers. */
  datatype Handler = Img | Br | Colgroup | Col | Td

  /** What running handler `h` promises. */
  twostate predicate HandlerPost(h: Handler, ext: Oracles, element: Element, box: Box, new r: Result<seq<Box>, Error>)
    reads *
  {
    match h
    case Img => ImgPost(ext, element, box, r)
    case Br => r.Ok? && BrPost(element, box, r.value)
    case Colgroup => r.Ok? && ColgroupPost(element, box, r.value)
    case Col => r.Ok? && ColPost(element, box, r.value)
    case Td => r.Ok? && TdPost(element, box, r.value)
  }

  /** Calls the handler function `h` stands for. */
  method RunHandler(h: Handler, ext: Oracles, element: Element, box: Box) returns (r: Result<seq<Box>, Error>)
    modifies box
    ensures HandlerPost(h, ext, element, box, r)
  {
    match h {
      case Img =>
        r := HandleImg(ext, element, box);
      case Br =>
        var boxes := HandleBr(element, box);
        r := Ok(boxes);
      case Colgroup =>
        var boxes := HandleColgroup(element, box);
        r := Ok(boxes);
      case Col =>
        var boxes := HandleCol(element, box);
        r := Ok(boxes);
      case Td =>
        var boxes := HandleTd(element, box);
        r := Ok(boxes);
    }
  }

  /** The table from tag names to handlers, filled in by registration. */
  class HandlerRegistry {
    var handlers: map<string, Handler>

    constructor ()
      ensures handlers == map[]
    {
      handlers := map[];
    }

    /** Registers `h` as the handler of `tag`, replacing any earlier one. */
    method Register(tag: string, h: Handler)
      modifies this
      ensures handlers == old(handlers)[tag := h]
    {
      handlers := handlers[tag := h];
    }
  }

  /** The table as it stands once every handler has registered itself: one
      handler per tag, `<td>` and `<th>` sharing theirs. */
  method HtmlHandlers() returns (registry: HandlerRegistry)
    ensures fresh(registry)
    ensures registry.handlers.Keys == {"img", "br", "colgroup", "col", "td", "th"}
    ensures registry.handlers["img"] == Img && registry.handlers["br"] == Br
    ensures registry.handlers["colgroup"] == Colgroup && registry.handlers["col"] == Col
    ensures registry.handlers["td"] == Td && registry.handlers["th"] == Td
  {
    registry := new HandlerRegistry();
    registry.Register("img", Img);
    registry.Register("br", Br);
    registry.Register("colgroup", Colgroup);
    registry.Register("col", Col);
    registry.Register("td", Td);
    registry.Register("th", Td);
  }

  /** Handles elements that need special care, returning a possibly empty
      list of boxes. Whether a handler applies is decided by the box's tag,
      but the handler is looked up by the element's tag: when the box's tag
      has no handler the result is the box alone and nothing changes; when it
      has one but the element's tag has none the lookup fails; otherwise the
      result is whatever the element's handler produces. */
  method HandleElement(registry: HandlerRegistry, ext: Oracles, element: Element, box: Box)
    returns (r: Result<seq<Box>, Error>)
    modifies box
    ensures box.elementTag !in registry.handlers ==>
              r == Ok([box]) && box.State() == old(box.State())
    ensures box.elementTag in registry.handlers && element.tag !in registry.handlers ==>
              r == Err(KeyError(element.tag)) && box.State() == old(box.State())
    ensures box.elementTag in registry.handlers && element.tag in registry.handlers ==>
              HandlerPost(registry.handlers[element.tag], ext, element, box, r)
  {
    if box.elementTag in registry.handlers {
      if element.tag !in registry.handlers {
        return Err(KeyError(element.tag));
      }
      r := RunHandler(registry.handlers[element.tag], ext, element, box);
    } else {
      r := Ok([box]);
    }
  }
}
