/** The parts of the source tree and of the box tree that the element handlers
    read and write. The box classes themselves live outside the modelled code;
    only the fields the handlers touch are represented. */
module Boxes {
  import opened Wrappers
  import opened Replacements

  /** A parsed source element: its tag, its source line, its attributes and
      its child elements. */
  datatype Element = Element(tag: string, sourceline: int, attributes: map<string, string>, children: seq<Element>) {
    /** `element.get(name)`: the attribute's text, or nothing when absent. */
    function Get(name: string): (v: Option<string>)
      ensures v.Some? <==> name in attributes
      ensures v.Some? ==> v.value == attributes[name]
    {
      if name in attributes then Some(attributes[name]) else None
    }
  }

  /** The resolved style of a box: the two properties the handlers look at,
      and every other property as an opaque map. */
  datatype Style = Style(display: string, whiteSpace: string, others: map<string, string>)

  /** The box classes the handlers distinguish. */
  datatype BoxKind =
    | BlockBox
    | InlineBox
    | BlockLevelReplacedBox(replacement: Replacement)
    | InlineLevelReplacedBox(replacement: Replacement)
    | TextBox(text: string)
    | TableColumnGroupBox
    | TableColumnBox
    | TableCellBox
    | OtherBox(className: string)

  /** The integer attributes the table handlers may set on a box. */
  datatype IntegerField = Span | Colspan | Rowspan {
    /** The attribute name, shared by the element and the box. */
    function Name(): string {
      match this
      case Span => "span"
      case Colspan => "colspan"
      case Rowspan => "rowspan"
    }
  }

  /** The part of a box the handlers update in place. A `span` of `None`
      means the span is unset, to be derived from the column children. */
  datatype BoxState = BoxState(style: Style, span: Option<int>, colspan: int, rowspan: int) {
    /** `setattr(box, field.Name(), v)`: the named field holds `v`, every
        other field is as before. */
    function WithInteger(field: IntegerField, v: int): (s: BoxState)
      ensures s.style == style
      ensures s.span == (if field == Span then Some(v) else span)
      ensures s.colspan == (if field == Colspan then v else colspan)
      ensures s.rowspan == (if field == Rowspan then v else rowspan)
    {
      match field
      case Span => this.(span := Some(v))
      case Colspan => this.(colspan := v)
      case Rowspan => this.(rowspan := v)
    }
  }

  class Box {
    const kind: BoxKind
    const elementTag: string
    const sourceline: int
    const children: seq<Box>
    var style: Style
    var span: Option<int>
    var colspan: int
    var rowspan: int

    /** A new box; the table attributes start at their HTML default of 1. */
    constructor (kind: BoxKind, elementTag: string, sourceline: int, style: Style, children: seq<Box>)
      ensures this.kind == kind && this.elementTag == elementTag && this.sourceline == sourceline
      ensures this.children == children
      ensures State() == BoxState(style, Some(1), 1, 1)
    {
      this.kind := kind;
      this.elementTag := elementTag;
      this.sourceline := sourceline;
      this.children := children;
      this.style := style;
      this.span := Some(1);
      this.colspan := 1;
      this.rowspan := 1;
    }

    function State(): BoxState
      reads this
    {
      BoxState(style, span, colspan, rowspan)
    }

    /** `b` carries the same class, identity, children and field values as
        this box. */
    predicate SameAs(b: Box)
      reads this, b
    {
      b.kind == kind && b.elementTag == elementTag && b.sourceline == sourceline
      && b.children == children && b.State() == State()
    }

    /** `box.copy()`: a new, shallow copy of this box. */
    method Copy() returns (c: Box)
      ensures fresh(c) && SameAs(c)
    {
      c := new Box(kind, elementTag, sourceline, style, children);
      c.span, c.colspan, c.rowspan := span, colspan, rowspan;
    }
  }
}
