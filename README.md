# WeasyPrint element handlers, in Dafny

WeasyPrint builds a provisional box for every HTML element from its computed
style. It then passes the element and that box to `handle_element` in
`weasy/html.py`, which rewrites the box into the list of boxes that stand for
the element in the box tree. This project models that rewriting step:

- the table from tag names to handlers, filled in by registration, and the
  dispatch through it;
- the block/inline classifier;
- the builders of replaced boxes and of wrapped text boxes;
- the handlers for `<img>`, `<br>`, `<colgroup>`, `<col>`, `<td>` and `<th>`;
- the "ignore invalid, keep default" reading of integer attributes, down to
  Python's `str.strip()` and `int()`;
- the intrinsic sizes and ratio of replaced content.

Layout:

- `wrappers.dfy`: `Option` and `Result`.
- `integer_text.dfy`, module `IntegerText`: stripping whitespace and reading
  an integer, checked against a decimal formatter, which is its inverse.
- `replacements.dfy`, module `Replacements`: the `Replacement` base class and
  `ImageReplacement`, over a surface reduced to its width and height.
- `boxes.dfy`, module `Boxes`: the source element (a value) and the box (a
  class). The box's `style`, `span`, `colspan` and `rowspan` are mutable
  fields, because the handlers update them in place. `Box.State()` gives a
  value snapshot of those fields, and pure functions describe updates on it.
- `html.dfy`, module `Html`: the classifier, the builders, the handlers, the
  registry and `HandleElement`.

Each handler is a method. Its contract is a two-state predicate: `ImgPost`,
`BrPost`, `ColgroupPost`, `ColPost` or `TdPost`. `HandlerPost` selects the
predicate for a handler, and `HandleElement` promises exactly that predicate
for the handler registered under the element's tag. This is how "the
handler's result is returned verbatim" is stated. Exceptions the source lets
escape are `Err` values:

- `UnsupportedDisplay` for the classifier's `ValueError`;
- `KeyError` for a failed table lookup.

The collaborators that are called but not shown are passed in as the
function fields of `Html.Oracles`:

- `document.get_image_surface_from_uri`;
- `utils.get_url_attribute`;
- `style.inherit_from`.

Two details of `handle_element` and `handle_col` that the model follows exactly as written:

- `handle_element` decides whether a handler applies by the box's
  `element_tag` but looks the handler up by the element's `tag`. When the
  first is registered and the second is not, the lookup fails (`KeyError`).
  When only the second is registered, the box is returned unchanged.
- In `handle_col`, an unset span (`None`) does not count as "above 1",
  because Python 2 orders `None` below every integer.

## Model

| member | source | states |
|---|---|---|
| `IntegerText.StripLeading` | weasy/html.py:151 | the result is a suffix of the input, only whitespace was dropped, and it does not start with whitespace |
| `IntegerText.StripTrailing` | weasy/html.py:151 | the result is a prefix of the input, only whitespace was dropped, and it does not end with whitespace |
| `IntegerText.Strip` | weasy/html.py:151 | `strip()` leaves text that neither starts nor ends with whitespace, and leaves nothing exactly when the input is all whitespace |
| `IntegerText.StripPadded` | weasy/html.py:151 | stripping `before + s + after` gives back `s` when the padding is whitespace and `s` has none at its ends, so only the surrounding whitespace is removed |
| `IntegerText.ParseInt` | weasy/html.py:152-155 | `int()` succeeds exactly when the text is at most one sign followed by a non-empty run of decimal digits; a negative result comes only from a leading minus |
| `IntegerText.ParseFormatRoundTrip` | weasy/html.py:152-153 | parsing the decimal text of any integer gives that integer back |
| `IntegerText.PaddedIntegerParses` | weasy/html.py:151-153 | a decimal integer with whitespace around it reads back as that integer after stripping |
| `IntegerText.LeadingZerosValue` | weasy/html.py:152-153 | zeros in front of a run of digits leave the number it denotes unchanged |
| `IntegerText.ParseSignedDigits` | weasy/html.py:152-153 | a non-empty run of digits after at most one sign reads as the number the digits denote, negated after a minus |
| `IntegerText.ParseIntNonCanonical` | weasy/html.py:152-153 | numerals with a plus sign or leading zeros ("+3", "02", "-0") read as the integer their digits denote, negated after a minus |
| `IntegerText.ParseIntRejects` | weasy/html.py:152-155 | a character that is neither a digit nor a leading sign makes `int()` fail (the `ValueError` path) |
| `Replacements.Replacement.IntrinsicWidth` | weasy/html.py:225-226 | the width is defined exactly for an image replacement, and it is the surface's width |
| `Replacements.Replacement.IntrinsicHeight` | weasy/html.py:228-229 | the height is defined exactly for an image replacement, and it is the surface's height |
| `Replacements.Replacement.IntrinsicRatio` | weasy/html.py:207-212 | the ratio is defined exactly when width and height are both defined and the height is not zero, and then ratio × height = width |
| `Replacements.ImageRatio` | weasy/html.py:209-229 | an image has a ratio exactly when it is not zero pixels high; the ratio is never negative, and it is zero only for a zero-width image |
| `Boxes.BoxState.WithInteger` | weasy/html.py:158 | `setattr` gives the named field the value and leaves style and the other two fields as they were |
| `Boxes.Box.Copy` | weasy/html.py:180 | `copy()` gives a new box with the same class, tag, line, children, style and spans |
| `Html.IsBlockLevel` | weasy/html.py:57-71 | `block`, `list-item` and `table` are block-level; `inline`, `inline-table` and `inline-block` are inline-level; every other display value is an error naming it |
| `Html.MakeReplacedBox` | weasy/html.py:74-85 | the classifier's error, or one new childless replaced box with the element's tag and line, the box's style and the replacement; it is block-level exactly when the classifier says so, so it agrees with its own classification |
| `Html.MakeTextBox` | weasy/html.py:88-101 | the classifier's error, or one new block or inline box (as the classifier says) in the box's style, whose only child is a new text box holding the text in the inherited style; both carry the element's tag and line |
| `Html.HandleImg` | weasy/html.py:104-134 | a source that resolves to a surface gives exactly one replaced image box; otherwise a non-empty alt gives exactly one text box with the alt text; otherwise (alt empty or absent) the list is empty; an absent source and a failed load behave alike; the box is unchanged |
| `Html.HandleBr` | weasy/html.py:137-144 | exactly one new inline box in the box's style, holding one new text box with `"\n"` whose style is the box's with `white_space` set to `pre`; the box is unchanged |
| `Html.ParsedAttribute` | weasy/html.py:147-157 | a value is produced exactly when the attribute is present, its stripped text parses, and the integer is at least the minimum; the value is that integer |
| `Html.SetIntegerAttribute` | weasy/html.py:147-158 | only the named field can change, never the style; an absent, unparseable or too small attribute leaves the state as it was; otherwise the field holds the parsed integer |
| `Html.IntegerAttribute` | weasy/html.py:147-158 | the box's new state is the old one updated by `SetIntegerAttribute`, and nothing is raised |
| `Html.IntegerAttributeFromText` | weasy/html.py:151-158 | an attribute written as a decimal integer with whitespace around it sets exactly that integer if it reaches the minimum and is ignored otherwise |
| `Html.ZeroSpans` | weasy/html.py:188-195 | `rowspan="0"` is accepted (minimum 0) and `colspan="0"` is ignored (minimum 1) |
| `Html.NonIntegerIgnored` | weasy/html.py:152-155 | `colspan="abc"` and any other field with that text leave the box state untouched |
| `Html.AbsentIgnored` | weasy/html.py:151-155 | an absent attribute leaves the box state untouched |
| `Html.ColumnSpanFromText` | weasy/html.py:175-180 | `span="n"` with n ≥ 1 gives the column a span of n, so the column is expanded exactly when n > 1 |
| `Html.HandleColgroup` | weasy/html.py:161-169 | the result is always `[box]`; on a column-group box the span becomes "sum of children" (None) if some child is a `col`, and otherwise is read from `span` with minimum 1; other boxes are untouched |
| `Html.HandleCol` | weasy/html.py:172-181 | on a column box `span` is read with minimum 1; if the span is then above 1, the result is that many distinct new copies of the updated box; otherwise, and for any other box, the result is `[box]` and other boxes are untouched |
| `Html.CopyMany` | weasy/html.py:180 | the list comprehension gives exactly `n` new boxes, pairwise distinct, each a copy of the box |
| `Html.HandleTd` | weasy/html.py:184-196 | the result is always `[box]`; on a cell box `colspan` is read with minimum 1 and then `rowspan` with minimum 0; other boxes are untouched |
| `Html.RunHandler` | weasy/html.py:43 | calling a registered handler gives exactly what that handler promises |
| `Html.HandlerRegistry.constructor` | weasy/html.py:34 | the table starts empty |
| `Html.HandlerRegistry.Register` | weasy/html.py:48-54 | registering binds the tag to the handler and leaves every other binding as it was |
| `Html.HtmlHandlers` | weasy/html.py:104-186 | after registration the table maps exactly `img`, `br`, `colgroup`, `col`, `td` and `th`, with `td` and `th` sharing one handler |
| `Html.HandleElement` | weasy/html.py:37-45 | a box whose tag has no handler comes back alone and unchanged; if the box's tag has a handler but the element's tag has none, the lookup fails; otherwise the result is whatever the element's handler promises |

## Left out

- `weasy/text.py`, the text fragment and line-breaking engine, is not part of this model. Every measurement it makes goes through Pango and Cairo font metrics.
- `weasy/tests/make_expected_results.py` is not part of this model. It writes PNG test fixtures.
- `ImageReplacement.draw` is not modelled. It paints through Cairo. A surface is only its width and height.
- `Replacements.Replacement.IntrinsicRatio`: computed as an exact `real` quotient, not as a floating-point division.
- `IntegerText.ParseInt`: accepts only ASCII digits. Python 2's `int()` also accepts other Unicode decimal digits in a `unicode` string, and whitespace between the sign and the digits; neither is modelled.
- `IntegerText.Strip`: removes only the six ASCII whitespace characters. `unicode.strip()` also removes other Unicode whitespace.
- Image decoding, `get_url_attribute` and `style.inherit_from` are not modelled. They appear only as the oracles in `Html.Oracles`.
- The box class hierarchy is not modelled. Only the classes the handlers distinguish and the fields they touch are represented.
- A box constructor keeps its own copy of the style it is given. So in `HandleBr`, setting `white_space` reaches only the newline box. Whether the real constructors share the style object is not modelled.
- New boxes start with `span`, `colspan` and `rowspan` at 1 for every class. On the real classes these defaults may not exist.
- Two assertions are not modelled: `assert surface` in `ImageReplacement.__init__` and `assert alt is None` in `handle_img`. Both always hold for the values the model admits.
- Comment and processing-instruction children of an element are not distinguished from element children; each child is treated as an element with a tag.
