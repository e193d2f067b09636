/** Replaced content: content rendered outside the box tree (an image) that
    may or may not have intrinsic dimensions. */
module Replacements {
  import opened Wrappers

  /** A decoded image, reduced to the two sizes the replacement reads from it. */
  datatype Surface = Surface(width: nat, height: nat)

  /** The abstract base, whose intrinsic sizes are undefined, and the
      image-backed replacement, whose sizes are the surface's. */
  datatype Replacement = AbstractReplacement | ImageReplacement(surface: Surface) {

    /** The width the content has of its own, when it has one. */
    function IntrinsicWidth(): (w: Option<int>)
      ensures ImageReplacement? <==> w.Some?
      ensures ImageReplacement? ==> w.value == surface.width
    {
      match this
      case AbstractReplacement => None
      case ImageReplacement(s) => Some(s.width)
    }

    /** The height the content has of its own, when it has one. */
    function IntrinsicHeight(): (h: Option<int>)
      ensures ImageReplacement? <==> h.Some?
      ensures ImageReplacement? ==> h.value == surface.height
    {
      match this
      case AbstractReplacement => None
      case ImageReplacement(s) => Some(s.height)
    }

    /** Intrinsic ratio: defined exactly when both sizes are defined and the
        height is not zero, and then it scales the height to the width. */
    function IntrinsicRatio(): (ratio: Option<real>)
      ensures ratio.Some? <==>
                IntrinsicWidth().Some? && IntrinsicHeight().Some? && IntrinsicHeight().value != 0
      ensures ratio.Some? ==>
                ratio.value * IntrinsicHeight().value as real == IntrinsicWidth().value as real
    {
      var width := IntrinsicWidth();
      var height := IntrinsicHeight();
      if width.Some? && height.Some? && height.value != 0 then
        Some(width.value as real / height.value as real)
      else
        None
    }
  }

  /** An image has a ratio unless it is zero pixels high; a ratio is never
      negative, and it is zero only for an image zero pixels wide. */
  lemma ImageRatio(s: Surface)
    ensures ImageReplacement(s).IntrinsicRatio().Some? <==> s.height != 0
    ensures s.height != 0 ==>
              var ratio := ImageReplacement(s).IntrinsicRatio().value;
              ratio >= 0.0 && (ratio == 0.0 <==> s.width == 0)
  {
    if s.height != 0 {
      var ratio := ImageReplacement(s).IntrinsicRatio().value;
      assert ratio * s.height as real == s.width as real;
    }
  }
}
