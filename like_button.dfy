/** The like button of a photo card (script.js, toggleLike): toggling the
    `liked` class on the button and setting the text of its `.heart-icon`
    child to a red heart when liked and a white heart when not. */
module Like {

  /** U+2764 U+FE0F, the red heart shown on a liked photo. */
  const RedHeart: string := "\U{2764}\U{FE0F}"

  /** U+1F90D, the white heart shown otherwise. */
  const WhiteHeart: string := "\U{1F90D}"

  /** The icon text that goes with a like state. */
  function HeartIcon(liked: bool): (icon: string)
    ensures icon == RedHeart <==> liked
    ensures icon == WhiteHeart <==> !liked
  {
    if liked then RedHeart else WhiteHeart
  }

  /** The icon determines the like state it was set for. */
  lemma HeartIconInjective(a: bool, b: bool)
    ensures HeartIcon(a) == HeartIcon(b) <==> a == b
  {
  }

  datatype Option<T> = None | Some(value: T)

  /** A like button: whether its class list holds `liked`, and the text of
      its `.heart-icon` child, `None` when the button has no such child. */
  class LikeButton {
    var liked: bool
    var icon: Option<string>

    /** The button as the page's markup delivers it; the markup may pair any
        icon text with either state, or omit the icon. */
    constructor (liked: bool, icon: Option<string>)
      ensures this.liked == liked && this.icon == icon
    {
      this.liked := liked;
      this.icon := icon;
    }

    /** toggleLike(button). The class is toggled first; without a heart icon
        the assignment to its text then throws a TypeError (`threw`), so
        nothing else changes. */
    method ToggleLike() returns (threw: bool)
      modifies this
      ensures liked == !old(liked)
      ensures threw <==> old(icon).None?
      ensures threw ==> icon == None
      ensures !threw ==> icon == Some(HeartIcon(liked))
    {
      liked := !liked;
      if icon.None? {
        return true;
      }
      if liked {
        icon := Some(RedHeart);
      } else {
        icon := Some(WhiteHeart);
      }
      return false;
    }
  }

  /** Two clicks restore the like state, and leave an existing icon matching
      it even if it did not before. */
  method ToggleTwice(button: LikeButton)
    modifies button
    ensures button.liked == old(button.liked)
    ensures old(button.icon).None? ==> button.icon == None
    ensures old(button.icon).Some? ==> button.icon == Some(HeartIcon(button.liked))
    ensures old(button.icon) == Some(HeartIcon(old(button.liked))) ==> button.icon == old(button.icon)
  {
    var threw := button.ToggleLike();
    threw := button.ToggleLike();
  }
}
