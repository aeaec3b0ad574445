/** The collapsible section: an open flag and the height style of the
    content wrapper, changed together by the header button. Opening reads the
    content's scroll height, which the host passes in. */
module CollapsibleSection {
  import Strings

  /** The height style: `"auto"` or a pixel value such as `"0px"`. */
  datatype Height = Auto | Px(n: nat)

  const Collapsed: Height := Px(0)

  /** The CSS text of a height, as the template literal prints it. */
  function Css(h: Height): (css: string)
    ensures h == Collapsed ==> css == "0px"
    ensures css == "auto" <==> h == Auto
    ensures h.Px? ==>
      && |css| >= 3 && css[|css| - 2..] == "px"
      && Strings.IsDigits(css[..|css| - 2]) && Strings.DigitsValue(css[..|css| - 2]) == h.n
  {
    match h
    case Auto => "auto"
    case Px(n) =>
      var digits := Strings.NatToString(n);
      var css := digits + "px";
      assert css[|css| - 1] == 'x';
      assert css[..|css| - 2] == digits && css[|css| - 2..] == "px";
      css
  }

  /** Different heights print as different CSS text. */
  lemma CssInjective(a: Height, b: Height)
    requires Css(a) == Css(b)
    ensures a == b
  {
    if a.Px? && b.Px? {
      assert Strings.DigitsValue(Css(a)[..|Css(a)| - 2]) == a.n;
    }
  }

  class CollapsibleSection {
    var isOpen: bool
    var height: Height

    /** Closed sections are collapsed to zero height. */
    ghost predicate Valid()
      reads this
    {
      !isOpen ==> height == Collapsed
    }

    /** The initial state follows `defaultOpen`: open at `"auto"`, or closed
        at `"0px"`. */
    constructor (defaultOpen: bool := false)
      ensures Valid()
      ensures isOpen == defaultOpen
      ensures height == if defaultOpen then Auto else Collapsed
    {
      isOpen := defaultOpen;
      height := if defaultOpen then Auto else Collapsed;
    }

    /** The header button: an open section collapses to `"0px"`; a closed one
        opens to its measured `scrollHeight` in pixels. */
    method Toggle(scrollHeight: nat)
      requires Valid()
      modifies this
      ensures Valid()
      ensures isOpen == !old(isOpen)
      ensures height == if old(isOpen) then Collapsed else Px(scrollHeight)
      ensures height != Auto
    {
      if isOpen {
        height := Collapsed;
        isOpen := false;
      } else {
        height := Px(scrollHeight);
        isOpen := true;
      }
    }
  }

  /** A section given no `defaultOpen` starts closed at `"0px"`, and its
      first toggle opens it to the measured height. */
  method DefaultSection(scrollHeight: nat) returns (initiallyOpen: bool, initialCss: string, openedCss: string)
    ensures !initiallyOpen && initialCss == "0px"
    ensures openedCss == Css(Px(scrollHeight))
  {
    var section := new CollapsibleSection();
    initiallyOpen, initialCss := section.isOpen, Css(section.height);
    section.Toggle(scrollHeight);
    openedCss := Css(section.height);
  }

  /** A section created with `defaultOpen` and toggled once per entry of
      `measured` (the scroll height at that click). It ends open exactly when
      the number of toggles and `defaultOpen` disagree in parity; after any
      toggle the height is never `"auto"` again, an open section shows the
      latest measurement, and a closed one `"0px"`. */
  method ToggleRepeatedly(defaultOpen: bool, measured: seq<nat>)
    returns (isOpen: bool, height: Height)
    ensures isOpen == (defaultOpen != (|measured| % 2 == 1))
    ensures measured == [] ==> height == if defaultOpen then Auto else Collapsed
    ensures measured != [] ==> height != Auto
    ensures measured != [] && isOpen ==> height == Px(measured[|measured| - 1])
    ensures !isOpen ==> height == Collapsed
  {
    var section := new CollapsibleSection(defaultOpen);
    var i := 0;
    while i < |measured|
      invariant 0 <= i <= |measured|
      invariant section.Valid()
      invariant section.isOpen == (defaultOpen != (i % 2 == 1))
      invariant i == 0 ==> section.height == if defaultOpen then Auto else Collapsed
      invariant i > 0 && section.isOpen ==> section.height == Px(measured[i - 1])
      invariant i > 0 ==> section.height != Auto
    {
      section.Toggle(measured[i]);
      i := i + 1;
    }
    isOpen, height := section.isOpen, section.height;
  }
}
