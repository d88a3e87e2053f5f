/**
 * The mobile navigation menu (`initMobileNavigation` in script.js): the
 * hamburger button and the list of nav links each carry an `active` class.
 * A click on the hamburger toggles both; a click on any nav link removes it
 * from both.
 */
module MobileMenu {

  /** The two `active` class flags. */
  datatype Flags = Flags(hamburgerActive: bool, navActive: bool)

  /** The menu is consistent when the button and the list agree. */
  predicate InSync(f: Flags) {
    f.hamburgerActive == f.navActive
  }

  /** A hamburger click: `classList.toggle('active')` on each element, independently. */
  function Toggled(f: Flags): (r: Flags)
    ensures r.hamburgerActive != f.hamburgerActive && r.navActive != f.navActive
  {
    Flags(!f.hamburgerActive, !f.navActive)
  }

  /** A nav-link click: `classList.remove('active')` on both elements. */
  function Cleared(f: Flags): (r: Flags)
    ensures !r.hamburgerActive && !r.navActive
  {
    Flags(false, false)
  }

  /** Two hamburger clicks in a row restore the flags. */
  lemma ToggleTwice(f: Flags)
    ensures Toggled(Toggled(f)) == f
  {
  }

  /** A hamburger click keeps equal flags equal, and unequal flags unequal. */
  lemma ToggleKeepsSync(f: Flags)
    ensures InSync(Toggled(f)) <==> InSync(f)
  {
  }

  /** A second link click changes nothing. */
  lemma ClearIdempotent(f: Flags)
    ensures Cleared(Cleared(f)) == Cleared(f)
  {
  }

  /** The click events the menu can receive. */
  datatype Click = Hamburger | NavLink

  /** The flags after one click; either click keeps equal flags equal, and a link click closes the menu. */
  function Apply(f: Flags, c: Click): (r: Flags)
    ensures InSync(f) ==> InSync(r)
    ensures c == NavLink ==> r == Flags(false, false)
  {
    match c
    case Hamburger => Toggled(f)
    case NavLink => Cleared(f)
  }

  /**
   * The flags after a sequence of clicks, in order. Flags that start equal
   * stay equal, and a sequence that ends with a link click leaves the menu
   * closed.
   */
  function ApplyAll(f: Flags, clicks: seq<Click>): (r: Flags)
    ensures InSync(f) ==> InSync(r)
    ensures clicks != [] && clicks[|clicks| - 1] == NavLink ==> r == Flags(false, false)
    decreases |clicks|
  {
    if clicks == [] then f else ApplyAll(Apply(f, clicks[0]), clicks[1..])
  }

  /** The number of hamburger clicks in `clicks`. */
  function Toggles(clicks: seq<Click>): nat
    decreases |clicks|
  {
    if clicks == [] then 0 else (if clicks[0] == Hamburger then 1 else 0) + Toggles(clicks[1..])
  }

  /**
   * Whether the menu is open after a sequence of clicks: if there was no
   * link click, each flag is its start value flipped once per hamburger
   * click; otherwise the menu is open exactly when an odd number of
   * hamburger clicks followed the last link click.
   */
  lemma {:induction false} ApplyAllOpen(f: Flags, clicks: seq<Click>)
    ensures NavLink !in clicks ==>
              ApplyAll(f, clicks).hamburgerActive == (f.hamburgerActive != (Toggles(clicks) % 2 == 1)) &&
              ApplyAll(f, clicks).navActive == (f.navActive != (Toggles(clicks) % 2 == 1))
    ensures forall k :: 0 <= k < |clicks| && clicks[k] == NavLink && NavLink !in clicks[k + 1..] ==>
              ApplyAll(f, clicks).hamburgerActive == (Toggles(clicks[k + 1..]) % 2 == 1) &&
              ApplyAll(f, clicks).navActive == (Toggles(clicks[k + 1..]) % 2 == 1)
    decreases |clicks|
  {
    if clicks != [] {
      var g := Apply(f, clicks[0]);
      ApplyAllOpen(g, clicks[1..]);
      forall k | 0 <= k < |clicks| && clicks[k] == NavLink && NavLink !in clicks[k + 1..]
        ensures ApplyAll(f, clicks).hamburgerActive == (Toggles(clicks[k + 1..]) % 2 == 1)
        ensures ApplyAll(f, clicks).navActive == (Toggles(clicks[k + 1..]) % 2 == 1)
      {
        if k > 0 {
          assert clicks[1..][k - 1] == NavLink && clicks[1..][k..] == clicks[k + 1..];
        } else {
          assert NavLink !in clicks[1..] && g == Flags(false, false);
        }
      }
    }
  }

  /** The two DOM elements whose `active` class the handlers change. */
  class Menu {
    var hamburgerActive: bool
    var navActive: bool

    function Current(): Flags
      reads this
    {
      Flags(hamburgerActive, navActive)
    }

    /** As loaded, neither element carries the `active` class. */
    constructor ()
      ensures Current() == Flags(false, false)
    {
      hamburgerActive, navActive := false, false;
    }

    method ClickHamburger()
      modifies this
      ensures Current() == Toggled(old(Current()))
      ensures InSync(Current()) <==> old(InSync(Current()))
    {
      ToggleKeepsSync(Current());
      hamburgerActive := !hamburgerActive;
      navActive := !navActive;
    }

    method ClickLink()
      modifies this
      ensures Current() == Cleared(old(Current()))
      ensures !hamburgerActive && !navActive
    {
      hamburgerActive := false;
      navActive := false;
    }
  }
}
