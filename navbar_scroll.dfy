/**
 * The navbar's scroll handler (`initNavbarScroll` in script.js). On every
 * scroll event it picks the navbar style from the current offset, then
 * visits the page's sections in document order; each section that contains
 * the offset clears the colour of every nav link and highlights its own
 * link, if it has one. Offsets are whole pixels here.
 */
module NavbarScroll {

  datatype Option<T> = None | Some(value: T)

  /** The two looks of the navbar: the translucent default and the darker, shadowed one. */
  datatype Style = Default | Scrolled

  /** Offset beyond which the navbar takes its scrolled look. */
  const ScrolledThreshold := 100

  /** Allowance for the fixed header, subtracted from a section's top before the offset is compared with it. */
  const HeaderOffset := 100

  /**
   * A `section[id]` element: its `offsetTop`, its `offsetHeight`, and the
   * position among the nav links of the link whose `href` names it (`None`
   * when no nav link points at it).
   */
  datatype Section = Section(top: int, height: int, link: Option<nat>)

  /** The section contains the scroll offset, measured from 100 px above its top. */
  predicate Matches(s: Section, scroll: int)
    ensures Matches(s, scroll) ==> s.height > 0 && s.top - HeaderOffset <= scroll
  {
    var sectionTop := s.top - HeaderOffset;
    sectionTop <= scroll < sectionTop + s.height
  }

  /** Every section's nav link is one of the `n` nav links. */
  predicate LinksWithin(sections: seq<Section>, n: nat) {
    forall i :: 0 <= i < |sections| && sections[i].link.Some? ==> sections[i].link.value < n
  }

  /** Link colours after one matching section: its own link highlighted, every other link cleared. */
  function OnlyLink(link: Option<nat>, n: nat): (r: seq<bool>)
    ensures |r| == n
    ensures forall j :: 0 <= j < n ==> r[j] == (link == Some(j))
  {
    seq(n, j => link == Some(j))
  }

  /**
   * Link colours (true: highlighted) after the handler has visited
   * `sections` in order, starting from `colours`.
   */
  function Highlight(colours: seq<bool>, sections: seq<Section>, scroll: int): (r: seq<bool>)
    ensures |r| == |colours|
    decreases |sections|
  {
    if sections == [] then colours
    else
      var last := sections[|sections| - 1];
      if Matches(last, scroll) then OnlyLink(last.link, |colours|)
      else Highlight(colours, sections[..|sections| - 1], scroll)
  }

  /** Section `k` is the last section in document order that contains the offset. */
  ghost predicate IsLastMatch(sections: seq<Section>, scroll: int, k: int) {
    0 <= k < |sections| && Matches(sections[k], scroll) &&
    forall j :: k < j < |sections| ==> !Matches(sections[j], scroll)
  }

  /**
   * Last match wins: when no section contains the offset the colours are
   * left as they were; otherwise exactly the link of the last matching
   * section is highlighted, so that when it has no link none is.
   */
  lemma {:induction false} LastMatchWins(colours: seq<bool>, sections: seq<Section>, scroll: int)
    ensures (forall j :: 0 <= j < |sections| ==> !Matches(sections[j], scroll)) ==>
              Highlight(colours, sections, scroll) == colours
    ensures forall k :: IsLastMatch(sections, scroll, k) ==>
              forall j :: 0 <= j < |colours| ==>
                Highlight(colours, sections, scroll)[j] == (sections[k].link == Some(j))
    decreases |sections|
  {
    if sections != [] {
      var n := |sections| - 1;
      var front := sections[..n];
      if Matches(sections[n], scroll) {
        // Only the final section can be the last match.
        forall k | IsLastMatch(sections, scroll, k)
          ensures k == n
        {
        }
      } else {
        LastMatchWins(colours, front, scroll);
        forall k | IsLastMatch(sections, scroll, k)
          ensures IsLastMatch(front, scroll, k) && front[k] == sections[k]
        {
        }
      }
    }
  }

  /** The navbar element, the nav links' colours, and the handler's `lastScroll` variable. */
  class Navbar {
    var style: Style
    var lastScroll: int
    /** One entry per nav link, in document order; true when its colour is set to the highlight. */
    const links: array<bool>

    /**
     * As loaded, `lastScroll` is 0 and no link has a colour set; the navbar's
     * look before the first scroll event comes from the stylesheet and is
     * left unspecified.
     */
    constructor (linkCount: nat)
      ensures lastScroll == 0
      ensures fresh(links) && links.Length == linkCount
      ensures forall j :: 0 <= j < linkCount ==> !links[j]
    {
      lastScroll := 0;
      links := new bool[linkCount](_ => false);
    }

    /** One scroll event at offset `scroll`, over the page's sections in document order. */
    method OnScroll(scroll: int, sections: seq<Section>)
      requires LinksWithin(sections, links.Length)
      modifies this, links
      ensures style == (if scroll > ScrolledThreshold then Scrolled else Default)
      ensures links[..] == Highlight(old(links[..]), sections, scroll)
      ensures lastScroll == scroll
    {
      if scroll > ScrolledThreshold {
        style := Scrolled;
      } else {
        style := Default;
      }

      var i := 0;
      while i < |sections|
        invariant 0 <= i <= |sections|
        invariant links[..] == Highlight(old(links[..]), sections[..i], scroll)
        modifies links
      {
        var section := sections[i];
        if Matches(section, scroll) {
          var j := 0;
          while j < links.Length
            invariant 0 <= j <= links.Length
            invariant forall m :: 0 <= m < j ==> !links[m]
            modifies links
          {
            links[j] := false;
            j := j + 1;
          }
          if section.link.Some? {
            links[section.link.value] := true;
          }
          assert links[..] == OnlyLink(section.link, links.Length);
        }
        assert sections[..i + 1][..i] == sections[..i];
        i := i + 1;
      }
      assert sections[..i] == sections;

      lastScroll := scroll;
    }
  }
}
