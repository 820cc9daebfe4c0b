/** The page-step rule of the keyboard and touch handlers (src/takahashi.js:89-90, 96-97, 170-183).
    `availablePageNumbers` and `currentPageNumber` are module-level variables of the source; here
    they are the fields of one Navigator object. */
module Navigation {

  /** `0..n-1`, the page numbers that `generateSlides` registers for `n` slides. */
  function Pages(n: nat): (r: seq<int>)
    ensures |r| == n && forall i :: 0 <= i < n ==> r[i] == i
  {
    seq(n, i => i)
  }

  /** `{39: 1, 37: -1}[e.which]`, with an absent key (undefined, falsy) as 0. */
  function KeyOffset(which: int): (r: int)
    ensures -1 <= r <= 1
    ensures r != 0 <==> which == 39 || which == 37
  {
    if which == 39 then 1 else if which == 37 then -1 else 0
  }

  /** The touch offset: +1 on the right half of the window, -1 on the left half. */
  function TouchOffset(pageX: real, innerWidth: real): (r: int)
    ensures r == 1 || r == -1
    ensures r == 1 <==> pageX > innerWidth / 2.0
  {
    if pageX > innerWidth / 2.0 then 1 else -1
  }

  /** The page shown after a step by `offset` from `current` with `count` pages. The step moves
      only when the target is a page (`to in availablePageNumbers`, an index test) and the current
      page is one too: from any other page `switchSlide` fails on the missing slide element
      before it assigns the new page number, so the page stays. */
  function Stepped(current: int, offset: int, count: nat): (r: int)
    ensures r == current || r == current + offset
  {
    var to := current + offset;
    if offset != 0 && 0 <= to < count && 0 <= current < count then to else current
  }

  /** A step moves by exactly the offset when the offset is non-zero and both the current page and
      the target are pages, and otherwise not at all; so a shown page stays a page, and a current
      page outside the pages never changes. */
  lemma SteppedStaysOnPages(current: int, offset: int, count: nat)
    ensures var r := Stepped(current, offset, count);
      && (r == current + offset <==> offset == 0 || (0 <= current < count && 0 <= current + offset < count))
      && (!(offset != 0 && 0 <= current < count && 0 <= current + offset < count) ==> r == current)
      && (!(0 <= current < count) ==> r == current)
      && (r != current ==> 0 <= r < count)
      && (0 <= current < count ==> 0 <= r < count)
  {
  }

  /** From a page, a step forward that moves is undone by a step back, and the other way round. */
  lemma SteppedBackAndForth(current: int, count: nat)
    requires 0 <= current < count
    ensures Stepped(current, 1, count) != current ==> Stepped(Stepped(current, 1, count), -1, count) == current
    ensures Stepped(current, -1, count) != current ==> Stepped(Stepped(current, -1, count), 1, count) == current
  {
  }

  /** The index test of `to in availablePageNumbers` agrees with membership of the value, because
      the array holds its own indices. */
  lemma IndexTestIsMembership(to: int, count: nat)
    ensures 0 <= to < count <==> to in Pages(count)
  {
    if to in Pages(count) {
      var i :| 0 <= i < count && Pages(count)[i] == to;
    }
    if 0 <= to < count {
      assert Pages(count)[to] == to;
    }
  }

  class Navigator {
    var availablePageNumbers: seq<int>
    var currentPageNumber: int

    /** `generateSlides` pushing every slide's index, then `main` setting the first page shown
        (the initial page comes from the URL fragment, which is not modelled). */
    constructor (slideCount: nat, initialPage: int)
      ensures availablePageNumbers == Pages(slideCount)
      ensures currentPageNumber == initialPage
    {
      var pages: seq<int> := [];
      var i := 0;
      while i < slideCount
        invariant 0 <= i <= slideCount
        invariant pages == Pages(i)
      {
        pages := pages + [i];
        i := i + 1;
      }
      availablePageNumbers := pages;
      currentPageNumber := initialPage;
    }

    /** `document.onkeydown`: right arrow (39) steps forward, left arrow (37) back, other keys do
        nothing. */
    method KeyDown(which: int)
      modifies this
      ensures availablePageNumbers == old(availablePageNumbers)
      ensures currentPageNumber == Stepped(old(currentPageNumber), KeyOffset(which), |availablePageNumbers|)
    {
      var offset := KeyOffset(which);
      if offset != 0 {
        var to := currentPageNumber + offset;
        if 0 <= to < |availablePageNumbers| {
          if !(0 <= currentPageNumber < |availablePageNumbers|) {
            // switchSlide finds no slide element for the current page and fails before the update
            return;
          }
          currentPageNumber := to;
        }
      }
    }

    /** `document.ontouchstart`: a touch on a link does nothing; otherwise the right half of the
        window steps forward and the left half back. */
    method TouchStart(onLink: bool, pageX: real, innerWidth: real)
      modifies this
      ensures availablePageNumbers == old(availablePageNumbers)
      ensures currentPageNumber == if onLink then old(currentPageNumber)
        else Stepped(old(currentPageNumber), TouchOffset(pageX, innerWidth), |availablePageNumbers|)
    {
      if onLink {
        return;
      }
      var to := currentPageNumber + (if pageX > innerWidth / 2.0 then 1 else -1);
      if 0 <= to < |availablePageNumbers| {
        if !(0 <= currentPageNumber < |availablePageNumbers|) {
          // as in KeyDown: switchSlide fails before the update
          return;
        }
        currentPageNumber := to;
      }
    }
  }
}
