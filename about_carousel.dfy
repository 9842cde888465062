/** The profile carousel of the about section: slides and dots, next and
    previous buttons, no timer. */
module About {
  import opened Slides

  class AboutCarousel {
    /** `this.currentProfile`. */
    var currentProfile: nat
    /** The active flag of each `.about__slide`. */
    var slides: array<bool>
    /** The active flag of each `.about__dot`. */
    var dots: array<bool>
    /** Which click listeners `init` installed. */
    var nextWired: bool
    var prevWired: bool
    var dotsWired: bool

    /** The two flag rows are distinct, and listeners exist only when there
        are slides. */
    predicate Valid()
      reads this
    {
      slides != dots
      && ((nextWired || prevWired || dotsWired) ==> slides.Length > 0)
    }

    /** `new AboutCarousel()`: with no slides nothing is installed and no
        flag changes; otherwise the listeners are installed and profile 0 is
        shown. */
    constructor (slideFlags: seq<bool>, dotFlags: seq<bool>, hasNext: bool, hasPrev: bool)
      ensures Valid()
      ensures fresh(slides) && fresh(dots)
      ensures currentProfile == 0
      ensures |slideFlags| == 0 ==>
                slides[..] == slideFlags && dots[..] == dotFlags
                && !nextWired && !prevWired && !dotsWired
      ensures |slideFlags| > 0 ==>
                slides[..] == OneHot(|slideFlags|, 0) && dots[..] == OneHot(|dotFlags|, 0)
                && nextWired == hasNext && prevWired == hasPrev && dotsWired
    {
      currentProfile := 0;
      slides := new bool[|slideFlags|](k requires 0 <= k < |slideFlags| => slideFlags[k]);
      dots := new bool[|dotFlags|](k requires 0 <= k < |dotFlags| => dotFlags[k]);
      nextWired, prevWired, dotsWired := false, false, false;
      new;
      if |slideFlags| > 0 {
        nextWired, prevWired, dotsWired := hasNext, hasPrev, true;
        ShowProfile(0);
      }
    }

    /** `showProfile(index)`: only slide `index` and dot `index` are active
        (none of a row where the index is past its end), and the index is
        recorded even when it is out of range. */
    method ShowProfile(index: nat)
      requires Valid()
      modifies this`currentProfile, slides, dots
      ensures Valid()
      ensures slides[..] == OneHot(slides.Length, index)
      ensures dots[..] == OneHot(dots.Length, index)
      ensures currentProfile == index
    {
      ShowOnly(slides, index);
      ShowOnly(dots, index);
      currentProfile := index;
    }

    /** A click on the next button: `(currentProfile + 1) % slides.length`. */
    method ClickNext()
      requires Valid() && nextWired
      modifies this`currentProfile, slides, dots
      ensures Valid()
      ensures currentProfile == NextIndex(old(currentProfile), slides.Length)
      ensures slides[..] == OneHot(slides.Length, currentProfile)
      ensures dots[..] == OneHot(dots.Length, currentProfile)
    {
      ShowProfile(NextIndex(currentProfile, slides.Length));
    }

    /** A click on the previous button:
        `(currentProfile - 1 + slides.length) % slides.length`. */
    method ClickPrev()
      requires Valid() && prevWired
      modifies this`currentProfile, slides, dots
      ensures Valid()
      ensures currentProfile == PrevIndex(old(currentProfile), slides.Length)
      ensures slides[..] == OneHot(slides.Length, currentProfile)
      ensures dots[..] == OneHot(dots.Length, currentProfile)
    {
      ShowProfile(PrevIndex(currentProfile, slides.Length));
    }

    /** A click on dot `k`: `showProfile(k)`, even when there are more dots
        than slides. */
    method ClickDot(k: nat)
      requires Valid() && dotsWired && k < dots.Length
      modifies this`currentProfile, slides, dots
      ensures Valid()
      ensures currentProfile == k
      ensures slides[..] == OneHot(slides.Length, k) && dots[..] == OneHot(dots.Length, k)
    {
      ShowProfile(k);
    }
  }
}
