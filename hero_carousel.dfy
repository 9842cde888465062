/** The auto-rotating hero carousel: slides and indicator dots, next and
    previous buttons, a five-second interval that pauses while the pointer is
    over the carousel. Timers are handles: `setInterval` hands out a fresh
    number and schedules it, `clearInterval` unschedules it; time passing is
    the `Tick` method, which any still-scheduled handle may fire. */
module Hero {
  import opened Wrappers
  import opened Slides

  class HeroCarousel {
    /** `this.currentSlide`. */
    var currentSlide: nat
    /** The active flag of each `.hero__slide`. */
    var slides: array<bool>
    /** The active flag of each `.hero__indicator`. */
    var indicators: array<bool>
    /** `this.interval`; `None` is `null`. */
    var interval: Option<nat>
    /** The interval handles still scheduled. */
    var live: set<nat>
    /** The handle the next `setInterval` returns. */
    var nextHandle: nat
    /** Which click and hover listeners `init` installed. */
    var nextWired: bool
    var prevWired: bool
    var indicatorsWired: bool
    var hoverWired: bool

    /** The two flag rows are distinct, the current handle (if any) is
        scheduled, every handle given out is below `nextHandle`, and handles
        are truthy numbers. Listeners and intervals exist only when there
        are slides. */
    predicate Valid()
      reads this
    {
      slides != indicators
      && nextHandle >= 1
      && (interval.Some? ==> interval.value in live)
      && (forall h :: h in live ==> 1 <= h < nextHandle)
      && ((nextWired || prevWired || indicatorsWired || hoverWired || live != {}) ==> slides.Length > 0)
    }

    /** `new HeroCarousel()`: reads the slides and indicators (their flags as
        the page has them) and which of the buttons and the carousel element
        exist; with no slides it stops there, otherwise it installs the
        listeners, shows slide 0 and starts the interval. */
    constructor (slideFlags: seq<bool>, indicatorFlags: seq<bool>,
                 hasNext: bool, hasPrev: bool, hasCarousel: bool)
      ensures Valid()
      ensures fresh(slides) && fresh(indicators)
      ensures currentSlide == 0
      ensures |slideFlags| == 0 ==>
                slides[..] == slideFlags && indicators[..] == indicatorFlags
                && interval == None && live == {}
                && !nextWired && !prevWired && !indicatorsWired && !hoverWired
      ensures |slideFlags| > 0 ==>
                slides[..] == OneHot(|slideFlags|, 0)
                && indicators[..] == OneHot(|indicatorFlags|, 0)
                && interval.Some? && live == {interval.value}
                && nextWired == hasNext && prevWired == hasPrev
                && indicatorsWired && hoverWired == hasCarousel
    {
      currentSlide := 0;
      slides := new bool[|slideFlags|](k requires 0 <= k < |slideFlags| => slideFlags[k]);
      indicators := new bool[|indicatorFlags|](k requires 0 <= k < |indicatorFlags| => indicatorFlags[k]);
      interval := None;
      live := {};
      nextHandle := 1;
      nextWired, prevWired, indicatorsWired, hoverWired := false, false, false, false;
      new;
      if |slideFlags| > 0 {
        nextWired, prevWired, indicatorsWired, hoverWired := hasNext, hasPrev, true, hasCarousel;
        ShowSlide(0);
        Start();
      }
    }

    /** `showSlide(index)`: only slide `index` and indicator `index` are
        active (none of a row where the index is past its end), and the
        index is recorded even when it is out of range. */
    method ShowSlide(index: nat)
      requires Valid()
      modifies this`currentSlide, slides, indicators
      ensures Valid()
      ensures slides[..] == OneHot(slides.Length, index)
      ensures indicators[..] == OneHot(indicators.Length, index)
      ensures currentSlide == index
    {
      ShowOnly(slides, index);
      ShowOnly(indicators, index);
      currentSlide := index;
    }

    /** `nextSlide()`. */
    method NextSlide()
      requires Valid() && slides.Length > 0
      modifies this`currentSlide, slides, indicators
      ensures Valid()
      ensures currentSlide == NextIndex(old(currentSlide), slides.Length)
      ensures slides[..] == OneHot(slides.Length, currentSlide)
      ensures indicators[..] == OneHot(indicators.Length, currentSlide)
    {
      ShowSlide(NextIndex(currentSlide, slides.Length));
    }

    /** `prevSlide()`. */
    method PrevSlide()
      requires Valid() && slides.Length > 0
      modifies this`currentSlide, slides, indicators
      ensures Valid()
      ensures currentSlide == PrevIndex(old(currentSlide), slides.Length)
      ensures slides[..] == OneHot(slides.Length, currentSlide)
      ensures indicators[..] == OneHot(indicators.Length, currentSlide)
    {
      ShowSlide(PrevIndex(currentSlide, slides.Length));
    }

    /** `start()`: schedules a fresh interval and keeps its handle; a handle
        already held is overwritten but stays scheduled. */
    method Start()
      requires Valid() && slides.Length > 0
      modifies this`interval, this`live, this`nextHandle
      ensures Valid()
      ensures interval == Some(old(nextHandle)) && old(nextHandle) !in old(live)
      ensures live == old(live) + {old(nextHandle)}
    {
      interval := Some(nextHandle);
      live := live + {nextHandle};
      nextHandle := nextHandle + 1;
    }

    /** `pause()`: unschedules the held interval and forgets it; without
        one it does nothing. */
    method Pause()
      requires Valid()
      modifies this`interval, this`live
      ensures Valid()
      ensures interval == None
      ensures live == if old(interval).Some? then old(live) - {old(interval).value} else old(live)
    {
      if interval.Some? {
        live := live - {interval.value};
        interval := None;
      }
    }

    /** `resetInterval()`: the held interval (if any) is unscheduled and one
        fresh interval takes its place. */
    method ResetInterval()
      requires Valid() && slides.Length > 0
      modifies this`interval, this`live, this`nextHandle
      ensures Valid()
      ensures interval.Some? && interval.value !in old(live)
      ensures live == (if old(interval).Some? then old(live) - {old(interval).value} else old(live))
                      + {interval.value}
    {
      Pause();
      Start();
    }

    /** A click on the next button. */
    method ClickNext()
      requires Valid() && nextWired
      modifies this`currentSlide, this`interval, this`live, this`nextHandle, slides, indicators
      ensures Valid()
      ensures currentSlide == NextIndex(old(currentSlide), slides.Length)
      ensures slides[..] == OneHot(slides.Length, currentSlide)
      ensures indicators[..] == OneHot(indicators.Length, currentSlide)
      ensures interval.Some? && interval.value !in old(live)
      ensures live == (if old(interval).Some? then old(live) - {old(interval).value} else old(live))
                      + {interval.value}
    {
      NextSlide();
      ResetInterval();
    }

    /** A click on the previous button. */
    method ClickPrev()
      requires Valid() && prevWired
      modifies this`currentSlide, this`interval, this`live, this`nextHandle, slides, indicators
      ensures Valid()
      ensures currentSlide == PrevIndex(old(currentSlide), slides.Length)
      ensures slides[..] == OneHot(slides.Length, currentSlide)
      ensures indicators[..] == OneHot(indicators.Length, currentSlide)
      ensures interval.Some? && interval.value !in old(live)
      ensures live == (if old(interval).Some? then old(live) - {old(interval).value} else old(live))
                      + {interval.value}
    {
      PrevSlide();
      ResetInterval();
    }

    /** A click on indicator `k`. */
    method ClickIndicator(k: nat)
      requires Valid() && indicatorsWired && k < indicators.Length
      modifies this`currentSlide, this`interval, this`live, this`nextHandle, slides, indicators
      ensures Valid()
      ensures currentSlide == k
      ensures slides[..] == OneHot(slides.Length, k) && indicators[..] == OneHot(indicators.Length, k)
      ensures interval.Some? && interval.value !in old(live)
      ensures live == (if old(interval).Some? then old(live) - {old(interval).value} else old(live))
                      + {interval.value}
    {
      ShowSlide(k);
      ResetInterval();
    }

    /** The pointer enters the carousel. */
    method MouseEnter()
      requires Valid() && hoverWired
      modifies this`interval, this`live
      ensures Valid() && interval == None
      ensures live == if old(interval).Some? then old(live) - {old(interval).value} else old(live)
    {
      Pause();
    }

    /** The pointer leaves the carousel: `start()` without a `pause()`, so
        leaving twice leaves two intervals scheduled. */
    method MouseLeave()
      requires Valid() && hoverWired
      modifies this`interval, this`live, this`nextHandle
      ensures Valid()
      ensures interval == Some(old(nextHandle)) && live == old(live) + {old(nextHandle)}
    {
      Start();
    }

    /** One scheduled interval fires: the carousel moves on a slide. */
    method Tick(handle: nat)
      requires Valid() && handle in live
      modifies this`currentSlide, slides, indicators
      ensures Valid()
      ensures currentSlide == NextIndex(old(currentSlide), slides.Length)
      ensures slides[..] == OneHot(slides.Length, currentSlide)
      ensures indicators[..] == OneHot(indicators.Length, currentSlide)
    {
      NextSlide();
    }
  }
}
