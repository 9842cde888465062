/** The auto-scrolling testimonial slider: slides, indicator dots and a
    five-second interval. Timers are handles, as in the hero carousel. */
module Testimonials {
  import opened Wrappers
  import opened Slides

  class TestimonialSlider {
    /** `this.currentSlide`. */
    var currentSlide: nat
    /** The active flag of each `.testimonials__slide`. */
    var slides: array<bool>
    /** The active flag of each `.testimonials__indicator`. */
    var indicators: array<bool>
    /** `this.interval`; `None` is `null`. */
    var interval: Option<nat>
    /** The interval handles still scheduled. */
    var live: set<nat>
    /** The handle the next `setInterval` returns. */
    var nextHandle: nat
    /** Whether `init` installed the indicator listeners. */
    var indicatorsWired: bool

    /** As for the hero carousel: distinct flag rows, the held handle is
        scheduled, handles are fresh and truthy, and listeners and intervals
        exist only when there are slides. */
    predicate Valid()
      reads this
    {
      Handles() && (interval.Some? ==> interval.value in live)
    }

    /** All of `Valid` but the held handle being scheduled, which
        `resetInterval` breaks between its `clearInterval` and `start`. */
    predicate Handles()
      reads this
    {
      slides != indicators
      && nextHandle >= 1
      && (forall h :: h in live ==> 1 <= h < nextHandle)
      && ((indicatorsWired || live != {}) ==> slides.Length > 0)
    }

    /** `new TestimonialSlider()`: with no slides `init` returns at once;
        otherwise it installs the indicator listeners, shows testimonial 0
        and starts the interval. */
    constructor (slideFlags: seq<bool>, indicatorFlags: seq<bool>)
      ensures Valid()
      ensures fresh(slides) && fresh(indicators)
      ensures currentSlide == 0
      ensures |slideFlags| == 0 ==>
                slides[..] == slideFlags && indicators[..] == indicatorFlags
                && interval == None && live == {} && !indicatorsWired
      ensures |slideFlags| > 0 ==>
                slides[..] == OneHot(|slideFlags|, 0)
                && indicators[..] == OneHot(|indicatorFlags|, 0)
                && interval.Some? && live == {interval.value} && indicatorsWired
    {
      currentSlide := 0;
      slides := new bool[|slideFlags|](k requires 0 <= k < |slideFlags| => slideFlags[k]);
      indicators := new bool[|indicatorFlags|](k requires 0 <= k < |indicatorFlags| => indicatorFlags[k]);
      interval := None;
      live := {};
      nextHandle := 1;
      indicatorsWired := false;
      new;
      if |slideFlags| > 0 {
        indicatorsWired := true;
        ShowTestimonial(0);
        Start();
      }
    }

    /** `showTestimonial(index)`: only slide `index` and indicator `index`
        are active, and the index is recorded. */
    method ShowTestimonial(index: nat)
      requires Valid()
      modifies this`currentSlide, slides, indicators
      ensures Valid()
      ensures slides[..] == OneHot(slides.Length, index)
      ensures indicators[..] == OneHot(indicators.Length, index)
      ensures currentSlide == index
    {
      ShowOnly(slides, index);
      ShowOnly(indicators, index);
      currentSlide := index;
    }

    /** `nextTestimonial()`. */
    method NextTestimonial()
      requires Valid() && slides.Length > 0
      modifies this`currentSlide, slides, indicators
      ensures Valid()
      ensures currentSlide == NextIndex(old(currentSlide), slides.Length)
      ensures slides[..] == OneHot(slides.Length, currentSlide)
      ensures indicators[..] == OneHot(indicators.Length, currentSlide)
    {
      ShowTestimonial(NextIndex(currentSlide, slides.Length));
    }

    /** `start()`: schedules a fresh interval; a handle already held is
        overwritten but stays scheduled. */
    method Start()
      requires Handles() && slides.Length > 0
      modifies this`interval, this`live, this`nextHandle
      ensures Valid()
      ensures interval == Some(old(nextHandle)) && old(nextHandle) !in old(live)
      ensures live == old(live) + {old(nextHandle)}
    {
      interval := Some(nextHandle);
      live := live + {nextHandle};
      nextHandle := nextHandle + 1;
    }

    /** `resetInterval()`: the held interval, if any, is cleared before a
        fresh one starts. */
    method ResetInterval()
      requires Valid() && slides.Length > 0
      modifies this`interval, this`live, this`nextHandle
      ensures Valid()
      ensures interval.Some? && interval.value !in old(live)
      ensures live == (if old(interval).Some? then old(live) - {old(interval).value} else old(live))
                      + {interval.value}
    {
      if interval.Some? {
        live := live - {interval.value};
      }
      Start();
    }

    /** A click on indicator `k`: show testimonial `k`, then reset the
        interval. */
    method ClickIndicator(k: nat)
      requires Valid() && indicatorsWired && k < indicators.Length
      modifies this`currentSlide, this`interval, this`live, this`nextHandle, slides, indicators
      ensures Valid()
      ensures currentSlide == k
      ensures slides[..] == OneHot(slides.Length, k) && indicators[..] == OneHot(indicators.Length, k)
      ensures interval.Some? && interval.value !in old(live)
      ensures live == (if old(interval).Some? then old(live) - {old(interval).value} else old(live))
                      + {interval.value}
    {
      ShowTestimonial(k);
      ResetInterval();
    }

    /** One scheduled interval fires: the slider moves on a testimonial. */
    method Tick(handle: nat)
      requires Valid() && handle in live
      modifies this`currentSlide, slides, indicators
      ensures Valid()
      ensures currentSlide == NextIndex(old(currentSlide), slides.Length)
      ensures slides[..] == OneHot(slides.Length, currentSlide)
      ensures indicators[..] == OneHot(indicators.Length, currentSlide)
    {
      NextTestimonial();
    }
  }
}
