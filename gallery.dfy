/**
 * The gallery page of js/main.js: the shared slide index `currentSlide`,
 * the carousel rendering of goToSlide, the lightbox that reads and writes
 * the same index, the auto-advance interval, and the triggers that drive
 * them (buttons, indicators, swipe, keyboard, resize, page visibility).
 *
 * DOM effects are kept as abstract state: the track's translateX offset in
 * percent, the `active` class of each indicator button, and the src/alt the
 * lightbox image shows. The browser's interval table is the set of running
 * interval handles plus the next handle setInterval will return.
 */
module Gallery {

  import opened Wrappers
  import opened Navigation
  import opened Discovery

  /** The keys the gallery's keydown listeners distinguish. */
  datatype Key = ArrowLeft | ArrowRight | Escape | OtherKey

  class Site {
    /** galleryImages, fixed once discovery has finished. */
    const images: seq<Image>
    /** The `active` class of each indicator button, in order. */
    const indicators: array<bool>
    /** currentSlide. */
    var current: int
    /** The slide the track's transform was last computed from:
        translateX(-rendered * 100%). */
    var rendered: int
    /** isLightboxOpen. */
    var lightboxOpen: bool
    /** The src and alt of the lightbox image, once the script has set them. */
    var shown: Option<Image>
    /** The touch coordinates captured by touchstart and touchend. */
    var startX: int
    var endX: int
    /** slideInterval: the handle of the interval started last, if any. */
    var slideInterval: Option<nat>
    /** The intervals the browser is running. */
    var live: set<nat>
    /** The handle the next setInterval call returns. */
    var nextHandle: nat

    /** The handles the script still holds and can clear. */
    ghost function Held(): set<nat>
      reads this
    {
      if slideInterval.Some? then {slideInterval.value} else {}
    }

    /** The track's horizontal offset, in percent of the viewport width. */
    function TrackOffset(): int
      reads this
    {
      -rendered * 100
    }

    /** The carousel displays slide k: the track is shifted left by k
        viewport widths and exactly the k-th indicator is active. */
    ghost predicate Shows(k: int)
      reads this, indicators
    {
      // The second conjunct follows from the first; it records the value
      // the track's transform carries.
      && rendered == k && TrackOffset() == -k * 100
      && forall i | 0 <= i < indicators.Length :: indicators[i] == (i == k)
    }

    /** What every handler keeps: a valid current index, a rendered slide
        that exists, and at most the one interval the script holds running. */
    ghost predicate Valid()
      reads this, indicators
    {
      && |images| > 0
      && indicators.Length == |images|
      && 0 <= current < |images|
      && 0 <= rendered < |images| && Shows(rendered)
      && live <= Held()
      && (forall h | h in live :: h < nextHandle)
    }

    /** While the lightbox is open it displays the current slide's image. */
    ghost predicate Synced()
      reads this
    {
      lightboxOpen ==> 0 <= current < |images| && shown == Some(images[current])
    }

    /** No two auto-advance intervals ever run together. */
    lemma AtMostOneInterval()
      requires Valid()
      ensures |live| <= 1
    {
      if slideInterval.Some? {
        assert live <= {slideInterval.value};
        if live != {} {
          assert live == {slideInterval.value};
        }
      }
    }

    /** initializeGallery once discovery has returned: the indicators are
        created with the first one active, and the auto-advance starts. */
    constructor (discovered: seq<Image>)
      requires |discovered| > 0
      ensures Valid() && Synced()
      ensures images == discovered && current == 0 && Shows(0) && !lightboxOpen
      ensures live == {0} && slideInterval == Some(0)
      ensures fresh(indicators)
    {
      images := discovered;
      indicators := new bool[|discovered|](i => i == 0);
      current := 0;
      rendered := 0;
      lightboxOpen := false;
      shown := None;
      startX, endX := 0, 0;
      slideInterval := None;
      live := {};
      nextHandle := 0;
      new;
      StartAutoSlide();
    }

    /** goToSlide: store the index wrapped into range, then shift the track
        and mark the matching indicator as the only active one. */
    method GoToSlide(index: int)
      requires Valid()
      modifies this`current, this`rendered, indicators
      ensures Valid()
      ensures current == index % |images|
      ensures Shows(current)
    {
      NormalizeIsEuclideanMod(index, |images|);
      var k := Normalize(index, |images|);
      current := k;
      rendered := k;
      for i := 0 to indicators.Length
        invariant current == k && rendered == k
        invariant forall j | 0 <= j < i :: indicators[j] == (j == k)
      {
        indicators[i] := i == k;
      }
    }

    /** startAutoSlide: ask the browser for a new interval and hold its handle. */
    method StartAutoSlide()
      requires Valid() && live == {}
      modifies this`slideInterval, this`live, this`nextHandle
      ensures Valid()
      ensures slideInterval == Some(old(nextHandle)) && live == {old(nextHandle)}
      ensures nextHandle == old(nextHandle) + 1
    {
      slideInterval := Some(nextHandle);
      live := live + {nextHandle};
      nextHandle := nextHandle + 1;
    }

    /** clearInterval(slideInterval): stop the held interval, if any. */
    method ClearSlideInterval()
      requires Valid()
      modifies this`live
      ensures Valid()
      ensures live == old(live) - Held() && live == {}
    {
      if slideInterval.Some? {
        live := live - {slideInterval.value};
      }
    }

    /** resetAutoSlide: cancel, then start afresh. */
    method ResetAutoSlide()
      requires Valid()
      modifies this`slideInterval, this`live, this`nextHandle
      ensures Valid()
      ensures slideInterval == Some(old(nextHandle)) && live == {old(nextHandle)}
      ensures nextHandle == old(nextHandle) + 1
    {
      ClearSlideInterval();
      StartAutoSlide();
    }

    /** The visibilitychange listener: a hidden page runs no interval; a page
        shown again runs exactly one, freshly started. */
    method VisibilityChange(hidden: bool)
      requires Valid()
      modifies this`slideInterval, this`live, this`nextHandle
      ensures Valid()
      ensures hidden ==> live == {} && slideInterval == old(slideInterval) && nextHandle == old(nextHandle)
      ensures !hidden ==>
        slideInterval == Some(old(nextHandle)) && live == {old(nextHandle)}
        && nextHandle == old(nextHandle) + 1
    {
      if hidden {
        ClearSlideInterval();
      } else {
        ResetAutoSlide();
      }
    }

    /** One firing of a running auto-advance interval: advance by one slide
        and, while the lightbox is open, show the new slide there too. */
    method Tick()
      requires Valid() && live != {}
      modifies this`current, this`rendered, indicators, this`shown
      ensures Valid() && Synced()
      ensures current == (old(current) + 1) % |images| && Shows(current)
      ensures !lightboxOpen ==> shown == old(shown)
    {
      GoToSlide(current + 1);
      if lightboxOpen {
        UpdateLightboxImage();
      }
    }

    /** The interval callback as the script writes it: goToSlide alone,
        leaving the lightbox image as it was. */
    method TickAsWritten()
      requires Valid() && live != {}
      modifies this`current, this`rendered, indicators
      ensures Valid()
      ensures current == (old(current) + 1) % |images| && Shows(current)
    {
      GoToSlide(current + 1);
    }

    /** The previous button: retreat and restart the countdown. */
    method PrevClick()
      requires Valid()
      modifies this`current, this`rendered, indicators, this`slideInterval, this`live, this`nextHandle
      ensures Valid()
      ensures current == (old(current) - 1) % |images| && Shows(current)
      ensures slideInterval == Some(old(nextHandle)) && live == {old(nextHandle)}
      ensures nextHandle == old(nextHandle) + 1
    {
      GoToSlide(current - 1);
      ResetAutoSlide();
    }

    /** The next button: advance and restart the countdown. */
    method NextClick()
      requires Valid()
      modifies this`current, this`rendered, indicators, this`slideInterval, this`live, this`nextHandle
      ensures Valid()
      ensures current == (old(current) + 1) % |images| && Shows(current)
      ensures slideInterval == Some(old(nextHandle)) && live == {old(nextHandle)}
      ensures nextHandle == old(nextHandle) + 1
    {
      GoToSlide(current + 1);
      ResetAutoSlide();
    }

    /** A click on the i-th indicator: jump there; the countdown is not restarted. */
    method IndicatorClick(i: int)
      requires Valid() && 0 <= i < |images|
      modifies this`current, this`rendered, indicators
      ensures Valid()
      ensures current == i && Shows(i)
    {
      DivModUnique(i, 0, i, |images|);
      GoToSlide(i);
    }

    /** The resize listener: re-render the current slide. */
    method Resize()
      requires Valid()
      modifies this`current, this`rendered, indicators
      ensures Valid()
      ensures current == old(current) && Shows(current)
    {
      DivModUnique(current, 0, current, |images|);
      GoToSlide(current);
    }

    /** touchstart: remember where the finger went down. */
    method TouchStart(x: int)
      modifies this`startX
      ensures startX == x
    {
      startX := x;
    }

    /** touchend: remember where the finger left, then classify the swipe. */
    method TouchEnd(x: int)
      requires Valid()
      modifies this`endX, this`current, this`rendered, indicators, this`slideInterval, this`live, this`nextHandle
      ensures Valid() && endX == x
      ensures startX - x > SwipeThreshold ==>
        current == (old(current) + 1) % |images| && Shows(current)
        && slideInterval == Some(old(nextHandle)) && live == {old(nextHandle)}
        && nextHandle == old(nextHandle) + 1
      ensures x - startX > SwipeThreshold ==>
        current == (old(current) - 1) % |images| && Shows(current)
        && slideInterval == Some(old(nextHandle)) && live == {old(nextHandle)}
        && nextHandle == old(nextHandle) + 1
      ensures -SwipeThreshold <= startX - x <= SwipeThreshold ==>
        current == old(current) && rendered == old(rendered) && indicators[..] == old(indicators[..])
        && slideInterval == old(slideInterval) && live == old(live) && nextHandle == old(nextHandle)
    {
      endX := x;
      HandleSwipe();
    }

    /** handleSwipe: a horizontal move of more than the threshold advances
        (leftward) or retreats (rightward) and restarts the countdown;
        anything shorter, exactly the threshold included, changes nothing. */
    method HandleSwipe()
      requires Valid()
      modifies this`current, this`rendered, indicators, this`slideInterval, this`live, this`nextHandle
      ensures Valid()
      ensures startX - endX > SwipeThreshold ==>
        current == (old(current) + 1) % |images| && Shows(current)
        && slideInterval == Some(old(nextHandle)) && live == {old(nextHandle)}
        && nextHandle == old(nextHandle) + 1
      ensures endX - startX > SwipeThreshold ==>
        current == (old(current) - 1) % |images| && Shows(current)
        && slideInterval == Some(old(nextHandle)) && live == {old(nextHandle)}
        && nextHandle == old(nextHandle) + 1
      ensures -SwipeThreshold <= startX - endX <= SwipeThreshold ==>
        current == old(current) && rendered == old(rendered) && indicators[..] == old(indicators[..])
        && slideInterval == old(slideInterval) && live == old(live) && nextHandle == old(nextHandle)
    {
      match SwipeIntent(startX, endX)
      case Advance =>
        GoToSlide(current + 1);
        ResetAutoSlide();
      case Retreat =>
        GoToSlide(current - 1);
        ResetAutoSlide();
      case Ignore =>
    }

    /** The carousel's keydown listener: arrows move the carousel, but only
        while the lightbox is closed and the focus is inside the gallery. */
    method CarouselKeyDown(key: Key, inGallery: bool)
      requires Valid()
      modifies this`current, this`rendered, indicators, this`slideInterval, this`live, this`nextHandle
      ensures Valid()
      ensures !lightboxOpen && inGallery && key == ArrowLeft ==>
        current == (old(current) - 1) % |images| && Shows(current)
        && slideInterval == Some(old(nextHandle)) && live == {old(nextHandle)}
        && nextHandle == old(nextHandle) + 1
      ensures !lightboxOpen && inGallery && key == ArrowRight ==>
        current == (old(current) + 1) % |images| && Shows(current)
        && slideInterval == Some(old(nextHandle)) && live == {old(nextHandle)}
        && nextHandle == old(nextHandle) + 1
      ensures lightboxOpen || !inGallery || (key != ArrowLeft && key != ArrowRight) ==>
        current == old(current) && rendered == old(rendered) && indicators[..] == old(indicators[..])
        && slideInterval == old(slideInterval) && live == old(live) && nextHandle == old(nextHandle)
    {
      if !lightboxOpen && inGallery {
        if key == ArrowLeft {
          GoToSlide(current - 1);
          ResetAutoSlide();
        } else if key == ArrowRight {
          GoToSlide(current + 1);
          ResetAutoSlide();
        }
      }
    }

    /** The lightbox's keydown listener: while open, Escape closes it and the
        arrows step through the slides, putting the new slide's image in the
        lightbox (whatever it showed before). */
    method LightboxKeyDown(key: Key)
      requires Valid()
      modifies this`current, this`rendered, indicators, this`shown, this`lightboxOpen
      ensures Valid()
      ensures old(Synced()) ==> Synced()
      ensures old(lightboxOpen) && key == Escape ==>
        !lightboxOpen && current == old(current) && rendered == old(rendered)
        && indicators[..] == old(indicators[..]) && shown == old(shown)
      ensures old(lightboxOpen) && key == ArrowLeft ==>
        lightboxOpen && current == (old(current) - 1) % |images| && Shows(current)
        && shown == Some(images[current]) && Synced()
      ensures old(lightboxOpen) && key == ArrowRight ==>
        lightboxOpen && current == (old(current) + 1) % |images| && Shows(current)
        && shown == Some(images[current]) && Synced()
      ensures !old(lightboxOpen) || key == OtherKey ==>
        lightboxOpen == old(lightboxOpen) && current == old(current) && rendered == old(rendered)
        && indicators[..] == old(indicators[..]) && shown == old(shown)
    {
      if lightboxOpen {
        if key == Escape {
          CloseLightbox();
        } else if key == ArrowLeft {
          GoToSlide(current - 1);
          UpdateLightboxImage();
        } else if key == ArrowRight {
          GoToSlide(current + 1);
          UpdateLightboxImage();
        }
      }
    }

    /** A keydown on the document reaches the carousel's listener first, as
        it was registered first, then the lightbox's. The open flag decides
        which one acts; the lightbox never restarts the countdown. */
    method KeyDown(key: Key, inGallery: bool)
      requires Valid()
      modifies this`current, this`rendered, indicators, this`shown, this`lightboxOpen
      modifies this`slideInterval, this`live, this`nextHandle
      ensures Valid()
      ensures old(Synced()) ==> Synced()
      // Lightbox open: only the lightbox's listener acts.
      ensures old(lightboxOpen) ==>
        slideInterval == old(slideInterval) && live == old(live) && nextHandle == old(nextHandle)
      ensures old(lightboxOpen) && key == Escape ==>
        !lightboxOpen && current == old(current) && rendered == old(rendered)
        && indicators[..] == old(indicators[..]) && shown == old(shown)
      ensures old(lightboxOpen) && key == ArrowLeft ==>
        lightboxOpen && current == (old(current) - 1) % |images| && Shows(current)
        && shown == Some(images[current]) && Synced()
      ensures old(lightboxOpen) && key == ArrowRight ==>
        lightboxOpen && current == (old(current) + 1) % |images| && Shows(current)
        && shown == Some(images[current]) && Synced()
      ensures old(lightboxOpen) && key == OtherKey ==>
        lightboxOpen && current == old(current) && rendered == old(rendered)
        && indicators[..] == old(indicators[..]) && shown == old(shown)
      // Lightbox closed: only the carousel's listener acts.
      ensures !old(lightboxOpen) ==> !lightboxOpen && shown == old(shown)
      ensures !old(lightboxOpen) && inGallery && key == ArrowLeft ==>
        current == (old(current) - 1) % |images| && Shows(current)
        && slideInterval == Some(old(nextHandle)) && live == {old(nextHandle)}
        && nextHandle == old(nextHandle) + 1
      ensures !old(lightboxOpen) && inGallery && key == ArrowRight ==>
        current == (old(current) + 1) % |images| && Shows(current)
        && slideInterval == Some(old(nextHandle)) && live == {old(nextHandle)}
        && nextHandle == old(nextHandle) + 1
      ensures !old(lightboxOpen) && (!inGallery || key == Escape || key == OtherKey) ==>
        current == old(current) && rendered == old(rendered) && indicators[..] == old(indicators[..])
        && slideInterval == old(slideInterval) && live == old(live) && nextHandle == old(nextHandle)
    {
      CarouselKeyDown(key, inGallery);
      LightboxKeyDown(key);
    }

    /** updateLightboxImage: show the current slide's image in the lightbox. */
    method UpdateLightboxImage()
      requires 0 <= current < |images|
      modifies this`shown
      ensures shown == Some(images[current])
    {
      shown := Some(images[current]);
    }

    /** openLightbox, called by the click on slide `index`: take `index` as
        the current slide as it is (no wrapping, no carousel re-render), show
        its image, and open. */
    method OpenLightbox(index: int)
      requires Valid() && 0 <= index < |images|
      modifies this`current, this`shown, this`lightboxOpen
      ensures Valid() && Synced()
      ensures current == index && lightboxOpen && shown == Some(images[index])
    {
      current := index;
      UpdateLightboxImage();
      lightboxOpen := true;
    }

    /** closeLightbox: the slide index is left where the lightbox had it. */
    method CloseLightbox()
      requires Valid()
      modifies this`lightboxOpen
      ensures Valid() && Synced()
      ensures !lightboxOpen
    {
      lightboxOpen := false;
    }

    /** The lightbox's previous button: retreat and show the new slide. */
    method LightboxPrev()
      requires Valid()
      modifies this`current, this`rendered, indicators, this`shown
      ensures Valid() && Synced()
      ensures current == (old(current) - 1) % |images| && Shows(current)
      ensures shown == Some(images[current])
    {
      GoToSlide(current - 1);
      UpdateLightboxImage();
    }

    /** The lightbox's next button: advance and show the new slide. */
    method LightboxNext()
      requires Valid()
      modifies this`current, this`rendered, indicators, this`shown
      ensures Valid() && Synced()
      ensures current == (old(current) + 1) % |images| && Shows(current)
      ensures shown == Some(images[current])
    {
      GoToSlide(current + 1);
      UpdateLightboxImage();
    }

    /** A click on the lightbox overlay closes it when it lands on the backdrop itself. */
    method LightboxClick(onBackdrop: bool)
      requires Valid()
      modifies this`lightboxOpen
      ensures Valid()
      ensures old(Synced()) ==> Synced()
      ensures lightboxOpen == (old(lightboxOpen) && !onBackdrop)
    {
      if onBackdrop {
        CloseLightbox();
      }
    }

    /** preloadNextImage: with more than one image, the source of the image
        the next advance will show. */
    function PreloadSource(): (src: Option<string>)
      reads this, indicators
      requires Valid()
      ensures src.Some? <==> |images| > 1
      ensures src.Some? ==> src.value == images[(current + 1) % |images|].src
    {
      PreloadIsNextSlide(current, |images|);
      NormalizeIsEuclideanMod(current + 1, |images|);
      match PreloadIndex(current, |images|)
      case Some(k) => Some(images[k].src)
      case None => None
    }
  }

  /** Three distinct images for the scenarios below. */
  function SampleImages(): (s: seq<Image>)
    ensures |s| == 3 && s[0] != s[1] && s[1] != s[2] && s[0] != s[2]
  {
    [Image("./images/image_01.jpg", "Bild 01"),
     Image("./images/image_02.jpg", "Bild 02"),
     Image("./images/image_03.jpg", "Bild 03")]
  }

  /** Three slides, starting on the first: a 60-pixel leftward swipe shows
      the second, a click on the first indicator goes back to it, ArrowLeft
      wraps to the third, the lightbox opens on the third, and ArrowRight in
      the lightbox wraps to the first and shows it there. */
  method NavigationScenario() returns (afterSwipe: int, afterIndicator: int, afterArrow: int,
                                       inLightbox: Option<Image>, afterLightboxArrow: int,
                                       lightboxShows: Option<Image>)
    ensures afterSwipe == 1 && afterIndicator == 0 && afterArrow == 2
    ensures inLightbox == Some(SampleImages()[2])
    ensures afterLightboxArrow == 0 && lightboxShows == Some(SampleImages()[0])
  {
    var site := new Site(SampleImages());
    site.TouchStart(200);
    site.TouchEnd(140);
    assert site.current == 1 by { DivModUnique(1, 0, 1, 3); }
    afterSwipe := site.current;
    site.IndicatorClick(0);
    afterIndicator := site.current;
    site.KeyDown(ArrowLeft, true);
    assert site.current == 2 by { DivModUnique(-1, -1, 2, 3); }
    afterArrow := site.current;
    site.OpenLightbox(2);
    inLightbox := site.shown;
    site.KeyDown(ArrowRight, false);
    assert site.current == 0 by { DivModUnique(3, 1, 0, 3); }
    afterLightboxArrow := site.current;
    lightboxShows := site.shown;
  }

  /** With the interval callback as written, an auto-advance while the
      lightbox is open moves the slide index but not the lightbox image; the
      next ArrowRight then takes the lightbox from the first image straight
      to the third, skipping the second. */
  method TickWhileLightboxOpenAsWritten() returns (lightboxShows: Option<Image>, currentImage: Image,
                                                  afterArrow: int, arrowShows: Option<Image>)
    ensures lightboxShows != Some(currentImage)
    ensures lightboxShows == Some(SampleImages()[0]) && currentImage == SampleImages()[1]
    ensures afterArrow == 2 && arrowShows == Some(SampleImages()[2])
  {
    var site := new Site(SampleImages());
    site.OpenLightbox(0);
    site.TickAsWritten();
    lightboxShows := site.shown;
    currentImage := site.images[site.current];
    site.KeyDown(ArrowRight, false);
    afterArrow := site.current;
    arrowShows := site.shown;
  }

  /** With the corrected callback the lightbox follows the auto-advance. */
  method TickWhileLightboxOpen() returns (lightboxShows: Option<Image>, currentImage: Image)
    ensures lightboxShows == Some(currentImage) && currentImage == SampleImages()[1]
  {
    var site := new Site(SampleImages());
    site.OpenLightbox(0);
    site.Tick();
    lightboxShows := site.shown;
    currentImage := site.images[site.current];
  }

}
