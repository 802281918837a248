/**
 * Slide-index arithmetic of the gallery (js/main.js): the wrap-around
 * normalisation performed by goToSlide, the index preloadNextImage looks
 * ahead to, and the swipe classifier of handleSwipe.
 */
module Navigation {

  import opened Wrappers

  /** JavaScript's `%` on integers: the remainder of truncating division,
      which takes the sign of the dividend (Dafny's `%` is Euclidean). */
  function JsRem(a: int, n: int): (r: int)
    requires n > 0
    ensures a >= 0 ==> 0 <= r < n
    ensures a < 0 ==> -n < r <= 0
  {
    if a >= 0 then a % n else -((-a) % n)
  }

  /** The index goToSlide stores: `((index % n) + n) % n` with JavaScript's `%`. */
  function Normalize(index: int, n: int): (r: int)
    requires n > 0
    ensures 0 <= r < n
  {
    JsRem(JsRem(index, n) + n, n)
  }

  /** The truncated remainder differs from the Euclidean one by 0 or by n. */
  lemma JsRemCongruent(a: int, n: int)
    requires n > 0
    ensures JsRem(a, n) == a % n || JsRem(a, n) == a % n - n
  {
    if a < 0 {
      var q, m := (-a) / n, (-a) % n;
      assert -a == q * n + m;
      if m == 0 {
        DivModUnique(a, -q, 0, n);
      } else {
        assert a == (-q - 1) * n + (n - m);
        DivModUnique(a, -q - 1, n - m, n);
      }
    }
  }

  /** The JavaScript formula computes the mathematical (Euclidean) residue. */
  lemma NormalizeIsEuclideanMod(index: int, n: int)
    requires n > 0
    ensures Normalize(index, n) == index % n
  {
    var r := JsRem(index, n);
    JsRemCongruent(index, n);
    if r == index % n {
      DivModUnique(r + n, 1, r, n);
    } else {
      DivModUnique(r + n, 0, r + n, n);
    }
  }

  /** A quotient and remainder in range are the Euclidean ones. */
  lemma DivModUnique(a: int, q: int, m: int, n: int)
    requires n > 0 && 0 <= m < n && a == q * n + m
    ensures a % n == m
  {
    var q', m' := a / n, a % n;
    assert a == q' * n + m';
    var t := q' - q;
    assert t * n == m - m' by {
      assert q' * n - q * n == t * n;
    }
    if t > 0 {
      MulAtLeast(t, n);
    } else if t < 0 {
      MulAtLeast(-t, n);
    }
  }

  /** A positive multiple of n is at least n. */
  lemma {:induction false} MulAtLeast(t: int, n: int)
    requires t >= 1 && n > 0
    ensures t * n >= n
    decreases t
  {
    if t > 1 {
      MulAtLeast(t - 1, n);
      assert t * n == (t - 1) * n + n;
    }
  }

  /** Re-rendering at the current index (the resize handler) keeps it. */
  lemma NormalizeKeepsValidIndex(index: int, n: int)
    requires 0 <= index < n
    ensures Normalize(index, n) == index
  {
    NormalizeIsEuclideanMod(index, n);
    DivModUnique(index, 0, index, n);
  }

  /** Next then previous returns to the starting slide. */
  lemma AdvanceThenRetreat(current: int, n: int)
    requires 0 <= current < n
    ensures Normalize(Normalize(current + 1, n) - 1, n) == current
  {
    NormalizeIsEuclideanMod(current + 1, n);
    NormalizeIsEuclideanMod(Normalize(current + 1, n) - 1, n);
    if current + 1 == n {
      DivModUnique(current + 1, 1, 0, n);
      DivModUnique(-1, -1, n - 1, n);
    } else {
      DivModUnique(current + 1, 0, current + 1, n);
      DivModUnique(current, 0, current, n);
    }
  }

  /** Previous then next returns to the starting slide. */
  lemma RetreatThenAdvance(current: int, n: int)
    requires 0 <= current < n
    ensures Normalize(Normalize(current - 1, n) + 1, n) == current
  {
    NormalizeIsEuclideanMod(current - 1, n);
    NormalizeIsEuclideanMod(Normalize(current - 1, n) + 1, n);
    if current == 0 {
      DivModUnique(-1, -1, n - 1, n);
      DivModUnique(n, 1, 0, n);
    } else {
      DivModUnique(current - 1, 0, current - 1, n);
      DivModUnique(current, 0, current, n);
    }
  }

  /** preloadNextImage: with more than one image, the index after `current`,
      computed with JavaScript's `%`. */
  function PreloadIndex(current: int, n: int): (r: Option<int>)
    requires 0 <= current
    ensures r.Some? <==> n > 1
    ensures r.Some? ==> 0 <= r.value < n
  {
    if n > 1 then Some(JsRem(current + 1, n)) else None
  }

  /** The preloaded image is the one the next advance will show. */
  lemma PreloadIsNextSlide(current: int, n: int)
    requires 0 <= current < n
    ensures PreloadIndex(current, n).Some? <==> n > 1
    ensures n > 1 ==> PreloadIndex(current, n) == Some(Normalize(current + 1, n))
  {
    if n > 1 {
      NormalizeIsEuclideanMod(current + 1, n);
    }
  }

  /** Minimum horizontal displacement, in pixels, that handleSwipe treats as a swipe. */
  const SwipeThreshold: int := 50

  /** The navigation intent a touch gesture resolves to. */
  datatype Intent = Advance | Retreat | Ignore

  /** handleSwipe's decision from the touch-start and touch-end x coordinates. */
  function SwipeIntent(startX: int, endX: int): (r: Intent)
    ensures r == Advance <==> startX - endX > SwipeThreshold
    ensures r == Retreat <==> endX - startX > SwipeThreshold
    ensures r == Ignore <==> -SwipeThreshold <= startX - endX <= SwipeThreshold
  {
    var diff := startX - endX;
    if Abs(diff) > SwipeThreshold then
      if diff > 0 then Advance else Retreat
    else
      Ignore
  }

  /** Math.abs on integers. */
  function Abs(x: int): int {
    if x < 0 then -x else x
  }

}
