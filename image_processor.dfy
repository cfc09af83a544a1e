/** film_scanner/image_processor.py: the inversion cache in front of the
    colour inversion of an image, and the decision of whether and how far to
    scale an image down to fit a window.

    The cache lives on the class; here one object holds it. Images are kept
    abstract: `id(image)` is passed in as a number, and the outcome of the
    library inversion is passed in as an option, None where it raises. */
module ImageCache {
  import opened Optional
  import BoundedQueue

  /** `_cache_size_limit`. */
  const CacheLimit: nat := 10

  predicate Unique(ids: seq<nat>) {
    forall i, j :: 0 <= i < j < |ids| ==> ids[i] != ids[j]
  }

  /** The ids of s, as a set. */
  function IdsOf(s: seq<nat>): set<nat> {
    set x | x in s
  }

  /** A sequence has at least as many places as distinct elements. */
  lemma {:induction false} IdsOfSize(s: seq<nat>)
    ensures |IdsOf(s)| <= |s|
    decreases |s|
  {
    if s != [] {
      var front := s[..|s| - 1];
      IdsOfSize(front);
      assert IdsOf(s) == IdsOf(front) + {s[|s| - 1]} by {
        forall x ensures x in IdsOf(s) <==> x in IdsOf(front) || x == s[|s| - 1] {
          if x in s && x != s[|s| - 1] {
            var k :| 0 <= k < |s| && s[k] == x;
            assert front[k] == x;
          }
        }
      }
    }
  }

  /** Pushing an id not yet present keeps the ids unique, and the ids held
      afterwards are the old ones, less the oldest when it was evicted, plus
      the new one. */
  lemma {:induction false} PushFresh(order: seq<nat>, id: nat)
    requires Unique(order) && |order| <= CacheLimit && id !in order
    ensures Unique(BoundedQueue.Push(order, CacheLimit, id))
    ensures forall x :: x in BoundedQueue.Push(order, CacheLimit, id) <==>
      x == id || (x in order && !(|order| >= CacheLimit && x == order[0]))
  {
    var r := BoundedQueue.Push(order, CacheLimit, id);
    if |order| >= CacheLimit {
      assert r == order[1..] + [id];
      forall x ensures x in order[1..] <==> x in order && x != order[0] {
        if x in order && x != order[0] {
          var k :| 0 <= k < |order| && order[k] == x;
          assert order[1..][k - 1] == x;
        }
      }
    } else {
      assert r == order + [id];
    }
  }

  class ImageProcessor<Image> {
    /** The cached ids, oldest insertion first (a dict's iteration order). */
    var order: seq<nat>
    /** `_inversion_cache`: image id to inverted image. */
    var cache: map<nat, Image>

    /** The cache holds exactly the ids of `order`, each once, and at most
        ten of them. */
    ghost predicate Valid()
      reads this`order, this`cache
    {
      && Unique(order)
      && |order| <= CacheLimit
      && forall id :: id in cache <==> id in order
    }

    constructor ()
      ensures Valid() && order == [] && cache == map[]
    {
      order := [];
      cache := map[];
    }

    /** The cache never holds more than ten images. */
    lemma {:induction false} CacheBounded()
      requires Valid()
      ensures |cache| <= CacheLimit
    {
      assert cache.Keys == IdsOf(order);
      IdsOfSize(order);
    }

    /** `invert_image`. A hit returns the cached image and leaves the cache
        and its order alone. A miss whose inversion raises returns the
        original and leaves the cache alone. Any other miss first evicts the
        oldest entry when ten are held, then caches the new inversion as the
        newest entry and returns it. */
    method InvertImage(image: Image, id: nat, inversion: Option<Image>) returns (result: Image)
      requires Valid()
      modifies this`order, this`cache
      ensures Valid()
      ensures id in old(cache) ==> result == old(cache)[id] && order == old(order) && cache == old(cache)
      ensures id !in old(cache) && inversion.None? ==>
        result == image && order == old(order) && cache == old(cache)
      ensures id !in old(cache) && inversion.Some? ==>
        && result == inversion.value
        && order == BoundedQueue.Push(old(order), CacheLimit, id)
        && cache == (if |old(order)| >= CacheLimit then old(cache) - {old(order)[0]} else old(cache))[id := result]
        && id in cache && cache[id] == result
    {
      if id in cache {
        return cache[id];
      }
      if inversion.None? {
        return image;
      }
      result := inversion.value;
      PushFresh(order, id);
      if |order| >= CacheLimit {
        cache := cache - {order[0]};
      }
      cache := cache[id := result];
      order := BoundedQueue.Push(order, CacheLimit, id);
    }

    /** `clear_cache`. */
    method ClearCache()
      modifies this`order, this`cache
      ensures Valid() && order == [] && cache == map[]
    {
      order := [];
      cache := map[];
    }
  }

  /** The resampling filter `scale_image_to_fit` picks. */
  datatype Resampling = Lanczos | Bilinear | Nearest

  /** The outcome of `scale_image_to_fit`: the image itself, or a resize to
      the given size with the given filter. */
  datatype Scaled = Unchanged | Resized(width: int, height: int, resampling: Resampling)

  /** Python's `int()` of a real: truncation toward zero. */
  function Truncate(x: real): (r: int)
    ensures x >= 0.0 ==> 0 <= r && r as real <= x < r as real + 1.0
    ensures x < 0.0 ==> r <= 0 && x <= r as real < x + 1.0
  {
    if x >= 0.0 then x.Floor else -((-x).Floor)
  }

  function Ratio(bound: int, size: nat): real
    requires size > 0
  {
    bound as real / size as real
  }

  /** `size * scale`. */
  function Times(size: nat, scale: real): real {
    size as real * scale
  }

  /** `min(max_width / width, max_height / height)`. */
  function ScaleFactor(width: nat, height: nat, maxWidth: int, maxHeight: int): real
    requires width > 0 && height > 0
  {
    var sw := Ratio(maxWidth, width);
    var sh := Ratio(maxHeight, height);
    if sw <= sh then sw else sh
  }

  /** `int(width * scale)` and `int(height * scale)`. */
  function ScaledSize(width: nat, height: nat, maxWidth: int, maxHeight: int): (r: (int, int))
    requires width > 0 && height > 0
  {
    var scale := ScaleFactor(width, height, maxWidth, maxHeight);
    (Truncate(Times(width, scale)), Truncate(Times(height, scale)))
  }

  /** `scale_image_to_fit`. An image within both bounds is returned as it
      is, and so is one with a zero side (the division raises and the error
      is caught); any other is resized by the smaller of the two ratios,
      with a filter chosen by how far it shrinks. A target side under one
      pixel makes the library resize raise, and the error is caught too. */
  function ScaleImageToFit(width: nat, height: nat, maxWidth: int, maxHeight: int): (r: Scaled)
    ensures (width <= maxWidth && height <= maxHeight) || width == 0 || height == 0 ==> r == Unchanged
    ensures width > 0 && height > 0 && !(width <= maxWidth && height <= maxHeight) ==>
      (r == Unchanged <==> ScaledSize(width, height, maxWidth, maxHeight).0 < 1
                           || ScaledSize(width, height, maxWidth, maxHeight).1 < 1)
    ensures r.Resized? ==> width > 0 && height > 0 && r.width >= 1 && r.height >= 1
                           && (r.width, r.height) == ScaledSize(width, height, maxWidth, maxHeight)
  {
    if width <= maxWidth && height <= maxHeight then Unchanged
    else if width == 0 || height == 0 then Unchanged
    else
      var scale := ScaleFactor(width, height, maxWidth, maxHeight);
      var size := ScaledSize(width, height, maxWidth, maxHeight);
      if size.0 < 1 || size.1 < 1 then Unchanged
      else Resized(size.0, size.1, if scale < 0.5 then Lanczos else if scale <= 1.0 then Bilinear else Nearest)
  }

  /** A side scaled by a factor no larger than the ratio of a bound of zero
      or less comes out under one pixel. */
  lemma {:induction false} SideVanishes(size: nat, bound: int, scale: real)
    requires size > 0 && bound <= 0 && scale <= Ratio(bound, size)
    ensures Truncate(Times(size, scale)) < 1
  {
    var q := Ratio(bound, size);
    assert size as real * q == bound as real;
    assert size as real * scale <= size as real * q;
  }

  /** A bound of zero or less leaves every image as it is: the resize it
      would ask for has a side under one pixel. */
  lemma {:induction false} NonPositiveBoundUnchanged(width: nat, height: nat, maxWidth: int, maxHeight: int)
    ensures maxWidth <= 0 || maxHeight <= 0 ==> ScaleImageToFit(width, height, maxWidth, maxHeight) == Unchanged
  {
    if width > 0 && height > 0 && (maxWidth <= 0 || maxHeight <= 0) {
      var scale := ScaleFactor(width, height, maxWidth, maxHeight);
      if maxWidth <= 0 {
        SideVanishes(width, maxWidth, scale);
      } else {
        SideVanishes(height, maxHeight, scale);
      }
    }
  }

  /** Positive bounds do not save a very flat image: 1000 x 5 into
      100 x 100 would be 100 x 0, so it is left as it is. */
  lemma {:induction false} FlatImageUnchanged()
    ensures ScaleImageToFit(1000, 5, 100, 100) == Unchanged
  {
    var scale := ScaleFactor(1000, 5, 100, 100);
    assert Ratio(100, 1000) == 0.1 && Ratio(100, 5) == 20.0;
    assert Times(5, scale) == 0.5;
  }

  /** One side scaled by a factor no larger than its own ratio: the
      truncated result stays within the bound, and meets it exactly when
      the factor is that ratio. */
  lemma {:induction false} SideFits(size: nat, bound: int, scale: real)
    requires size > 0 && bound >= 0 && 0.0 <= scale <= Ratio(bound, size)
    ensures 0 <= Truncate(Times(size, scale)) <= bound
    ensures scale == Ratio(bound, size) ==> Truncate(Times(size, scale)) == bound
  {
    var q := Ratio(bound, size);
    assert size as real * q == bound as real;
    assert size as real * scale <= size as real * q;
    assert size as real * scale >= 0.0;
  }

  /** A ratio of a bound exceeded by the size is below one. */
  lemma {:induction false} RatioBelowOne(bound: int, size: nat)
    requires size > 0 && bound < size
    ensures Ratio(bound, size) < 1.0
  {
    var q := Ratio(bound, size);
    assert size as real * q == bound as real;
  }

  lemma {:induction false} RatioNonNegative(bound: int, size: nat)
    requires size > 0 && bound >= 0
    ensures Ratio(bound, size) >= 0.0
  {
    var q := Ratio(bound, size);
    assert size as real * q == bound as real;
  }

  /** A resized image has positive bounds, fits both, fills at least one of
      them exactly, and is always a shrink, so the nearest-neighbour filter
      is never chosen. */
  lemma {:induction false} ResizedFits(width: nat, height: nat, maxWidth: int, maxHeight: int)
    requires ScaleImageToFit(width, height, maxWidth, maxHeight).Resized?
    ensures maxWidth >= 1 && maxHeight >= 1
    ensures var r := ScaleImageToFit(width, height, maxWidth, maxHeight);
      && 1 <= r.width <= maxWidth && 1 <= r.height <= maxHeight
      && (r.width == maxWidth || r.height == maxHeight)
      && r.resampling != Nearest
  {
    NonPositiveBoundUnchanged(width, height, maxWidth, maxHeight);
    var scale := ScaleFactor(width, height, maxWidth, maxHeight);
    RatioNonNegative(maxWidth, width);
    RatioNonNegative(maxHeight, height);
    SideFits(width, maxWidth, scale);
    SideFits(height, maxHeight, scale);
    if width > maxWidth {
      RatioBelowOne(maxWidth, width);
    } else {
      RatioBelowOne(maxHeight, height);
    }
  }
}
