/** The testimonials carousel (src/components/shared/Testimonials.tsx): the index of the
    featured testimonial, its navigation, and the pure rules for stars, excerpts and the
    secondary grid. */
module Testimonials {
  import opened Wrappers

  // ---------------------------------------------------------------- index arithmetic

  /** JavaScript's `a % n` for a positive `n`: the remainder takes the sign of `a`. */
  function JsRemainder(a: int, n: int): (r: int)
    requires n > 0
    ensures a >= 0 ==> 0 <= r < n
    ensures a < 0 ==> -n < r <= 0
    ensures -n < a < n ==> r == a
    ensures n <= a < 2 * n ==> r == a - n
  {
    if a >= 0 then
      RemainderSmall(a, n);
      a % n
    else
      RemainderSmall(-a, n);
      -((-a) % n)
  }

  lemma RemainderSmall(a: int, n: int)
    requires 0 <= a && n > 0
    ensures 0 <= a % n < n
    ensures a < n ==> a % n == a
    ensures n <= a < 2 * n ==> a % n == a - n
  {
  }

  /** `(prev + 1) % length`. */
  function NextIndex(i: int, n: int): (r: int)
    requires n > 0
    ensures 0 <= i < n ==> 0 <= r < n
    ensures 0 <= i < n ==> r == (if i == n - 1 then 0 else i + 1)
  {
    JsRemainder(i + 1, n)
  }

  /** `(prev - 1 + length) % length`. */
  function PrevIndex(i: int, n: int): (r: int)
    requires n > 0
    ensures 0 <= i < n ==> 0 <= r < n
    ensures 0 <= i < n ==> r == (if i == 0 then n - 1 else i - 1)
  {
    JsRemainder(i - 1 + n, n)
  }

  /** Previous undoes next ... */
  lemma PrevAfterNext(i: int, n: int)
    requires 0 <= i < n
    ensures PrevIndex(NextIndex(i, n), n) == i
  {
  }

  /** ... and next undoes previous. */
  lemma NextAfterPrev(i: int, n: int)
    requires 0 <= i < n
    ensures NextIndex(PrevIndex(i, n), n) == i
  {
  }

  /** The index after `k` presses of "next" (or `k` autoplay ticks). */
  function NextTimes(i: int, n: int, k: nat): int
    requires n > 0
  {
    if k == 0 then i else NextIndex(NextTimes(i, n, k - 1), n)
  }

  /** Within one cycle, `k` steps forward from `i` count up and wrap once past the end. */
  lemma {:induction false} NextTimesWithinCycle(i: int, n: int, k: nat)
    requires 0 <= i < n && k <= n
    ensures NextTimes(i, n, k) == (if i + k < n then i + k else i + k - n)
  {
    if k > 0 {
      NextTimesWithinCycle(i, n, k - 1);
    }
  }

  /** `n` steps forward return to the start. */
  lemma FullCycle(i: int, n: int)
    requires 0 <= i < n
    ensures NextTimes(i, n, n) == i
  {
    NextTimesWithinCycle(i, n, n);
  }

  /** Steps compose. */
  lemma {:induction false} NextTimesAdd(i: int, n: int, a: nat, b: nat)
    requires n > 0
    ensures NextTimes(i, n, a + b) == NextTimes(NextTimes(i, n, a), n, b)
  {
    if b > 0 {
      NextTimesAdd(i, n, a, b - 1);
      assert a + b - 1 == a + (b - 1);
    }
  }

  /** Navigation is periodic with period `n`. */
  lemma NextTimesPeriodic(i: int, n: int, k: nat)
    requires 0 <= i < n
    ensures NextTimes(i, n, n + k) == NextTimes(i, n, k)
  {
    NextTimesAdd(i, n, n, k);
    FullCycle(i, n);
  }

  // ---------------------------------------------------------------- the carousel state

  /** The component's state for `count` testimonials. */
  class Carousel {
    var currentIndex: int
    /** Whether the autoplay interval is running. */
    var ticking: bool
    const count: nat
    const autoplay: bool

    /** The featured index points at a testimonial (and stays 0 when there are none). */
    predicate Valid()
      reads this
    {
      if count == 0 then currentIndex == 0 else 0 <= currentIndex < count
    }

    constructor (count: nat, autoplay: bool)
      ensures this.count == count && this.autoplay == autoplay
      ensures currentIndex == 0 && !ticking
      ensures Valid()
    {
      this.count := count;
      this.autoplay := autoplay;
      currentIndex := 0;
      ticking := false;
    }

    /** The autoplay effect: the interval is installed only when autoplay is on and
        there is more than one testimonial. */
    method StartAutoplay()
      modifies this
      ensures ticking <==> autoplay && count > 1
      ensures currentIndex == old(currentIndex)
    {
      if !autoplay || count <= 1 {
        ticking := false;
        return;
      }
      ticking := true;
    }

    /** One firing of the interval. */
    method Tick()
      requires ticking && count > 0
      modifies this
      ensures currentIndex == NextIndex(old(currentIndex), count)
      ensures ticking
      ensures old(Valid()) ==> Valid()
    {
      currentIndex := JsRemainder(currentIndex + 1, count);
    }

    /** `nextTestimonial`. */
    method Next()
      requires count > 0
      modifies this
      ensures currentIndex == NextIndex(old(currentIndex), count)
      ensures ticking == old(ticking)
      ensures old(Valid()) ==> Valid()
    {
      currentIndex := JsRemainder(currentIndex + 1, count);
    }

    /** `prevTestimonial`. */
    method Prev()
      requires count > 0
      modifies this
      ensures currentIndex == PrevIndex(old(currentIndex), count)
      ensures ticking == old(ticking)
      ensures old(Valid()) ==> Valid()
    {
      currentIndex := JsRemainder(currentIndex - 1 + count, count);
    }

    /** `goToSlide(index)`: any index is stored as given; those the dots offer keep the
        state valid. */
    method GoToSlide(index: int)
      modifies this
      ensures currentIndex == index
      ensures ticking == old(ticking)
      ensures index in Dots(count) ==> Valid()
    {
      currentIndex := index;
    }
  }

  /** The indices of the dot buttons: one per testimonial, shown only when there are
      at least two. */
  function Dots(count: nat): (r: seq<int>)
    ensures count > 1 ==> |r| == count
    ensures count <= 1 ==> r == []
    ensures forall k :: k in r <==> count > 1 && 0 <= k < count
  {
    if count > 1 then
      var r := seq(count, k requires 0 <= k < count => k);
      forall k ensures k in r <==> 0 <= k < count {
        if 0 <= k < count {
          assert r[k] == k;
        }
      }
      r
    else []
  }

  // ---------------------------------------------------------------- stars, excerpts, grid

  /** `renderStars(rating)`: for each of the five stars, whether it is filled. */
  function Stars(rating: real): (r: seq<bool>)
    ensures |r| == 5
    ensures forall i :: 0 <= i < 5 ==> (r[i] <==> (i as real) < rating)
  {
    seq(5, i requires 0 <= i < 5 => (i as real) < rating)
  }

  /** The filled stars come first. */
  lemma StarsFilledFirst(rating: real, i: int, j: int)
    requires 0 <= i <= j < 5 && Stars(rating)[j]
    ensures Stars(rating)[i]
  {
  }

  function CountFilled(s: seq<bool>): nat {
    if s == [] then 0 else (if s[0] then 1 else 0) + CountFilled(s[1..])
  }

  /** A row whose first `p` entries are exactly the filled ones has `p` filled entries. */
  lemma {:induction false} CountFilledPrefix(s: seq<bool>, p: int)
    requires 0 <= p <= |s|
    requires forall i :: 0 <= i < |s| ==> (s[i] <==> i < p)
    ensures CountFilled(s) == p
  {
    if s != [] {
      assert forall i :: 0 <= i < |s[1..]| ==> s[1..][i] == s[i + 1];
      CountFilledPrefix(s[1..], if p > 0 then p - 1 else 0);
    }
  }

  /** A whole-number rating `k` fills `k` stars, clamped to 0..5. */
  lemma StarsCount(k: int)
    ensures CountFilled(Stars(k as real)) == (if k < 0 then 0 else if k > 5 then 5 else k)
  {
    var p := if k < 0 then 0 else if k > 5 then 5 else k;
    CountFilledPrefix(Stars(k as real), p);
  }

  const ExcerptLength := 150

  /** The excerpt of a card in the secondary grid. */
  function Excerpt(content: string): (r: string)
    ensures |content| <= ExcerptLength ==> r == content
    ensures |content| > ExcerptLength ==>
      |r| == ExcerptLength + 3 && r[..ExcerptLength] == content[..ExcerptLength] && r[ExcerptLength..] == "..."
  {
    if |content| > ExcerptLength then content[..ExcerptLength] + "..." else content
  }

  /** Excerpts are never longer than 153 characters and always begin like the content. */
  lemma ExcerptBounded(content: string)
    ensures |Excerpt(content)| <= ExcerptLength + 3
    ensures var m := if |content| < ExcerptLength then |content| else ExcerptLength;
            Excerpt(content)[..m] == content[..m]
  {
  }

  datatype Testimonial = Testimonial(name: string, content: string, rating: real)

  /** A card of the secondary grid. */
  datatype Card = Card(name: string, excerpt: string, stars: seq<bool>)

  /** The secondary grid: the first three testimonials, shown only when there are at
      least two. */
  function SecondaryCards(testimonials: seq<Testimonial>): (r: seq<Card>)
    ensures |r| <= 3
    ensures |testimonials| <= 1 ==> r == []
    ensures |testimonials| > 1 ==> |r| == (if |testimonials| < 3 then |testimonials| else 3)
    ensures forall i :: 0 <= i < |r| ==>
      r[i] == Card(testimonials[i].name, Excerpt(testimonials[i].content), Stars(testimonials[i].rating))
  {
    if |testimonials| <= 1 then []
    else
      var shown := if |testimonials| < 3 then testimonials else testimonials[..3];
      seq(|shown|, i requires 0 <= i < |shown| => Card(shown[i].name, Excerpt(shown[i].content), Stars(shown[i].rating)))
  }

  /** What the section shows. */
  datatype View = View(
    featured: Testimonial,
    featuredStars: seq<bool>,
    arrows: bool,
    dots: seq<int>,
    activeDot: int,
    cards: seq<Card>)

  /** A valid carousel state over the listed testimonials meets what rendering needs: the
      featured index points inside a non-empty list. */
  lemma ValidStateRenders(c: Carousel, testimonials: seq<Testimonial>)
    requires c.Valid() && c.count == |testimonials|
    ensures testimonials != [] ==> 0 <= c.currentIndex < |testimonials|
    ensures Render(testimonials, c.currentIndex).None? <==> testimonials == []
  {
  }

  /** The rendered section: nothing at all for an empty list. */
  function Render(testimonials: seq<Testimonial>, currentIndex: int): (r: Option<View>)
    requires testimonials != [] ==> 0 <= currentIndex < |testimonials|
    ensures r.None? <==> testimonials == []
    ensures r.Some? ==>
      && r.value.featured == testimonials[currentIndex]
      && r.value.featuredStars == Stars(testimonials[currentIndex].rating)
      && (r.value.arrows <==> |testimonials| > 1)
      && r.value.activeDot == currentIndex
      && r.value.dots == Dots(|testimonials|)
      && r.value.cards == SecondaryCards(testimonials)
  {
    if testimonials == [] then None
    else
      var t := testimonials[currentIndex];
      Some(View(t, Stars(t.rating), |testimonials| > 1, Dots(|testimonials|), currentIndex, SecondaryCards(testimonials)))
  }

  /** A single testimonial shows neither arrows, dots nor the grid. */
  lemma SingleTestimonial(t: Testimonial)
    ensures Render([t], 0).Some?
    ensures !Render([t], 0).value.arrows
    ensures Render([t], 0).value.dots == [] && Render([t], 0).value.cards == []
  {
  }
}
