/** The home-page banner: the slide carousel, its theme lookup and the
    issue-category marquee. */
module Banner {

  /** Slide `i` of `n` after "next": `(i + 1) % n`. */
  function Next(i: nat, n: nat): (r: nat)
    requires n > 0
    ensures r < n
    ensures i < n - 1 ==> r == i + 1
    ensures i == n - 1 ==> r == 0
  {
    (i + 1) % n
  }

  /** Slide `i` of `n` after "previous": `(i - 1 + n) % n`; the operand is
      never negative, so JavaScript's remainder and Dafny's agree. */
  function Prev(i: nat, n: nat): (r: nat)
    requires n > 0 && i < n
    ensures r < n
    ensures i > 0 ==> r == i - 1
    ensures i == 0 ==> r == n - 1
  {
    (i - 1 + n) % n
  }

  /** Next and previous undo each other. */
  lemma NextPrevInverse(i: nat, n: nat)
    requires 0 <= i < n
    ensures Prev(Next(i, n), n) == i
    ensures Next(Prev(i, n), n) == i
  {
  }

  /** The slide shown after `k` steps forward. */
  function Advance(i: nat, n: nat, k: nat): (r: nat)
    requires n > 0 && i < n
    ensures r < n
  {
    if k == 0 then i else Next(Advance(i, n, k - 1), n)
  }

  /** Within one round, `k` steps forward from slide `i` land on slide
      `i + k`. */
  lemma {:induction false} AdvanceWithinRound(i: nat, n: nat, k: nat)
    requires n > 0 && i + k < n
    ensures Advance(i, n, k) == i + k
  {
    if k > 0 {
      AdvanceWithinRound(i, n, k - 1);
    }
  }

  /** Stepping `a` then `b` times is stepping `a + b` times. */
  lemma {:induction false} AdvanceAdd(i: nat, n: nat, a: nat, b: nat)
    requires n > 0 && i < n
    ensures Advance(i, n, a + b) == Advance(Advance(i, n, a), n, b)
  {
    if b > 0 {
      AdvanceAdd(i, n, a, b - 1);
    }
  }

  /** Pressing "next" as often as there are slides comes back to the
      starting slide, and no positive number of presses fewer does. */
  lemma {:induction false} FullCycle(i: nat, n: nat, k: nat)
    requires n > 0 && i < n
    ensures Advance(i, n, n) == i
    ensures 0 < k < n ==> Advance(i, n, k) != i
  {
    // The last slide is reached after n - 1 - i steps and wraps to 0.
    AdvanceWithinRound(i, n, n - 1 - i);
    AdvanceAdd(i, n, n - 1 - i, 1);
    AdvanceAdd(i, n, n - i, i);
    if i > 0 {
      AdvanceWithinRound(0, n, i);
    }
    if 0 < k < n {
      if i + k < n {
        AdvanceWithinRound(i, n, k);
      } else {
        AdvanceAdd(i, n, n - i, k - (n - i));
        AdvanceWithinRound(0, n, k - (n - i));
      }
    }
  }

  datatype ThemeColors = ThemeColors(gradient: string, accentGradient: string, particles: string)

  const BlueTheme := ThemeColors("from-blue-900 via-blue-700 to-indigo-800", "from-blue-500 to-cyan-400", "bg-blue-400")
  const GreenTheme := ThemeColors("from-emerald-900 via-green-700 to-teal-800", "from-emerald-500 to-teal-400", "bg-emerald-400")
  const OrangeTheme := ThemeColors("from-orange-900 via-amber-700 to-yellow-800", "from-orange-500 to-amber-400", "bg-orange-400")

  /** `getThemeColors(theme)`: the named theme, blue for any other name. */
  function ThemeFor(theme: string): (r: ThemeColors)
    ensures theme == "green" ==> r == GreenTheme
    ensures theme == "orange" ==> r == OrangeTheme
    ensures theme != "green" && theme != "orange" ==> r == BlueTheme
  {
    match theme
    case "blue" => BlueTheme
    case "green" => GreenTheme
    case "orange" => OrangeTheme
    case _ => BlueTheme
  }

  datatype Slide = Slide(title: string, theme: string)

  const Slides: seq<Slide> := [
    Slide("Report Issues", "blue"),
    Slide("Track Progress", "green"),
    Slide("Build Better Cities", "orange")]

  /** `[...issueTypes, ...issueTypes]`, the marquee's items. */
  function MarqueeItems<T>(items: seq<T>): (r: seq<T>)
    ensures |r| == 2 * |items|
    ensures forall k :: 0 <= k < |items| ==> r[k] == items[k] && r[k + |items|] == items[k]
  {
    items + items
  }

  /** `idx < issueTypes.length * 2 - 1`: whether item `idx` of the marquee
      is followed by a separator dot. */
  predicate HasSeparator(idx: nat, typeCount: nat) {
    idx < typeCount * 2 - 1
  }

  /** Every marquee item but the last is followed by a separator. */
  lemma SeparatorAllButLast<T>(items: seq<T>, idx: nat)
    requires idx < |MarqueeItems(items)|
    ensures HasSeparator(idx, |items|) <==> idx != |MarqueeItems(items)| - 1
  {
  }

  /** The carousel's state: the slide shown and whether it advances on
      its own. The timers themselves (the six-second interval and the
      ten-second pause after a click) are the callers of `Tick` and
      `ResumeAutoPlay`. */
  class Carousel {
    var currentSlide: nat
    var isAutoPlaying: bool

    ghost predicate Valid()
      reads this
    {
      currentSlide < |Slides|
    }

    constructor ()
      ensures Valid() && currentSlide == 0 && isAutoPlaying
    {
      currentSlide := 0;
      isAutoPlaying := true;
    }

    /** The interval callback; it runs only while autoplay is on. */
    method Tick()
      requires Valid() && isAutoPlaying
      modifies this
      ensures Valid() && isAutoPlaying
      ensures currentSlide == Next(old(currentSlide), |Slides|)
    {
      currentSlide := (currentSlide + 1) % |Slides|;
    }

    /** `nextSlide`: one slide forward, autoplay paused. */
    method NextSlide()
      requires Valid()
      modifies this
      ensures Valid() && !isAutoPlaying
      ensures currentSlide == Next(old(currentSlide), |Slides|)
    {
      currentSlide := (currentSlide + 1) % |Slides|;
      isAutoPlaying := false;
    }

    /** `prevSlide`: one slide back, autoplay paused. */
    method PrevSlide()
      requires Valid()
      modifies this
      ensures Valid() && !isAutoPlaying
      ensures currentSlide == Prev(old(currentSlide), |Slides|)
    {
      currentSlide := (currentSlide - 1 + |Slides|) % |Slides|;
      isAutoPlaying := false;
    }

    /** `goToSlide(index)`, called from the dots, one per slide. */
    method GoToSlide(index: nat)
      requires Valid() && index < |Slides|
      modifies this
      ensures Valid() && !isAutoPlaying && currentSlide == index
    {
      currentSlide := index;
      isAutoPlaying := false;
    }

    /** The ten-second timeout after a click switches autoplay back on. */
    method ResumeAutoPlay()
      requires Valid()
      modifies this
      ensures Valid() && isAutoPlaying && currentSlide == old(currentSlide)
    {
      isAutoPlaying := true;
    }

    /** `currentTheme`: the colours of the slide shown. */
    function CurrentTheme(): (r: ThemeColors)
      requires Valid()
      reads this
      ensures r == [BlueTheme, GreenTheme, OrangeTheme][currentSlide]
    {
      SlideThemes(currentSlide);
      ThemeFor(Slides[currentSlide].theme)
    }
  }

  /** Every slide's theme is one of the three defined ones. */
  lemma SlideThemes(i: nat)
    requires i < |Slides|
    ensures ThemeFor(Slides[i].theme) in {BlueTheme, GreenTheme, OrangeTheme}
    ensures ThemeFor(Slides[i].theme) == [BlueTheme, GreenTheme, OrangeTheme][i]
  {
  }
}
