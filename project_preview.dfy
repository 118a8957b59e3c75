/** The admin project preview: a carousel over the images in the order
    given, with arrows that wrap around by explicit comparisons. */
module ProjectPreview {
  import PS = ProjectsSection
  import PDM = ProjectDetailModal

  /** `prev === n - 1 ? 0 : prev + 1` */
  function Next(i: nat, n: nat): nat
  {
    if i == n - 1 then 0 else i + 1
  }

  /** `prev === 0 ? n - 1 : prev - 1` */
  function Prev(i: nat, n: nat): int
  {
    if i == 0 then n - 1 else i - 1
  }

  /** For a valid index both arrows stay in range, undo each other, and
      agree with the modular formulas of the detail modal. */
  lemma PreviewNavigation(i: nat, n: nat)
    requires i < n
    ensures Next(i, n) < n && 0 <= Prev(i, n) < n
    ensures Next(i, n) == PS.Tick(i, n)
    ensures Prev(i, n) == PDM.Prev(i, n)
    ensures Prev(Next(i, n), n) == i && Next(Prev(i, n), n) == i
  {
    PDM.NavigationSpec(i, n);
  }

  /** The carousel is rendered only when there is at least one image; the
      arrows and the indicators only when there are two or more. */
  predicate ShowsCarousel(n: nat)
  {
    n > 0
  }

  predicate ShowsArrows(n: nat)
  {
    n > 1
  }

  /** One step of the preview: an arrow (true for next) or an indicator. */
  datatype Step = Arrow(forward: bool) | Indicator(index: nat)

  function Take(i: nat, n: nat, s: Step): int
  {
    match s
    case Arrow(forward) => if forward then Next(i, n) else Prev(i, n)
    case Indicator(k) => k
  }

  /** The index after a run of steps; a step that yields a negative index
      ends the run there. */
  function Walk(i: nat, n: nat, steps: seq<Step>): (r: int)
    decreases steps
  {
    if steps == [] then i
    else
      var j := Take(i, n, steps[0]);
      if j < 0 then j else Walk(j, n, steps[1..])
  }

  /** From a shown image, any run of clicks on rendered controls keeps
      `images[currentImageIndex]` defined. */
  lemma {:induction false} WalkInRange(i: nat, n: nat, steps: seq<Step>)
    requires ShowsCarousel(n) && i < n
    requires forall k :: 0 <= k < |steps| ==> ShowsArrows(n) && (steps[k].Indicator? ==> steps[k].index < n)
    decreases steps
    ensures 0 <= Walk(i, n, steps) < n
  {
    if steps != [] {
      PreviewNavigation(i, n);
      assert ShowsArrows(n) && (steps[0].Indicator? ==> steps[0].index < n);
      WalkInRange(Take(i, n, steps[0]), n, steps[1..]);
    }
  }
}
