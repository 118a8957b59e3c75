/** The project detail modal: the same image order as the project card,
    arrow navigation with modular wrap-around, thumbnail selection, and
    every tag shown as a badge. */
module ProjectDetailModal {
  import opened Wrappers
  import PS = ProjectsSection

  /** `prevImage`: `(prev - 1 + n) % n`. `nextImage` is the card's tick,
      `PS.Tick`. */
  function Prev(i: nat, n: nat): nat
    requires n > 0
  {
    (i - 1 + n) % n
  }

  /** Both arrows stay in range and wrap at the ends: next steps from the
      last image to the first, previous from the first to the last; each
      undoes the other. */
  lemma NavigationSpec(i: nat, n: nat)
    requires i < n
    ensures PS.Tick(i, n) == if i == n - 1 then 0 else i + 1
    ensures Prev(i, n) == if i == 0 then n - 1 else i - 1
    ensures PS.Tick(i, n) < n && Prev(i, n) < n
    ensures Prev(PS.Tick(i, n), n) == i && PS.Tick(Prev(i, n), n) == i
  {
    NextWraps(i, n);
    PrevWraps(i, n);
    NextWraps(Prev(i, n), n);
    PrevWraps(PS.Tick(i, n), n);
  }

  lemma NextWraps(i: nat, n: nat)
    requires i < n
    ensures PS.Tick(i, n) == if i == n - 1 then 0 else i + 1
  {
    if i == n - 1 {
      PS.ModUnique(i + 1, n, 1, 0);
    } else {
      PS.ModUnique(i + 1, n, 0, i + 1);
    }
  }

  lemma PrevWraps(i: nat, n: nat)
    requires i < n
    ensures Prev(i, n) == if i == 0 then n - 1 else i - 1
  {
    if i == 0 {
      PS.ModUnique(n - 1, n, 0, n - 1);
    } else {
      PS.ModUnique(i - 1 + n, n, 1, i - 1);
    }
  }

  /** The modal's controls: the two arrows and a thumbnail per image. */
  datatype Control = PrevArrow | NextArrow | Thumbnail(index: nat)

  /** Arrows and thumbnails are rendered only when there is more than one
      image, and a thumbnail exists for each image. */
  predicate Shown(n: nat, c: Control)
  {
    n > 1 && (c.Thumbnail? ==> c.index < n)
  }

  /** The index after using a control. */
  function Use(i: nat, n: nat, c: Control): nat
    requires n > 0
  {
    match c
    case PrevArrow => Prev(i, n)
    case NextArrow => PS.Tick(i, n)
    case Thumbnail(k) => k
  }

  /** The index after a run of clicks, starting from index `i`. */
  function Clicks(i: nat, n: nat, cs: seq<Control>): nat
    requires n > 0
    decreases cs
  {
    if cs == [] then i else Clicks(Use(i, n, cs[0]), n, cs[1..])
  }

  /** Whatever the user clicks, the modal shows an existing image; a
      thumbnail click shows that image. */
  lemma {:induction false} ClicksInRange(i: nat, n: nat, cs: seq<Control>)
    requires i < n
    requires forall j :: 0 <= j < |cs| ==> Shown(n, cs[j])
    decreases cs
    ensures Clicks(i, n, cs) < n
    ensures cs != [] && cs[|cs| - 1].Thumbnail? ==> Clicks(i, n, cs) == cs[|cs| - 1].index
  {
    if cs != [] {
      NavigationSpec(i, n);
      assert Shown(n, cs[0]);
      ClicksInRange(Use(i, n, cs[0]), n, cs[1..]);
      if |cs| > 1 {
        assert cs[1..][|cs[1..]| - 1] == cs[|cs| - 1];
      }
    }
  }

  /** `n` presses of the next arrow come back to the image they started from. */
  lemma NextFullTurn(i: nat, n: nat)
    requires i < n
    ensures Clicks(i, n, seq(n, _ => NextArrow)) == i
  {
    NextPresses(i, n, n);
    PS.FullTurn(i, n);
  }

  lemma {:induction false} NextPresses(i: nat, n: nat, k: nat)
    requires i < n
    ensures Clicks(i, n, seq(k, _ => NextArrow)) == PS.AfterTicks(i, n, k)
  {
    if k > 0 {
      var cs := seq(k, _ => NextArrow);
      assert cs == seq(k - 1, _ => NextArrow) + [NextArrow];
      ClicksSnoc(i, n, seq(k - 1, _ => NextArrow), NextArrow);
      NextPresses(i, n, k - 1);
      PS.CarouselSpec(i, n, k - 1);
      if n == 1 {
        NextWraps(PS.AfterTicks(i, n, k - 1), n);
      }
    }
  }

  lemma {:induction false} ClicksSnoc(i: nat, n: nat, cs: seq<Control>, c: Control)
    requires n > 0
    decreases cs
    ensures Clicks(i, n, cs + [c]) == Use(Clicks(i, n, cs), n, c)
  {
    if cs != [] {
      assert (cs + [c])[1..] == cs[1..] + [c];
      ClicksSnoc(Use(i, n, cs[0]), n, cs[1..], c);
    }
  }

  /** The modal lists every tag, badge by badge. */
  function ModalBadges(tags: Option<seq<string>>): (r: seq<PS.Badge>)
    ensures tags.None? ==> r == []
    ensures tags.Some? ==> |r| == |tags.value| && forall j :: 0 <= j < |r| ==> r[j] == PS.TagBadge(tags.value[j])
  {
    if tags.None? then [] else seq(|tags.value|, j requires 0 <= j < |tags.value| => PS.TagBadge(tags.value[j]))
  }
}
