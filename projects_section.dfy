/** The project card of the public projects section: which images it
    shows and in what order (sorted by their order, the cover first), the
    carousel that rotates through them, the tag badges and the category. */
module ProjectsSection {
  import opened Wrappers
  import opened JsString
  import opened Sorting

  const DefaultCategory := "Construction"
  const MaxCardTags := 2

  datatype ProjectImage = ProjectImage(url: string, order: int)

  function Order(img: ProjectImage): int
  {
    img.order
  }

  /** The fields the card reads. `images` is None when the value is not an
      array; `coverImageIndex` is None when it is missing or null. */
  datatype Project = Project(imageUrl: string, images: Option<seq<ProjectImage>>, coverImageIndex: Option<int>,
                             tags: Option<seq<string>>, category: Option<string>)

  /** The project's image list, or the main image alone at order 0. */
  function Images(p: Project): (r: seq<ProjectImage>)
    ensures |r| >= 1
    ensures p.images.Some? && p.images.value != [] ==> r == p.images.value
    ensures p.images.None? || p.images.value == [] ==> r == [ProjectImage(p.imageUrl, 0)]
  {
    if p.images.Some? && |p.images.value| > 0 then p.images.value else [ProjectImage(p.imageUrl, 0)]
  }

  /** `cover_image_index || 0` */
  function CoverIndex(p: Project): int
  {
    if p.coverImageIndex.Some? then p.coverImageIndex.value else 0
  }

  /** `s.filter((_, i) => i !== c)` for an index inside `s`. */
  function Without<T>(s: seq<T>, c: nat): (r: seq<T>)
    requires c < |s|
    ensures |r| == |s| - 1
    ensures forall i :: 0 <= i < |r| ==> r[i] == if i < c then s[i] else s[i + 1]
  {
    s[..c] + s[c + 1..]
  }

  /** The cover moved to the front when its index is inside the list and
      not already first; otherwise the list unchanged. */
  function CoverFirst<T>(sorted: seq<T>, c: int): seq<T>
  {
    if 0 < c < |sorted| then [sorted[c]] + Without(sorted, c) else sorted
  }

  /** Moving the cover to the front keeps every image exactly once, puts
      the cover first, and keeps the others in their order. */
  lemma CoverFirstSpec<T>(sorted: seq<T>, c: int)
    ensures |CoverFirst(sorted, c)| == |sorted|
    ensures multiset(CoverFirst(sorted, c)) == multiset(sorted)
    ensures 0 < c < |sorted| ==>
              CoverFirst(sorted, c)[0] == sorted[c] && CoverFirst(sorted, c)[1..] == Without(sorted, c)
    ensures !(0 < c < |sorted|) ==> CoverFirst(sorted, c) == sorted
  {
    if 0 < c < |sorted| {
      assert sorted == sorted[..c] + [sorted[c]] + sorted[c + 1..];
      assert CoverFirst(sorted, c) == [sorted[c]] + sorted[..c] + sorted[c + 1..];
    }
  }

  /** The card's images in display order. */
  function OrderedImages(p: Project): seq<ProjectImage>
  {
    CoverFirst(SortBy(Images(p), Order), CoverIndex(p))
  }

  /** The card shows every image of the project once: with a cover index
      inside the list (and not 0) the cover leads and the rest follow by
      ascending order; otherwise the list is sorted by order. */
  lemma OrderedImagesSpec(p: Project)
    ensures |OrderedImages(p)| == |Images(p)| >= 1
    ensures multiset(OrderedImages(p)) == multiset(Images(p))
    ensures var sorted := SortBy(Images(p), Order);
      && SortedBy(sorted, Order)
      && (0 < CoverIndex(p) < |sorted| ==>
            OrderedImages(p)[0] == sorted[CoverIndex(p)] && SortedBy(OrderedImages(p)[1..], Order))
      && (!(0 < CoverIndex(p) < |sorted|) ==> SortedBy(OrderedImages(p), Order))
  {
    var sorted := SortBy(Images(p), Order);
    SortBySorted(Images(p), Order);
    CoverFirstSpec(sorted, CoverIndex(p));
  }

  // ---------------------------------------------------------------------
  // The carousel

  /** One timer tick: `(prev + 1) % n`. */
  function Tick(i: nat, n: nat): (r: nat)
    requires n > 0
  {
    (i + 1) % n
  }

  /** The timer runs only when there is more than one image. */
  predicate Rotates(n: nat)
  {
    n > 1
  }

  /** The index after `k` ticks of the timer, which is only set up when
      the card rotates. */
  function AfterTicks(i: nat, n: nat, k: nat): nat
    requires n > 0
  {
    if k == 0 || !Rotates(n) then i else Tick(AfterTicks(i, n, k - 1), n)
  }

  /** From a valid index the carousel stays in range, moves one step per
      tick, and after `n` ticks is back where it started; with at most one
      image it never moves. */
  lemma {:induction false} CarouselSpec(i: nat, n: nat, k: nat)
    requires i < n
    ensures AfterTicks(i, n, k) < n
    ensures Rotates(n) ==> AfterTicks(i, n, k) == (i + k) % n
    ensures !Rotates(n) ==> AfterTicks(i, n, k) == i
  {
    if k > 0 && Rotates(n) {
      CarouselSpec(i, n, k - 1);
      ModSucc(i + k - 1, n);
    }
  }

  /** Division with remainder has one answer. */
  lemma ModUnique(x: int, n: int, q: int, r: int)
    requires n > 0 && 0 <= r < n && x == q * n + r
    ensures x % n == r
  {
    var d := q - x / n;
    assert x == (x / n) * n + x % n;
    assert d * n == x % n - r by {
      assert q * n - (x / n) * n == (q - x / n) * n;
    }
    if d > 0 {
      assert false;
    } else if d < 0 {
      assert false;
    }
  }

  lemma ModSucc(a: nat, n: nat)
    requires n > 0
    ensures ((a % n) + 1) % n == (a + 1) % n
  {
    var q, r := a / n, a % n;
    assert a == q * n + r;
    if r + 1 < n {
      ModUnique(a + 1, n, q, r + 1);
      ModUnique(r + 1, n, 0, r + 1);
    } else {
      ModUnique(a + 1, n, q + 1, 0);
      ModUnique(r + 1, n, 1, 0);
    }
  }

  /** After as many ticks as there are images the carousel is back where it started. */
  lemma FullTurn(i: nat, n: nat)
    requires i < n
    ensures AfterTicks(i, n, n) == i
  {
    CarouselSpec(i, n, n);
    if Rotates(n) {
      ModUnique(i + n, n, 1, i);
    }
  }

  // ---------------------------------------------------------------------
  // Badges and captions

  datatype Badge = Badge(text: string, color: string)

  /** `getTagBadge`: the lowercased tag is searched for 'new' before 'featured'. */
  function TagBadge(tag: string): Badge
  {
    var lower := ToLower(tag);
    if Includes(lower, "new") then Badge("NEW", "bg-green-500")
    else if Includes(lower, "featured") then Badge("FEATURED", "bg-yellow-500")
    else Badge(ToUpper(tag), "bg-ocean-500")
  }

  /** A tag containing 'new' in any case is NEW even when it also contains
      'featured'; otherwise 'featured' in any case gives FEATURED; any other
      tag is shown uppercased. */
  lemma TagBadgeCases(tag: string)
    ensures (exists i :: OccursAt(ToLower(tag), "new", i)) ==> TagBadge(tag) == Badge("NEW", "bg-green-500")
    ensures (!exists i :: OccursAt(ToLower(tag), "new", i)) && (exists i :: OccursAt(ToLower(tag), "featured", i))
            ==> TagBadge(tag) == Badge("FEATURED", "bg-yellow-500")
    ensures (!exists i :: OccursAt(ToLower(tag), "new", i)) && (!exists i :: OccursAt(ToLower(tag), "featured", i))
            ==> TagBadge(tag) == Badge(ToUpper(tag), "bg-ocean-500")
  {
    IncludesIff(ToLower(tag), "new");
    IncludesIff(ToLower(tag), "featured");
  }

  /** The card shows the first two tags at most. */
  function CardTags(tags: Option<seq<string>>): (r: seq<string>)
    ensures |r| <= MaxCardTags
    ensures tags.Some? ==> |r| <= |tags.value| && r == tags.value[..|r|] && (|r| < MaxCardTags ==> r == tags.value)
    ensures tags.None? ==> r == []
  {
    if tags.None? then []
    else if |tags.value| <= MaxCardTags then tags.value
    else tags.value[..MaxCardTags]
  }

  /** `category || 'Construction'` */
  function CategoryLabel(category: Option<string>): (r: string)
    ensures r == DefaultCategory <==> category.None? || category.value == "" || category.value == DefaultCategory
    ensures r != ""
  {
    if category.None? || category.value == "" then DefaultCategory else category.value
  }
}
