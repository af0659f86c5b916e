/** The placement engine of `make_canvas_pillow`: bounded random search for a free box,
    commit by paste, and the `failed` counter. */
module Placement {
  import opened Draws
  import opened Occupancy

  datatype Option<T> = None | Some(value: T)

  /** Attempts per element (`range(100)`). */
  const Budget: nat := 100

  /** How the search for one element ends: a corner found after some attempts, the budget
      used up, or `randint` given an empty range (it raises `ValueError`). */
  datatype Search = Found(x: nat, y: nat, attempts: nat) | Exhausted | EmptyRange

  /** The corner one attempt samples: `randint(0, width - w)`, `randint(0, height - h)`. */
  function Candidate(width: nat, height: nat, w: nat, h: nat, raw: (int, int)): (p: (nat, nat))
    requires Fits(w, h, width, height)
    ensures p.0 + w <= width && p.1 + h <= height
  {
    (RandInt(width - w, raw.0), RandInt(height - h, raw.1))
  }

  /** Every corner that keeps the box inside the region can be sampled. */
  lemma CandidateCovers(width: nat, height: nat, w: nat, h: nat, x: nat, y: nat)
    requires x + w <= width && y + h <= height
    ensures Candidate(width, height, w, h, (x, y)) == (x, y)
  {
  }

  /** Whether the attempt with raw sample `raw` finds its box free of the `occupied`
      pixels. */
  ghost predicate ClearAtOf(occupied: set<(int, int)>, width: nat, height: nat, w: nat, h: nat, raw: (int, int))
    requires Fits(w, h, width, height)
  {
    var p := Candidate(width, height, w, h, raw);
    ClearOf(occupied, p.0, p.1, w, h)
  }

  /** Reference definition of the attempts from the k-th on when overlap is not allowed:
      the first attempt whose sampled box holds no occupied pixel wins, and the budget
      may run out. */
  ghost function SearchFrom(occupied: set<(int, int)>, width: nat, height: nat, w: nat, h: nat,
                            tries: seq<(int, int)>, k: nat): (r: Search)
    requires Fits(w, h, width, height) && |tries| >= Budget && k <= Budget
    decreases Budget - k
    ensures r.Found? || r.Exhausted?
    ensures r.Found? ==> k < r.attempts <= Budget
    ensures r.Found? ==> (r.x, r.y) == Candidate(width, height, w, h, tries[r.attempts - 1])
    ensures r.Found? ==> ClearAtOf(occupied, width, height, w, h, tries[r.attempts - 1])
  {
    if k == Budget then Exhausted
    else
      var p := Candidate(width, height, w, h, tries[k]);
      if ClearOf(occupied, p.0, p.1, w, h) then Found(p.0, p.1, k + 1)
      else SearchFrom(occupied, width, height, w, h, tries, k + 1)
  }

  /** The attempts from the k-th on skip occupied boxes only: every attempt before the one
      that wins found its box occupied, and so did all of them when the budget ran out. */
  lemma {:induction false} SearchFromSkipsOccupied(occupied: set<(int, int)>, width: nat, height: nat, w: nat, h: nat,
                                                   tries: seq<(int, int)>, k: nat)
    requires Fits(w, h, width, height) && |tries| >= Budget && k <= Budget
    decreases Budget - k
    ensures var r := SearchFrom(occupied, width, height, w, h, tries, k);
      r.Found? ==> forall m :: k <= m < r.attempts - 1 ==> !ClearAtOf(occupied, width, height, w, h, tries[m])
    ensures var r := SearchFrom(occupied, width, height, w, h, tries, k);
      r.Exhausted? ==> forall m :: k <= m < Budget ==> !ClearAtOf(occupied, width, height, w, h, tries[m])
  {
    if k < Budget && !ClearAtOf(occupied, width, height, w, h, tries[k]) {
      SearchFromSkipsOccupied(occupied, width, height, w, h, tries, k + 1);
    }
  }

  /** Reference definition of the search for one element on a canvas whose occupied
      pixels are `occupied`, sampling from `tries` in order: a box larger than the region
      makes `randint` raise; with overlap the first sample is taken as it is; otherwise
      the first sample whose box is free wins. */
  ghost function SearchOn(occupied: set<(int, int)>, width: nat, height: nat, w: nat, h: nat,
                          overlap: bool, tries: seq<(int, int)>): (r: Search)
    requires |tries| >= Budget
    ensures r.EmptyRange? <==> !Fits(w, h, width, height)
    ensures r.Found? ==> 1 <= r.attempts <= Budget && r.x + w <= width && r.y + h <= height
    ensures r.Found? ==> (r.x, r.y) == Candidate(width, height, w, h, tries[r.attempts - 1])
    ensures overlap && !r.EmptyRange? ==> r.Found? && r.attempts == 1
    ensures r.Found? && !overlap ==> ClearOf(occupied, r.x, r.y, w, h)
  {
    if !Fits(w, h, width, height) then EmptyRange
    else if overlap then
      var p := Candidate(width, height, w, h, tries[0]);
      Found(p.0, p.1, 1)
    else SearchFrom(occupied, width, height, w, h, tries, 0)
  }

  /** Without overlap the search takes the first free sample: every sample before the
      one it takes is occupied, and when the budget runs out all of them are. */
  lemma SearchOnFirstFree(occupied: set<(int, int)>, width: nat, height: nat, w: nat, h: nat,
                          overlap: bool, tries: seq<(int, int)>)
    requires |tries| >= Budget
    ensures var r := SearchOn(occupied, width, height, w, h, overlap, tries);
      r.Found? && !overlap ==> forall m :: 0 <= m < r.attempts - 1 ==> !ClearAtOf(occupied, width, height, w, h, tries[m])
    ensures var r := SearchOn(occupied, width, height, w, h, overlap, tries);
      r.Exhausted? ==> !overlap && forall m :: 0 <= m < Budget ==> !ClearAtOf(occupied, width, height, w, h, tries[m])
  {
    if Fits(w, h, width, height) && !overlap {
      SearchFromSkipsOccupied(occupied, width, height, w, h, tries, 0);
    }
  }

  /** On a canvas with nothing on it the first sampled corner is always taken. */
  lemma SearchOnBlank(width: nat, height: nat, w: nat, h: nat, overlap: bool, tries: seq<(int, int)>)
    requires Fits(w, h, width, height) && |tries| >= Budget
    ensures var p := Candidate(width, height, w, h, tries[0]);
      SearchOn({}, width, height, w, h, overlap, tries) == Found(p.0, p.1, 1)
  {
  }

  /** The inner loop: up to `Budget` attempts, each sampling a corner from `tries` in order.
      With `overlap` the first sample is taken as it is; otherwise the first attempt whose
      box is clear wins. */
  method FindSpot(c: Canvas, w: nat, h: nat, overlap: bool, tries: seq<(int, int)>) returns (r: Search)
    requires c.Valid() && |tries| >= Budget
    ensures r == SearchOn(c.Occupied(), c.width, c.height, w, h, overlap, tries)
    ensures r.Found? ==> c.InBounds(r.x, r.y, w, h)
    ensures r.Found? && !overlap ==> c.Clear(r.x, r.y, w, h)
  {
    if !Fits(w, h, c.width, c.height) {
      return EmptyRange;
    }
    ghost var occupied := c.Occupied();
    var k := 0;
    while k < Budget
      invariant 0 <= k <= Budget
      invariant overlap ==> k == 0
      invariant !overlap ==>
        SearchFrom(occupied, c.width, c.height, w, h, tries, k) == SearchFrom(occupied, c.width, c.height, w, h, tries, 0)
    {
      var p := Candidate(c.width, c.height, w, h, tries[k]);
      if overlap {
        return Found(p.0, p.1, k + 1);
      }
      if c.Clear(p.0, p.1, w, h) {
        return Found(p.0, p.1, k + 1);
      }
      k := k + 1;
    }
    return Exhausted;
  }

  /** On a freshly created, blank canvas the first sampled corner is always taken: a box
      that fits the region is placed at the first attempt. */
  method FirstAttemptOnBlank(width: nat, height: nat, w: nat, h: nat, tries: seq<(int, int)>)
    returns (r: Search)
    requires Fits(w, h, width, height) && |tries| >= Budget
    ensures var p := Candidate(width, height, w, h, tries[0]); r == Found(p.0, p.1, 1)
  {
    var c := new Canvas(width, height);
    SearchOnBlank(width, height, w, h, false, tries);
    r := FindSpot(c, w, h, false, tries);
  }

  /** The number of dropped elements among the outcomes. */
  function Dropped(outcomes: seq<Search>): (n: nat)
    ensures n <= |outcomes|
    ensures (forall k :: 0 <= k < |outcomes| ==> outcomes[k].Found?) ==> n == 0
  {
    if outcomes == [] then 0
    else Dropped(outcomes[..|outcomes| - 1]) + (if outcomes[|outcomes| - 1].Exhausted? then 1 else 0)
  }

  lemma DroppedAppend(outcomes: seq<Search>, r: Search)
    ensures Dropped(outcomes + [r]) == Dropped(outcomes) + (if r.Exhausted? then 1 else 0)
  {
    assert (outcomes + [r])[..|outcomes|] == outcomes;
  }

  /** The pixels of the box of sprite s placed as outcome r (empty for a dropped one). */
  ghost function Box(r: Search, s: Sprite): set<(int, int)> {
    if r.Found? then set i, j | r.x <= i < r.x + s.w && r.y <= j < r.y + s.h :: (i, j) else {}
  }

  /** Every occupied pixel was inked by some committed element. */
  ghost predicate Covered(occupied: set<(int, int)>, inks: seq<set<(int, int)>>) {
    forall p :: p in occupied ==> exists k :: 0 <= k < |inks| && p in inks[k]
  }

  /** Every inked pixel is still occupied. */
  ghost predicate Kept(occupied: set<(int, int)>, inks: seq<set<(int, int)>>) {
    forall k :: 0 <= k < |inks| ==> inks[k] <= occupied
  }

  /** No pixel was inked by two elements. */
  ghost predicate Disjoint(inks: seq<set<(int, int)>>) {
    forall k1, k2 :: 0 <= k1 < k2 < |inks| ==> inks[k1] !! inks[k2]
  }

  /** Each element's ink lies inside its own committed box; a dropped element has none. */
  ghost predicate Boxed(outcomes: seq<Search>, sprites: seq<Sprite>, inks: seq<set<(int, int)>>)
    requires |outcomes| == |inks| <= |sprites|
  {
    forall k :: 0 <= k < |inks| ==> inks[k] <= Box(outcomes[k], sprites[k])
  }

  /** The outcome of each element so far: its box fitted the `width` by `height` region,
      and it was either placed inside the region or dropped, and never dropped with
      overlap allowed. */
  ghost predicate Settled(width: nat, height: nat, overlap: bool, sprites: seq<Sprite>, outcomes: seq<Search>)
    requires |outcomes| <= |sprites|
  {
    forall m :: 0 <= m < |outcomes| ==>
      Fits(sprites[m].w, sprites[m].h, width, height) &&
      (outcomes[m].Found? || outcomes[m].Exhausted?) &&
      (outcomes[m].Found? ==> outcomes[m].x + sprites[m].w <= width && outcomes[m].y + sprites[m].h <= height) &&
      (overlap ==> outcomes[m].Found?)
  }

  lemma SettledAppend(width: nat, height: nat, overlap: bool, sprites: seq<Sprite>, outcomes: seq<Search>, r: Search)
    requires |outcomes| < |sprites| && Settled(width, height, overlap, sprites, outcomes)
    requires var s := sprites[|outcomes|];
      Fits(s.w, s.h, width, height) && (r.Found? || r.Exhausted?) &&
      (r.Found? ==> r.x + s.w <= width && r.y + s.h <= height) && (overlap ==> r.Found?)
    ensures Settled(width, height, overlap, sprites, outcomes + [r])
  {
  }

  /** The samples an outcome draws from the stream: all of the budget when it ran out. */
  function Used(r: Search): nat {
    if r.Found? then r.attempts else Budget
  }

  /** A search that does not abort draws between one sample and the whole budget, and a
      found corner is the one sampled by the last sample it drew. */
  lemma SearchOnUses(occupied: set<(int, int)>, width: nat, height: nat, w: nat, h: nat,
                     overlap: bool, tries: seq<(int, int)>)
    requires |tries| >= Budget
    ensures var r := SearchOn(occupied, width, height, w, h, overlap, tries);
      !r.EmptyRange? ==> 1 <= Used(r) <= Budget
    ensures var r := SearchOn(occupied, width, height, w, h, overlap, tries);
      r.Found? ==> Fits(w, h, width, height) && (r.x, r.y) == Candidate(width, height, w, h, tries[Used(r) - 1])
  {
  }

  /** Element k's ink is the part of its box that is occupied right after its turn. */
  ghost predicate InksOf(sprites: seq<Sprite>, outcomes: seq<Search>, grids: seq<map<(int, int), int>>,
                         inks: seq<set<(int, int)>>)
  {
    |inks| == |outcomes| <= |sprites| && |grids| == |outcomes| + 1 &&
    forall k :: 0 <= k < |inks| ==> inks[k] == OccupiedIn(grids[k + 1]) * Box(outcomes[k], sprites[k])
  }

  lemma InksOfAppend(sprites: seq<Sprite>, outcomes: seq<Search>, grids: seq<map<(int, int), int>>,
                     inks: seq<set<(int, int)>>, r: Search, g': map<(int, int), int>)
    requires InksOf(sprites, outcomes, grids, inks) && |outcomes| < |sprites|
    ensures InksOf(sprites, outcomes + [r], grids + [g'], inks + [OccupiedIn(g') * Box(r, sprites[|outcomes|])])
  {
  }

  /** One turn of the outer loop against the reference definitions: the outcome of
      sprite s is the search on the occupied pixels of grid `g` with the samples from
      `start` on; the next element's samples start after the ones this one used; and the
      grid becomes `g'`, the paste of s when it was placed, `g` itself when it was
      dropped. */
  ghost predicate Step(width: nat, height: nat, overlap: bool, s: Sprite, stream: seq<(int, int)>,
                       blend: (int, int) -> int, r: Search, start: nat, start': nat,
                       g: map<(int, int), int>, g': map<(int, int), int>)
  {
    start + Budget <= |stream| &&
    r == SearchOn(OccupiedIn(g), width, height, s.w, s.h, overlap, stream[start..]) &&
    start' == start + Used(r) &&
    if r.Found? then s.Valid() && g' == Pasted(g, s, r.x, r.y, blend) else g' == g
  }

  /** Element k's turn in a run recorded by `outcomes`, `starts` and `grids`. */
  ghost predicate StepAt(width: nat, height: nat, overlap: bool, sprites: seq<Sprite>, stream: seq<(int, int)>,
                         blend: (int, int) -> int, outcomes: seq<Search>, starts: seq<nat>,
                         grids: seq<map<(int, int), int>>, k: nat)
  {
    k < |outcomes| && k < |sprites| && k + 1 < |starts| && k + 1 < |grids| &&
    Step(width, height, overlap, sprites[k], stream, blend, outcomes[k], starts[k], starts[k + 1], grids[k], grids[k + 1])
  }

  /** The run so far, element by element: `starts[k]` is where element k's samples begin
      in the stream and `grids[k]` the alpha grid it was searched on. */
  ghost predicate Trace(width: nat, height: nat, overlap: bool, sprites: seq<Sprite>, stream: seq<(int, int)>,
                        blend: (int, int) -> int, outcomes: seq<Search>, starts: seq<nat>,
                        grids: seq<map<(int, int), int>>)
  {
    |outcomes| <= |sprites| && |starts| == |outcomes| + 1 && |grids| == |outcomes| + 1 && starts[0] == 0 &&
    forall k: nat :: k < |outcomes| ==> StepAt(width, height, overlap, sprites, stream, blend, outcomes, starts, grids, k)
  }

  lemma TraceAppend(width: nat, height: nat, overlap: bool, sprites: seq<Sprite>, stream: seq<(int, int)>,
                    blend: (int, int) -> int, outcomes: seq<Search>, starts: seq<nat>,
                    grids: seq<map<(int, int), int>>, r: Search, start': nat, g': map<(int, int), int>)
    requires Trace(width, height, overlap, sprites, stream, blend, outcomes, starts, grids)
    requires |outcomes| < |sprites|
    requires Step(width, height, overlap, sprites[|outcomes|], stream, blend, r,
                  starts[|outcomes|], start', grids[|outcomes|], g')
    ensures Trace(width, height, overlap, sprites, stream, blend, outcomes + [r], starts + [start'], grids + [g'])
  {
    var outcomes', starts', grids' := outcomes + [r], starts + [start'], grids + [g'];
    forall k: nat | k < |outcomes'|
      ensures StepAt(width, height, overlap, sprites, stream, blend, outcomes', starts', grids', k)
    {
      if k < |outcomes| {
        assert StepAt(width, height, overlap, sprites, stream, blend, outcomes, starts, grids, k);
      }
    }
  }

  /** The outer loop over the elements. `stream` holds the raw corner samples in the
      order the attempts draw them. As ghost state, `inks[k]` is the set of pixels of its
      box that element k left occupied right after its paste, and `starts` and `grids`
      trace the run (see `Trace`). */
  method PlaceAll(c: Canvas, overlap: bool, sprites: seq<Sprite>, stream: seq<(int, int)>, blend: (int, int) -> int)
    returns (aborted: bool, failed: nat, ghost outcomes: seq<Search>, ghost inks: seq<set<(int, int)>>,
             ghost starts: seq<nat>, ghost grids: seq<map<(int, int), int>>)
    requires c.Valid() && c.Blank() && Lawful(blend)
    requires forall k :: 0 <= k < |sprites| ==> sprites[k].Valid()
    requires |stream| >= Budget * |sprites|
    modifies c.alpha
    ensures c.Valid()
    // randint raises for the first element whose box is larger than the region
    ensures aborted <==> exists k :: 0 <= k < |sprites| && !Fits(sprites[k].w, sprites[k].h, c.width, c.height)
    ensures aborted ==> |outcomes| < |sprites| && !Fits(sprites[|outcomes|].w, sprites[|outcomes|].h, c.width, c.height)
    ensures !aborted ==> |outcomes| == |sprites|
    ensures |inks| == |outcomes| <= |sprites|
    // each outcome is the search on the grid left by the elements before it, with the
    // samples after theirs, and each placed element is pasted
    ensures Trace(c.width, c.height, overlap, sprites, stream, blend, outcomes, starts, grids)
    ensures grids[0] == old(c.Snapshot()) && grids[|outcomes|] == c.Snapshot()
    // each element was placed inside the region or dropped, and with overlap always placed
    ensures Settled(c.width, c.height, overlap, sprites, outcomes)
    // counter conservation
    ensures failed == Dropped(outcomes) && failed <= |sprites|
    ensures overlap ==> failed == 0
    // element k's ink is the part of its box occupied right after its turn; every occupied
    // pixel belongs to the ink of a committed element, inside its box
    ensures InksOf(sprites, outcomes, grids, inks)
    ensures Boxed(outcomes, sprites, inks) && Covered(c.Occupied(), inks)
    // without overlap, committed sprites never share an occupied pixel
    ensures !overlap ==> Kept(c.Occupied(), inks) && Disjoint(inks)
  {
    aborted, failed, outcomes, inks := false, 0, [], [];
    ghost var g0 := c.Snapshot();
    starts, grids := [0], [g0];
    var pos: nat, k := 0, 0;
    assert c.Occupied() == {};
    while k < |sprites|
      invariant 0 <= k <= |sprites|
      invariant pos + Budget * (|sprites| - k) <= |stream|
      invariant c.Valid()
      invariant |outcomes| == k
      invariant forall m :: 0 <= m < k ==> Fits(sprites[m].w, sprites[m].h, c.width, c.height)
      invariant RunOn(c.width, c.height, overlap, sprites, stream, blend, outcomes, starts, grids, inks)
      invariant starts[k] == pos && grids[0] == g0 && grids[k] == c.Snapshot()
      invariant failed == Dropped(outcomes)
      invariant InksOf(sprites, outcomes, grids, inks)
    {
      StreamLeft(pos, |sprites| - k, |stream|);
      ghost var g := c.Snapshot();
      var r := Turn(c, sprites[k], overlap, stream, pos, blend);
      if r.EmptyRange? {
        aborted := true;
        return;
      }
      if r.Exhausted? {
        failed := failed + 1;
      }
      var next: nat := pos + Used(r);
      ghost var g' := c.Snapshot();
      RunAppend(c.width, c.height, overlap, sprites, stream, blend, outcomes, starts, grids, inks,
                sprites[k], pos, g, r, next, g');
      DroppedAppend(outcomes, r);
      InksOfAppend(sprites, outcomes, grids, inks, r, g');
      outcomes, starts, grids := outcomes + [r], starts + [next], grids + [g'];
      inks := inks + [OccupiedIn(g') * Box(r, sprites[k])];
      pos := next;
      k := k + 1;
    }
  }

  /** The run so far, on values: its trace, each outcome settled inside the region, and
      the ink of each element accounted for on the grid the last element left. */
  ghost predicate RunOn(width: nat, height: nat, overlap: bool, sprites: seq<Sprite>, stream: seq<(int, int)>,
                        blend: (int, int) -> int, outcomes: seq<Search>, starts: seq<nat>,
                        grids: seq<map<(int, int), int>>, inks: seq<set<(int, int)>>)
  {
    Trace(width, height, overlap, sprites, stream, blend, outcomes, starts, grids) &&
    |inks| == |outcomes| &&
    Settled(width, height, overlap, sprites, outcomes) &&
    Boxed(outcomes, sprites, inks) &&
    Covered(OccupiedIn(grids[|outcomes|]), inks) &&
    (!overlap ==> Kept(OccupiedIn(grids[|outcomes|]), inks) && Disjoint(inks))
  }

  /** A turn that does not abort extends the run by its element, whose ink is the part of
      its box left occupied. */
  lemma RunAppend(width: nat, height: nat, overlap: bool, sprites: seq<Sprite>, stream: seq<(int, int)>,
                  blend: (int, int) -> int, outcomes: seq<Search>, starts: seq<nat>,
                  grids: seq<map<(int, int), int>>, inks: seq<set<(int, int)>>, s: Sprite, start: nat,
                  g: map<(int, int), int>, r: Search, start': nat, g': map<(int, int), int>)
    requires RunOn(width, height, overlap, sprites, stream, blend, outcomes, starts, grids, inks)
    requires |outcomes| < |sprites| && !r.EmptyRange?
    requires s == sprites[|outcomes|] && start == starts[|outcomes|] && g == grids[|outcomes|]
    requires Step(width, height, overlap, s, stream, blend, r, start, start', g, g')
    ensures RunOn(width, height, overlap, sprites, stream, blend, outcomes + [r], starts + [start'],
                  grids + [g'], inks + [OccupiedIn(g') * Box(r, s)])
  {
    var outcomes', starts', grids', inks' := outcomes + [r], starts + [start'], grids + [g'], inks + [OccupiedIn(g') * Box(r, s)];
    InkAppend(overlap, g, g', s, r, blend, inks);
    TraceAppend(width, height, overlap, sprites, stream, blend, outcomes, starts, grids, r, start', g');
    SettledAppend(width, height, overlap, sprites, outcomes, r);
    BoxedAppend(outcomes, sprites, inks, r, OccupiedIn(g') * Box(r, s));
    assert grids'[|outcomes'|] == g';
    RunOnIntro(width, height, overlap, sprites, stream, blend, outcomes', starts', grids', inks');
  }

  lemma RunOnIntro(width: nat, height: nat, overlap: bool, sprites: seq<Sprite>, stream: seq<(int, int)>,
                   blend: (int, int) -> int, outcomes: seq<Search>, starts: seq<nat>,
                   grids: seq<map<(int, int), int>>, inks: seq<set<(int, int)>>)
    requires Trace(width, height, overlap, sprites, stream, blend, outcomes, starts, grids)
    requires |inks| == |outcomes| && Settled(width, height, overlap, sprites, outcomes)
    requires Boxed(outcomes, sprites, inks) && Covered(OccupiedIn(grids[|outcomes|]), inks)
    requires !overlap ==> Kept(OccupiedIn(grids[|outcomes|]), inks) && Disjoint(inks)
    ensures RunOn(width, height, overlap, sprites, stream, blend, outcomes, starts, grids, inks)
  {
  }

  /** The commit of an element keeps the ink of all elements accounted for, the new ink
      being the part of its box left occupied: `g'` is the paste of s on grid `g` for a
      found corner (on a free box without overlap), `g` itself for a dropped element. */
  lemma InkAppend(overlap: bool, g: map<(int, int), int>, g': map<(int, int), int>, s: Sprite, r: Search,
                  blend: (int, int) -> int, inks: seq<set<(int, int)>>)
    requires Covered(OccupiedIn(g), inks)
    requires !overlap ==> Kept(OccupiedIn(g), inks) && Disjoint(inks)
    requires r.Found? ==> s.Valid() && g' == Pasted(g, s, r.x, r.y, blend)
    requires r.Found? && !overlap ==> ClearOf(OccupiedIn(g), r.x, r.y, s.w, s.h)
    requires !r.Found? ==> g' == g
    ensures Covered(OccupiedIn(g'), inks + [OccupiedIn(g') * Box(r, s)])
    ensures !overlap ==> Kept(OccupiedIn(g'), inks + [OccupiedIn(g') * Box(r, s)])
    ensures !overlap ==> Disjoint(inks + [OccupiedIn(g') * Box(r, s)])
  {
    var before, after, box := OccupiedIn(g), OccupiedIn(g'), Box(r, s);
    if r.Found? {
      PastedOutsideBox(g, s, r, blend);
      if !overlap {
        FreeBoxHoldsNone(before, r, s);
      }
    }
    CommitKeepsInvariants(overlap, before, after, box, inks);
  }

  /** One turn of the outer loop: the search for sprite s with the samples from `pos` on,
      then the commit `numbers.paste(rotated_img, (x, y), rotated_img)` of a found
      corner. */
  method Turn(c: Canvas, s: Sprite, overlap: bool, stream: seq<(int, int)>, pos: nat, blend: (int, int) -> int)
    returns (r: Search)
    requires c.Valid() && s.Valid() && Lawful(blend) && pos + Budget <= |stream|
    modifies c.alpha
    ensures c.Valid()
    ensures r.EmptyRange? <==> !Fits(s.w, s.h, c.width, c.height)
    ensures r.EmptyRange? ==> c.Snapshot() == old(c.Snapshot())
    ensures !r.EmptyRange? ==> Used(r) <= Budget
    ensures !r.EmptyRange? ==>
      Step(c.width, c.height, overlap, s, stream, blend, r, pos, pos + Used(r), old(c.Snapshot()), c.Snapshot())
  {
    r := FindSpot(c, s.w, s.h, overlap, stream[pos..]);
    if r.Found? {
      c.Paste(s, r.x, r.y, blend);
    }
  }

  /** A paste changes no occupied pixel outside its box. */
  lemma PastedOutsideBox(g: map<(int, int), int>, s: Sprite, r: Search, blend: (int, int) -> int)
    requires s.Valid() && r.Found?
    ensures OccupiedIn(Pasted(g, s, r.x, r.y, blend)) - Box(r, s) == OccupiedIn(g) - Box(r, s)
  {
    forall p | p in g && InBox(p, r.x, r.y, s.w, s.h)
      ensures p in Box(r, s)
    {
      assert p == (p.0, p.1);
    }
  }

  /** With `left` elements still to place, the stream holds a full budget from `pos`. */
  lemma StreamLeft(pos: nat, left: nat, size: nat)
    requires left >= 1 && pos + Budget * left <= size
    ensures pos + Budget <= size && Budget * left == Budget + Budget * (left - 1)
  {
  }

  lemma BoxedAppend(outcomes: seq<Search>, sprites: seq<Sprite>, inks: seq<set<(int, int)>>,
                    r: Search, ink: set<(int, int)>)
    requires |outcomes| == |inks| < |sprites| && Boxed(outcomes, sprites, inks)
    requires ink <= Box(r, sprites[|outcomes|])
    ensures Boxed(outcomes + [r], sprites, inks + [ink])
  {
  }

  /** A free box holds no occupied pixel. */
  lemma FreeBoxHoldsNone(occupied: set<(int, int)>, r: Search, s: Sprite)
    requires r.Found? && ClearOf(occupied, r.x, r.y, s.w, s.h)
    ensures occupied * Box(r, s) == {}
  {
    forall p | p in Box(r, s)
      ensures p !in occupied
    {
      assert Free(occupied, p.0, p.1);
    }
  }

  /** Committing an element keeps the ink of all elements accounted for: `before` and
      `after` are the occupied pixels around the paste, which changes nothing outside
      `box`. */
  lemma CommitKeepsInvariants(overlap: bool, before: set<(int, int)>, after: set<(int, int)>,
                              box: set<(int, int)>, inks: seq<set<(int, int)>>)
    requires Covered(before, inks)
    requires !overlap ==> Kept(before, inks) && Disjoint(inks) && before * box == {}
    requires after - box == before - box
    ensures Covered(after, inks + [after * box])
    ensures !overlap ==> Kept(after, inks + [after * box]) && Disjoint(inks + [after * box])
  {
    var inks' := inks + [after * box];
    forall p | p in after
      ensures exists k :: 0 <= k < |inks'| && p in inks'[k]
    {
      if p in box {
        assert p in inks'[|inks|];
      } else {
        assert p in after - box;
        assert p in before;
        var k :| 0 <= k < |inks| && p in inks[k];
        assert p in inks'[k];
      }
    }
    if !overlap {
      forall k, p | 0 <= k < |inks'| && p in inks'[k]
        ensures p in after
      {
        if k < |inks| {
          assert p in before;
          assert p in box ==> p in before * box;
          assert p in before - box;
        }
      }
      forall k1, k2 | 0 <= k1 < k2 < |inks'|
        ensures inks'[k1] !! inks'[k2]
      {
        if k2 == |inks| {
          forall p | p in inks'[k1] ensures p !in inks'[k2] {
            assert p in before;
            assert p in box ==> p in before * box;
          }
        }
      }
    }
  }

  /** The summary line `Placed {placed}/{requested}`. */
  datatype Summary = Summary(placed: nat, requested: nat)

  /** `make_canvas_pillow` without rendering: the drawable region is the canvas less the
      margin on every side; `Image.new` raises for a negative size and `randint` for a box
      larger than the region, and either aborts the run (`summary` is then `None`). */
  method MakeCanvas(canvasW: int, canvasH: int, margin: int, overlap: bool, sprites: seq<Sprite>,
                    stream: seq<(int, int)>, blend: (int, int) -> int)
    returns (board: Canvas?, summary: Option<Summary>, ghost outcomes: seq<Search>,
             ghost inks: seq<set<(int, int)>>, ghost starts: seq<nat>, ghost grids: seq<map<(int, int), int>>)
    requires Lawful(blend)
    requires forall k :: 0 <= k < |sprites| ==> sprites[k].Valid()
    requires |stream| >= Budget * |sprites|
    ensures summary.None? <==>
      canvasW - 2 * margin < 0 || canvasH - 2 * margin < 0 ||
      exists k :: 0 <= k < |sprites| && !Fits(sprites[k].w, sprites[k].h, canvasW - 2 * margin, canvasH - 2 * margin)
    ensures summary.Some? ==> board != null && fresh(board.alpha) && board.Valid()
    ensures summary.Some? ==> board.width == canvasW - 2 * margin && board.height == canvasH - 2 * margin
    ensures summary.Some? ==> summary.value.requested == |sprites| && |outcomes| == |sprites| == |inks|
    ensures summary.Some? ==> summary.value.placed + Dropped(outcomes) == |sprites|
    ensures summary.Some? && overlap ==> summary.value.placed == |sprites|
    // the run, element by element, starting from a transparent canvas
    ensures summary.Some? ==> Trace(board.width, board.height, overlap, sprites, stream, blend, outcomes, starts, grids)
    ensures summary.Some? ==> grids[0] == BlankGrid(board.width, board.height) && grids[|sprites|] == board.Snapshot()
    ensures summary.Some? ==> Settled(board.width, board.height, overlap, sprites, outcomes)
    ensures summary.Some? ==> InksOf(sprites, outcomes, grids, inks)
    ensures summary.Some? ==> Boxed(outcomes, sprites, inks) && Covered(board.Occupied(), inks)
    ensures summary.Some? && !overlap ==> Kept(board.Occupied(), inks) && Disjoint(inks)
  {
    outcomes, inks, starts, grids := [], [], [0], [map[]];
    if canvasW - 2 * margin < 0 || canvasH - 2 * margin < 0 {
      return null, None, outcomes, inks, starts, grids;
    }
    board := new Canvas(canvasW - 2 * margin, canvasH - 2 * margin);
    var aborted, failed;
    aborted, failed, outcomes, inks, starts, grids := PlaceAll(board, overlap, sprites, stream, blend);
    if aborted {
      return board, None, outcomes, inks, starts, grids;
    }
    summary := Some(Summary(|sprites| - failed, |sprites|));
  }
}
