# Numberwang board: placement engine model

A Dafny model of the core of `numberwang.py`, which scatters randomly styled numbers
and number-words over a transparent layer, then composites that layer onto a
background. The model covers:

- **the value generator** `random_wangweighted_number`. The first draw picks a bucket:
  an integer in [0,9], [0,99] or [0,999], or a two-decimal string with its trailing
  zeros stripped. Two more draws may then turn an integer into words or negate it.
  `str` prints the result.
- **the area clamp**. An element image larger than a tenth of the drawable area is shrunk
  to a third of its width and a third of its height.
- **the placement engine** of `make_canvas_pillow`. The occupancy layer `numbers` is a
  `Canvas` class over an `array2<int>` of alpha values. Each element gets up to 100
  attempts. An attempt samples a corner so that the box fits the region. Without
  overlap, the corner is used only if the crop of the alpha channel at that box is
  entirely transparent. The element is then pasted in place, or else counted in
  `failed`.

Random draws become caller-supplied values. `random.randint(0, n)` is `Draws.RandInt`: a
raw sample clamped into [0, n], which returns any in-range sample unchanged. The corner
samples form one stream that the searches consume in order, one pair per attempt: a
search that stops early leaves the rest of its budget to the next element. The
distribution of the draws is not modelled; only the set of outcomes they can produce is.

Modules: `Draws`, `Numerals` (`str` of an integer, `rstrip('0')`, the `.2f` text
shape), `ValueGenerator`, `AreaClamp`, `Occupancy` (sprite, canvas, paste) and
`Placement` (search, turn, outer loop, run).

The placement engine is stated twice. `Occupancy.Canvas` and the methods `FindSpot`,
`Turn`, `PlaceAll` and `MakeCanvas` work in place on the alpha array, as the source
does. Beside them, pure reference definitions say what one run means: `SearchOn` is the
outcome of one element's search on a set of occupied pixels, `Pasted` the alpha grid
after a paste, and `Trace` the run element by element. `PlaceAll` proves that the run it
performs is such a trace: element k is searched on the grid the elements before it
left, with the samples after theirs, and the grid then becomes its paste, or stays as
it was when the element was dropped.

## Edge behaviour of the code

- A decimal draw formatted as `"42.00"` becomes `"42."`: `rstrip('0')` stops at the
  point and nothing strips it. `Numerals.StripKeepsTrailingPoint` shows this.
- A sprite wider or taller than the drawable region is not guarded. `randint(0, n)`
  with `n < 0` raises, so the whole run aborts instead of dropping that element.
  `Placement.SearchOn` and `Placement.FindSpot` return `EmptyRange` for it, and
  `Placement.PlaceAll` and `Placement.MakeCanvas` report the abort.
- An oversized element that is less than 3 pixels wide or tall is resized to a zero
  side, which Pillow's `resize` refuses with `ValueError`, ending the run.
  `AreaClamp.Clamp` returns `ResizeFails` for it.
- The two-digit bucket is [0,99], and an integer may be negated.

## Model

| member | source | states |
|---|---|---|
| `Draws.RandInt` | numberwang.py:19-23 | a `randint(0, hi)` draw lies in [0, hi], and every value of that range can be drawn |
| `Numerals.IntToString` | numberwang.py:33 | `str` of an integer is a canonical numeral (no leading zero, never "-0"), with a '-' exactly for negative values |
| `Numerals.NatToString` | numberwang.py:33 | the digits of a natural number form a canonical numeral, which is "0" exactly for zero |
| `Numerals.IntToStringRoundTrip` | numberwang.py:33 | reading the printed text back gives the integer |
| `Numerals.ParseIntRoundTrip` | numberwang.py:33 | printing the value of any numeral gives back that numeral, so printing is a bijection onto numerals |
| `Numerals.RStripZeros` | numberwang.py:25 | `rstrip('0')` returns a prefix of its input that does not end in '0', and only '0's were removed |
| `Numerals.StripFixed2` | numberwang.py:25 | on a two-decimal text the point survives, so the result is never empty; it ends in '.' exactly when both decimals are 0 |
| `Numerals.StripKeepsTrailingPoint` | numberwang.py:25 | "42.00" becomes "42.", "42.50" becomes "42.5", "0.00" becomes "0." |
| `ValueGenerator.Pick` | numberwang.py:15-25 | the three integer buckets yield values in [0,9], [0,99] and [0,999]; the decimal bucket yields `rstrip('0')` of the formatted text: a prefix of it with no trailing '0', only '0's removed |
| `ValueGenerator.Choose` | numberwang.py:15-31 | decimal strings pass through unchanged; words are produced exactly when words are allowed, the roll succeeds and the value is an integer, and then spell that integer; otherwise an integer is negated exactly when the negation roll succeeds, so it stays within its bucket up to sign and is negative only through the negation branch |
| `ValueGenerator.Show` | numberwang.py:33 | `str` of an integer is a numeral that reads back as that integer; a string is returned as it is |
| `ValueGenerator.Generate` | numberwang.py:15-33 | the decimal bucket returns the stripped decimal text, the word branch the words of the picked integer, and otherwise a numeral reading back as the picked integer, negated exactly when the negation roll succeeds |
| `ValueGenerator.GenerateNonEmpty` | numberwang.py:15-33 | the generated text is never empty |
| `ValueGenerator.GenerateNumeral` | numberwang.py:18-33 | outside the word branch an integer bucket prints a numeral whose value lies in the bucket up to sign |
| `ValueGenerator.GenerateDecimal` | numberwang.py:24-33 | the decimal bucket prints a prefix of the two-decimal text that keeps its point |
| `AreaClamp.Clamp` | numberwang.py:79-83 | the resize fails exactly when the area exceeds a tenth of the drawable area and a side is shorter than 3; otherwise the size changes exactly when the area exceeds that tenth, and then becomes (w//3, h//3) with both sides at least 1 and smaller than before |
| `AreaClamp.OversizedIsIntegerTest` | numberwang.py:80-81 | `area > 0.10 * canvas_area` in exact arithmetic is the integer test `10 * area > canvas_area` |
| `AreaClamp.ClampShrinksArea` | numberwang.py:80-83 | when the clamp fires on an element at least 3 pixels on each side, the resize succeeds and the area falls to at most a ninth |
| `AreaClamp.ClampMayStayOversized` | numberwang.py:80-83 | the clamp shrinks only once: a 300x300 element on a drawable area of 1000 becomes 100x100, still oversized |
| `AreaClamp.ClampThinFails` | numberwang.py:80-83 | an oversized element 2 pixels wide makes the resize fail |
| `Occupancy.Canvas.constructor` | numberwang.py:53 | the occupancy layer starts with the drawable region's size and every pixel transparent: its grid is the blank grid and no pixel is occupied |
| `Occupancy.Canvas.Clear` | numberwang.py:98-101 | the crop's alpha channel has no non-zero pixel exactly when the box holds no occupied pixel |
| `Occupancy.Canvas.Paste` | numberwang.py:106 | the layer's grid becomes the `Pasted` grid of the one before: each pixel of the box is blended with the sprite's alpha, every pixel outside the box is unchanged, and pixels under a transparent sprite pixel are unchanged |
| `Occupancy.Canvas.BlendBox` | numberwang.py:106 | the cell update of the paste: blend inside the box, unchanged outside |
| `Occupancy.PastedFromCells` | numberwang.py:106 | a grid that agrees with the paste pixel by pixel over the same pixels is the `Pasted` grid |
| `Placement.Candidate` | numberwang.py:92-93 | every sampled corner keeps the whole box inside the region |
| `Placement.CandidateCovers` | numberwang.py:92-93 | every corner that keeps the box inside the region can be sampled |
| `Placement.SearchFrom` | numberwang.py:91-103 | without overlap, the attempts from the k-th on either find a corner at an attempt within the budget, whose sampled box is clear, or use up the budget |
| `Placement.SearchFromSkipsOccupied` | numberwang.py:98-103 | every attempt before the winning one found its box occupied, and all of them did when the budget ran out |
| `Placement.SearchOn` | numberwang.py:89-103 | the search gives an empty range exactly when the box does not fit; a found corner keeps the box inside the region and is the sample of its attempt; with overlap the first sample is taken; without overlap the found box is clear |
| `Placement.SearchOnFirstFree` | numberwang.py:95-103 | without overlap the search takes the first clear sample, and is exhausted only when none of the 100 samples is clear, which never happens with overlap |
| `Placement.SearchOnBlank` | numberwang.py:89-103 | on a layer with no occupied pixel the first sampled corner is taken |
| `Placement.FindSpot` | numberwang.py:89-103 | the loop's result is `SearchOn` on the layer's occupied pixels and samples; a found corner is inside the layer and, without overlap, its crop is clear |
| `Placement.FirstAttemptOnBlank` | numberwang.py:53-103 | on a freshly created layer, a box that fits is placed at the first attempt |
| `Placement.SearchOnUses` | numberwang.py:91-104 | a search that does not abort draws between 1 and 100 samples, and a found corner is the one sampled by its last draw |
| `Placement.InksOfAppend` | numberwang.py:105-106 | the ink of the new element is the part of its box occupied right after its turn, and earlier inks are unchanged |
| `Placement.Dropped` | numberwang.py:105-108 | the number of dropped elements is at most the number of elements, and zero when all were placed |
| `Placement.DroppedAppend` | numberwang.py:107-108 | `failed` grows by one exactly for a dropped element |
| `Placement.Turn` | numberwang.py:89-108 | one element: an empty range exactly when its box does not fit, leaving the layer unchanged; otherwise the outcome is `SearchOn` on the layer before, the next samples start after the ones used, and the layer becomes the `Pasted` grid of a found element or stays as it was for a dropped one |
| `Placement.TraceAppend` | numberwang.py:58-108 | a turn on the grid and samples the run left extends the trace by that element |
| `Placement.SettledAppend` | numberwang.py:92-108 | an element placed inside the region or dropped, never dropped with overlap, extends the settled outcomes |
| `Placement.BoxedAppend` | numberwang.py:105-106 | ink inside the element's box keeps every element's ink inside its box |
| `Placement.PastedOutsideBox` | numberwang.py:106 | a paste changes no occupied pixel outside its box |
| `Placement.FreeBoxHoldsNone` | numberwang.py:98-101 | a clear box holds no occupied pixel |
| `Placement.CommitKeepsInvariants` | numberwang.py:98-106 | after a commit every occupied pixel is still inked by some element; without overlap, earlier ink stays occupied and the new ink shares no pixel with it |
| `Placement.InkAppend` | numberwang.py:98-108 | a turn's paste, or its drop, keeps the ink accounting of `CommitKeepsInvariants` with the new ink being the part of the element's box left occupied |
| `Placement.RunAppend` | numberwang.py:58-108 | a turn that does not abort extends the whole run: trace, settled outcomes, and ink accounting |
| `Placement.PlaceAll` | numberwang.py:58-108 | the loop aborts exactly when some element's box is larger than the region, at the first such element. Otherwise its outcomes form a `Trace` from the blank layer to the final layer: each is `SearchOn` on the grid the elements before it left, with the samples after theirs, and the grid becomes the paste of a placed element and stays as it was for a dropped one. Every element is placed inside the region or dropped, `failed` counts the dropped ones and is 0 with overlap. Element k's ink is the part of its box occupied right after its turn (`InksOf`); every occupied pixel belongs to a committed element's ink; without overlap no two committed sprites share an occupied pixel and all ink stays occupied |
| `Placement.MakeCanvas` | numberwang.py:53-115 | the run aborts exactly when the drawable size is negative or some box does not fit; otherwise the layer has the drawable size, the run is a `Trace` from the blank grid to the final layer with every element settled and its ink (`InksOf`) accounted for, placed plus dropped equals requested, and, with overlap, all are placed |

## Left out

- Font loading, glyph metrics and drawing: these are foreign library calls. Each element
  enters placement as its final sprite: width, height and alpha mask.
- Rotation with `expand=True` and nearest-neighbour resizing: library image transforms.
  `AreaClamp.Clamp` gives the pre-rotation size, or the failure of the resize.
  Placement takes the rotated sprite as input, so the two are not chained in the model,
  and an element whose resize fails never reaches `Placement.MakeCanvas`.
- Normal-distributed scale and rotation, `random.uniform`, `:.2f` formatting and colour
  choice: floating-point numerics and draws. The decimal text enters as `Rolls.fixed`,
  and its shape is the predicate `IsFixed2`.
- `num2words`: a foreign library, passed in as the function `spell`.
- The single shared random stream: each kind of draw gets its own input. The corner
  samples are consumed in order, but the model does not track whether the other draws
  are consumed or skipped by short-circuiting (the `random.random()` of the word test).
- `Occupancy.Canvas.Paste`: the library's alpha-blend rounding is a caller-supplied
  `blend`. It is only required to stay in 0..255 and to leave a pixel as it was under a
  transparent mask, so the model does not compute exact alpha values.
- The other RGBA channels of the occupancy layer: placement reads only the alpha channel.
- Background compositing, `save`, the printed summary text and the `__main__`
  configuration: I/O and glue. The summary's two numbers are `Placement.Summary`.
- The canvas left behind by an aborted run: the model reports the abort, while the source
  raises and writes nothing.
