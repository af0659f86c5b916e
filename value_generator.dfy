/** `random_wangweighted_number`: the display string of one board element, as a
    function of the random draws it makes and of a number-to-words converter. */
module ValueGenerator {
  import opened Draws
  import opened Numerals

  /** Python's dynamically typed `value`: an `int`, or an already formatted `str`. */
  datatype Value = Int(n: int) | Str(s: string)

  /** The draws the generator makes, in the order it makes them:
      `kind` is the first `random.random()`, choosing the magnitude bucket;
      `magnitude` is the raw `randint` sample for an integer bucket;
      `fixed` is the text `f"{random.uniform(0, 99):.2f}"` for the decimal bucket;
      `wordRoll` and `negateRoll` are the two later `random.random()` draws. */
  datatype Rolls = Rolls(kind: real, magnitude: int, fixed: string, wordRoll: real, negateRoll: real)

  /** Below this first draw the value is an integer; at or above it, a decimal string. */
  const DecimalFrom: real := 0.75

  /** The chance threshold of the word and of the negation branch. */
  const Tenth: real := 0.1

  /** The largest integer of the bucket the first draw selects. */
  function BucketMax(kind: real): nat
    requires kind < DecimalFrom
  {
    if kind < 0.30 then 9 else if kind < 0.50 then 99 else 999
  }

  /** The value before the word and negation step. */
  function Pick(d: Rolls): (v: Value)
    ensures d.kind < DecimalFrom ==> v.Int? && 0 <= v.n <= BucketMax(d.kind)
    ensures d.kind < DecimalFrom && 0 <= d.magnitude <= BucketMax(d.kind) ==> v == Int(d.magnitude)
    ensures d.kind >= DecimalFrom ==> v.Str? && |v.s| <= |d.fixed| && v.s == d.fixed[..|v.s|]
    // `rstrip('0')`: no trailing '0' is left, and only '0's were removed
    ensures d.kind >= DecimalFrom ==> (v.s == [] || v.s[|v.s| - 1] != '0')
    ensures d.kind >= DecimalFrom ==> forall i :: |v.s| <= i < |d.fixed| ==> d.fixed[i] == '0'
  {
    if d.kind < DecimalFrom then Int(RandInt(BucketMax(d.kind), d.magnitude))
    else Str(RStripZeros(d.fixed))
  }

  /** True when the word branch is taken: words allowed, the roll succeeds, and the
      value is an integer. */
  predicate Spells(words: bool, d: Rolls) {
    words && d.wordRoll < Tenth && d.kind < DecimalFrom
  }

  /** The value after the word and negation step. */
  function Choose(words: bool, d: Rolls, spell: int -> string): (v: Value)
    // a decimal string passes through both steps unchanged
    ensures d.kind >= DecimalFrom ==> v == Pick(d)
    // the words branch converts exactly the integer that was picked
    ensures v.Str? && d.kind < DecimalFrom <==> Spells(words, d)
    ensures Spells(words, d) ==> v == Str(spell(Pick(d).n))
    // an integer stays within its bucket, up to sign
    ensures v.Int? ==> d.kind < DecimalFrom
    ensures v.Int? ==> -(BucketMax(d.kind) as int) <= v.n <= BucketMax(d.kind)
    ensures v.Int? ==> v.n == Pick(d).n || v.n == -Pick(d).n
    // a negative value only arises from the negation branch
    ensures v.Int? && v.n < 0 ==> !Spells(words, d) && d.negateRoll < Tenth
    // outside the word branch an integer is negated exactly when the negation roll succeeds
    ensures d.kind < DecimalFrom && !Spells(words, d) ==>
      v == Int(if d.negateRoll < Tenth then -Pick(d).n else Pick(d).n)
  {
    var value := Pick(d);
    if words && d.wordRoll < Tenth && value.Int? then Str(spell(value.n))
    else if d.negateRoll < Tenth && value.Int? then Int(-value.n)
    else value
  }

  /** Python's `str(value)`: an integer becomes the numeral that reads back as it, a
      string is returned as it is. */
  function Show(v: Value): (r: string)
    ensures v.Int? ==> IsNumeral(r) && ParseInt(r) == v.n
    ensures v.Str? ==> r == v.s
  {
    match v
    case Int(n) => IntToStringRoundTrip(n); IntToString(n)
    case Str(s) => s
  }

  /** The whole generator: the decimal text stripped of its trailing zeros, the words of
      the picked integer, or the numeral of the integer, negated or not. */
  function Generate(words: bool, d: Rolls, spell: int -> string): (r: string)
    ensures d.kind >= DecimalFrom ==> r == RStripZeros(d.fixed)
    ensures Spells(words, d) ==> r == spell(Pick(d).n)
    ensures d.kind < DecimalFrom && !Spells(words, d) ==>
      IsNumeral(r) && ParseInt(r) == (if d.negateRoll < Tenth then -Pick(d).n else Pick(d).n)
  {
    Show(Choose(words, d, spell))
  }

  /** The generated text is never empty, provided the word converter never returns
      the empty string and the decimal draw has the two-decimal shape. */
  lemma GenerateNonEmpty(words: bool, d: Rolls, spell: int -> string)
    requires forall n :: spell(n) != []
    requires d.kind >= DecimalFrom ==> IsFixed2(d.fixed)
    ensures Generate(words, d, spell) != []
  {
    if d.kind >= DecimalFrom {
      StripFixed2(d.fixed);
    }
  }

  /** Outside the word branch an integer bucket yields a numeral, never "-0", whose value
      lies within the bucket up to sign. */
  lemma GenerateNumeral(words: bool, d: Rolls, spell: int -> string)
    requires d.kind < DecimalFrom && !Spells(words, d)
    ensures var t := Generate(words, d, spell);
      IsNumeral(t) && -(BucketMax(d.kind) as int) <= ParseInt(t) <= BucketMax(d.kind)
  {
    IntToStringRoundTrip(Choose(words, d, spell).n);
  }

  /** The decimal bucket yields `rstrip('0')` of the two-decimal text, which keeps the point
      and is a prefix of it; it may end in '.'. */
  lemma GenerateDecimal(words: bool, d: Rolls, spell: int -> string)
    requires d.kind >= DecimalFrom && IsFixed2(d.fixed)
    ensures var t := Generate(words, d, spell);
      t == d.fixed[..|t|] && |d.fixed| - 2 <= |t| && t[|d.fixed| - 3] == '.'
  {
    StripFixed2(d.fixed);
  }
}
