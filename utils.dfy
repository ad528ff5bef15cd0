/**
  `isRTLText` of the chat widget: whether a message should be laid out right
  to left. A text is right to left when one of its first ten non-white-space
  code units is in the Hebrew or Arabic block, or when more than 30% of its
  first hundred code units are right-to-left units.
 */
module Utils {
  import opened JsText

  /** `text.replace(/\s+/g, '')`: the code units of `s` that are not white space, in order. */
  function RemoveWhiteSpace(s: JsString): (r: JsString)
    ensures |r| <= |s|
    ensures forall i | 0 <= i < |r| :: !IsWhiteSpace(r[i])
  {
    if s == [] then []
    else RemoveWhiteSpace(s[..|s| - 1]) + (if IsWhiteSpace(s[|s| - 1]) then [] else [s[|s| - 1]])
  }

  /** `s.substring(0, n)` for `n >= 0`: at most the first `n` code units. */
  function Prefix(s: JsString, n: nat): (r: JsString)
    ensures |r| == if n < |s| then n else |s|
  {
    if n < |s| then s[..n] else s
  }

  /** The Hebrew block, U+0590 to U+05FF. */
  predicate IsHebrew(c: CodeUnit) {
    0x0590 <= c <= 0x05FF
  }

  /** The Arabic block, U+0600 to U+06FF. */
  predicate IsArabic(c: CodeUnit) {
    0x0600 <= c <= 0x06FF
  }

  /** `regex.test(s)` for a one-class pattern: some code unit of `s` is in the class. */
  predicate SomeUnit(s: JsString, inClass: CodeUnit -> bool) {
    exists i | 0 <= i < |s| :: inClass(s[i])
  }

  /**
    The class `rtlChars` tests: U+0591 to U+07FF, the marks U+200F, U+202B
    and U+202E, and the presentation forms U+FB1D to U+FDFD and U+FE70 to
    U+FEFC.
   */
  predicate IsRtlUnit(c: CodeUnit) {
    || (0x0591 <= c <= 0x07FF)
    || c == 0x200F || c == 0x202B || c == 0x202E
    || (0xFB1D <= c <= 0xFDFD)
    || (0xFE70 <= c <= 0xFEFC)
  }

  /** The number of right-to-left units in `s`. */
  function RtlCount(s: JsString): (n: nat)
    ensures n <= |s|
  {
    if s == [] then 0
    else RtlCount(s[..|s| - 1]) + (if IsRtlUnit(s[|s| - 1]) then 1 else 0)
  }

  /** `firstChars`: the first ten code units that are not white space. */
  function FirstChars(text: JsString): JsString {
    Prefix(RemoveWhiteSpace(text), 10)
  }

  /** `sample`: the first hundred code units. */
  function Sample(text: JsString): JsString {
    Prefix(text, 100)
  }

  /** The leading test: a Hebrew or Arabic unit among the first ten visible ones. */
  predicate LeadingRtl(text: JsString) {
    SomeUnit(FirstChars(text), IsHebrew) || SomeUnit(FirstChars(text), IsArabic)
  }

  /**
    `rtlCount / sample.length > 0.3`, in exact arithmetic. The sample is at
    most 100 units long, so no quotient of two such numbers other than 0.3
    itself lies within a double's rounding error of 0.3, and the quotient
    equal to 0.3 rounds to the same double as the literal.
   */
  predicate MostlyRtl(count: nat, length: nat) {
    10 * count > 3 * length
  }

  /**
    The answer `isRTLText` gives. Saying "right to left" takes a non-empty
    text and some evidence: a leading Hebrew or Arabic unit, or at least one
    right-to-left unit in the sample.
   */
  predicate RtlVerdict(text: JsString)
    ensures RtlVerdict(text) ==> text != [] && (LeadingRtl(text) || RtlCount(Sample(text)) > 0)
  {
    text != [] && (LeadingRtl(text) || MostlyRtl(RtlCount(Sample(text)), |Sample(text)|))
  }

  /** `isRTLText(text)` */
  method IsRTLText(text: JsString) returns (r: bool)
    ensures r == RtlVerdict(text)
  {
    if text == [] {
      return false;
    }
    var firstChars := FirstChars(text);
    if SomeUnit(firstChars, IsHebrew) || SomeUnit(firstChars, IsArabic) {
      return true;
    }
    var sample := Prefix(text, 100);
    var rtlCount := 0;
    for i := 0 to |sample|
      invariant rtlCount == RtlCount(sample[..i])
    {
      assert sample[..i + 1][..i] == sample[..i];
      if IsRtlUnit(sample[i]) {
        rtlCount := rtlCount + 1;
      }
    }
    assert sample[..|sample|] == sample;
    return MostlyRtl(rtlCount, |sample|);
  }

  // ---------------------------------------------------------------------
  // what the verdict means
  // ---------------------------------------------------------------------

  /** Removing white space from a concatenation removes it from each part. */
  lemma {:induction false} RemoveWhiteSpaceAppend(a: JsString, b: JsString)
    ensures RemoveWhiteSpace(a + b) == RemoveWhiteSpace(a) + RemoveWhiteSpace(b)
    decreases |b|
  {
    if b == [] {
      assert a + b == a;
    } else {
      var b' := b[..|b| - 1];
      assert (a + b)[..|a + b| - 1] == a + b';
      assert (a + b)[|a + b| - 1] == b[|b| - 1];
      RemoveWhiteSpaceAppend(a, b');
    }
  }

  /** Every unit left after removing white space comes from `s`, at a position with as many visible units before it. */
  lemma {:induction false} RemoveWhiteSpaceOrigin(s: JsString, j: nat)
    requires j < |RemoveWhiteSpace(s)|
    ensures exists k | 0 <= k < |s| :: s[k] == RemoveWhiteSpace(s)[j] && |RemoveWhiteSpace(s[..k])| == j
    decreases |s|
  {
    var init := s[..|s| - 1];
    var last := s[|s| - 1];
    if j < |RemoveWhiteSpace(init)| {
      RemoveWhiteSpaceOrigin(init, j);
      var k :| 0 <= k < |init| && init[k] == RemoveWhiteSpace(init)[j] && |RemoveWhiteSpace(init[..k])| == j;
      assert s[..k] == init[..k];
    } else {
      assert s[..|s| - 1] == init;
    }
  }

  /** A visible unit at position `k` of `text` is the `n`-th unit left after removing white space. */
  lemma VisibleUnitPosition(text: JsString, k: nat)
    requires k < |text| && !IsWhiteSpace(text[k])
    ensures var n := |RemoveWhiteSpace(text[..k])|;
      n < |RemoveWhiteSpace(text)| && RemoveWhiteSpace(text)[n] == text[k]
  {
    assert text == text[..k] + [text[k]] + text[k + 1..];
    RemoveWhiteSpaceAppend(text[..k] + [text[k]], text[k + 1..]);
    RemoveWhiteSpaceAppend(text[..k], [text[k]]);
    assert RemoveWhiteSpace([text[k]]) == [text[k]] by {
      assert [text[k]][..0] == [];
    }
  }

  /** Hebrew and Arabic units are never white space. */
  lemma LeadingBlockVisible(c: CodeUnit)
    requires IsHebrew(c) || IsArabic(c)
    ensures !IsWhiteSpace(c)
  {
  }

  /**
    The leading test, stated on the text itself: it passes exactly when the
    text has a Hebrew or Arabic unit with fewer than ten visible units before
    it.
   */
  lemma LeadingRtlIff(text: JsString)
    ensures LeadingRtl(text) <==>
      exists k | 0 <= k < |text| :: (IsHebrew(text[k]) || IsArabic(text[k])) && |RemoveWhiteSpace(text[..k])| < 10
  {
    var first := FirstChars(text);
    var visible := RemoveWhiteSpace(text);
    if LeadingRtl(text) {
      var j :| 0 <= j < |first| && (IsHebrew(first[j]) || IsArabic(first[j]));
      assert first[j] == visible[j];
      RemoveWhiteSpaceOrigin(text, j);
      var k :| 0 <= k < |text| && text[k] == visible[j] && |RemoveWhiteSpace(text[..k])| == j;
      assert (IsHebrew(text[k]) || IsArabic(text[k])) && |RemoveWhiteSpace(text[..k])| < 10;
    }
    if exists k | 0 <= k < |text| :: (IsHebrew(text[k]) || IsArabic(text[k])) && |RemoveWhiteSpace(text[..k])| < 10 {
      var k :| 0 <= k < |text| && (IsHebrew(text[k]) || IsArabic(text[k])) && |RemoveWhiteSpace(text[..k])| < 10;
      LeadingBlockVisible(text[k]);
      VisibleUnitPosition(text, k);
      var n := |RemoveWhiteSpace(text[..k])|;
      assert first[n] == text[k];
      if IsHebrew(text[k]) {
        assert SomeUnit(first, IsHebrew);
      } else {
        assert SomeUnit(first, IsArabic);
      }
    }
  }

  /** The empty text is never right to left. */
  lemma EmptyIsLeftToRight()
    ensures !RtlVerdict([])
  {
  }

  /** A Hebrew or Arabic unit with fewer than ten visible units before it makes the text right to left. */
  lemma LeadingUnitDecides(text: JsString, k: nat)
    requires k < |text| && (IsHebrew(text[k]) || IsArabic(text[k]))
    requires |RemoveWhiteSpace(text[..k])| < 10
    ensures RtlVerdict(text)
  {
    LeadingRtlIff(text);
  }

  /**
    Without a leading Hebrew or Arabic unit, the verdict is exactly the 30%
    threshold on the sample. The threshold is stated in exact arithmetic;
    that it agrees with the floating-point comparison of the code is argued
    at `MostlyRtl`, not proved.
   */
  lemma ThresholdDecides(text: JsString)
    requires text != [] && !LeadingRtl(text)
    ensures RtlVerdict(text) <==> 10 * RtlCount(Sample(text)) > 3 * |Sample(text)|
  {
  }

  lemma {:induction false} RtlCountAll(s: JsString)
    requires forall i | 0 <= i < |s| :: IsRtlUnit(s[i])
    ensures RtlCount(s) == |s|
    decreases |s|
  {
    if s != [] {
      RtlCountAll(s[..|s| - 1]);
    }
  }

  lemma {:induction false} RtlCountNone(s: JsString)
    requires forall i | 0 <= i < |s| :: !IsRtlUnit(s[i])
    ensures RtlCount(s) == 0
    decreases |s|
  {
    if s != [] {
      RtlCountNone(s[..|s| - 1]);
    }
  }

  /** A non-empty text whose first hundred units are all right-to-left units is right to left. */
  lemma AllRtlSampleIsRtl(text: JsString)
    requires text != []
    requires forall i | 0 <= i < |Sample(text)| :: IsRtlUnit(Sample(text)[i])
    ensures RtlVerdict(text)
  {
    RtlCountAll(Sample(text));
  }

  /** A text with no right-to-left unit and no Hebrew or Arabic unit is left to right. */
  lemma NoRtlUnitIsLeftToRight(text: JsString)
    requires forall i | 0 <= i < |text| :: !IsRtlUnit(text[i]) && !IsHebrew(text[i]) && !IsArabic(text[i])
    ensures !RtlVerdict(text)
  {
    LeadingRtlIff(text);
    RtlCountNone(Sample(text));
  }

  /**
    Only the beginning of a text matters: once it has a hundred units of
    which at least ten are visible, anything appended leaves the verdict as
    it is.
   */
  lemma VerdictFixedByBeginning(text: JsString, more: JsString)
    requires |text| >= 100 && |RemoveWhiteSpace(text)| >= 10
    ensures RtlVerdict(text + more) == RtlVerdict(text)
  {
    RemoveWhiteSpaceAppend(text, more);
    assert Sample(text + more) == Sample(text);
    assert FirstChars(text + more) == FirstChars(text);
  }

  /** Text made only of white space is left to right. */
  lemma WhiteSpaceIsLeftToRight(text: JsString)
    requires AllWhiteSpace(text)
    ensures !RtlVerdict(text)
  {
    NoRtlUnitIsLeftToRight(text);
  }

  /** Text made only of ASCII units is left to right. */
  lemma AsciiIsLeftToRight(text: JsString)
    requires forall i | 0 <= i < |text| :: text[i] < 0x80
    ensures !RtlVerdict(text)
  {
    NoRtlUnitIsLeftToRight(text);
  }

  /** When the ratio is computed, the sample holds between 1 and 100 units and the count is at most its length. */
  lemma SampleBounds(text: JsString)
    requires text != []
    ensures 1 <= |Sample(text)| <= 100
    ensures RtlCount(Sample(text)) <= |Sample(text)|
  {
  }
}
