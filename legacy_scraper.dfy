/**
  * The first horoscope classifier, `is_horoscope` of the top-level
  * `scraper.py`. It crops a fixed 661 x 140 header, has the k-means model
  * label every pixel, counts the labels with `collections.Counter`, and
  * compares the counts, in the order the labels were first met, with the
  * reference counts of a real horoscope.
  *
  * The picture arrives as the labels the model gives its header pixels, or
  * `None` when the file cannot be opened. Every exception the source catches
  * ends in `None`, the value of a Python function that falls off its end.
  */
module LegacyScraper {
  import opened Wrappers
  import opened Dicts
  import opened Numeric

  /** `rtl2_header_coord`: the header crop `(0, 0, 661, 140)`. */
  const HeaderWidth: nat := 661
  const HeaderHeight: nat := 140

  /** `total_pixels`, the denominator of every proportion. */
  const HeaderPixels: nat := HeaderWidth * HeaderHeight

  /** The largest absolute value of the compared sum that is accepted. */
  const Tolerance: real := 0.03

  /** The label counts `Counter({0: 41976, 1: 41676, 2: 8888})` of a real horoscope's header. */
  function TrueCount(l: nat): nat
    requires l < 3
  {
    if l == 0 then 41976 else if l == 1 then 41676 else 8888
  }

  /** `true_prop`: the reference counts over the header area; they add up to 1. */
  function TrueProportion(l: nat): (p: real)
    requires l < 3
    ensures p == TrueCount(l) as real / 92540.0
  {
    TrueCount(l) as real / HeaderPixels as real
  }

  /** The reference counts cover the header exactly, so the reference proportions add up to 1. */
  lemma TrueProportionsSumToOne()
    ensures HeaderPixels == 92540
    ensures TrueCount(0) + TrueCount(1) + TrueCount(2) == HeaderPixels
    ensures TrueProportion(0) + TrueProportion(1) + TrueProportion(2) == 1.0
  {
    assert TrueProportion(0) + TrueProportion(1) + TrueProportion(2)
      == (TrueCount(0) + TrueCount(1) + TrueCount(2)) as real / 92540.0;
  }

  /** One of the observed `proportions`: a count over the header area. */
  function Proportion(count: nat): real {
    count as real / HeaderPixels as real
  }

  /**
    * `np.sum(true_prop - proportions)` over the Counter's values in their
    * first-seen order. Three values subtract element-wise, one value is
    * broadcast against all three reference proportions, and any other number
    * of values is a shape mismatch (`None`).
    */
  function SignedGap(counts: seq<nat>): (g: Option<real>)
    ensures g.Some? <==> |counts| == 1 || |counts| == 3
  {
    if |counts| == 3 then
      Some((TrueProportion(0) - Proportion(counts[0]))
        + (TrueProportion(1) - Proportion(counts[1]))
        + (TrueProportion(2) - Proportion(counts[2])))
    else if |counts| == 1 then
      Some((TrueProportion(0) - Proportion(counts[0]))
        + (TrueProportion(1) - Proportion(counts[0]))
        + (TrueProportion(2) - Proportion(counts[0])))
    else None
  }

  /**
    * `is_horoscope` of `scraper.py`: `None` when the file cannot be read or the
    * number of distinct labels is neither 1 nor 3, otherwise whether the
    * absolute value of the signed sum is below 0.03.
    */
  function IsHoroscope(labels: Option<seq<int>>): (r: Option<bool>)
    ensures labels.None? ==> r.None?
    ensures labels.Some? ==>
      (r.Some? <==> |set x | x in labels.value| == 1 || |set x | x in labels.value| == 3)
  {
    if labels.None? then None
    else
      CounterSize(labels.value);
      var gap := SignedGap(Values(Counter(labels.value)));
      if gap.None? then None else Some(Abs(gap.value) < Tolerance)
  }

  lemma Sum3(s: seq<nat>)
    requires |s| == 3
    ensures Sum(s) == s[0] + s[1] + s[2]
  {
    var s2, s1 := s[..2], s[..1];
    assert s2[..1] == s1 && s1[..0] == [];
    assert Sum(s1) == s[0];
    assert Sum(s2) == s[0] + s[1];
  }

  /**
    * With exactly three distinct labels the signed sum is `1 - n / 92540` for a
    * header of `n` pixels: how the pixels are shared among the labels plays no
    * part in the verdict.
    */
  lemma ThreeLabelsVerdict(labels: seq<int>)
    requires |set x | x in labels| == 3
    ensures IsHoroscope(Some(labels)) == Some(Abs(1.0 - Proportion(|labels|)) < Tolerance)
  {
    CounterSize(labels);
    CounterTotal(labels);
    var counts := Values(Counter(labels));
    Sum3(counts);
    TrueProportionsSumToOne();
    assert SignedGap(counts).value == 1.0 - (counts[0] + counts[1] + counts[2]) as real / 92540.0;
  }

  /**
    * Every header the model splits into exactly three labels is accepted,
    * whatever the distribution, since the crop always holds 92540 pixels.
    */
  lemma AnyThreeLabelsAccepted(labels: seq<int>)
    requires |labels| == HeaderPixels
    requires |set x | x in labels| == 3
    ensures IsHoroscope(Some(labels)) == Some(true)
  {
    ThreeLabelsVerdict(labels);
  }

  /** A header of a single label gives the sum `1 - 3 = -2` and is rejected. */
  lemma OneLabelRejected(labels: seq<int>)
    requires |labels| == HeaderPixels
    requires |set x | x in labels| == 1
    ensures IsHoroscope(Some(labels)) == Some(false)
  {
    CounterSize(labels);
    CounterTotal(labels);
    var counts := Values(Counter(labels));
    assert counts[..0] == [];
    assert Sum(counts) == counts[0];
    TrueProportionsSumToOne();
    assert SignedGap(counts).value == -2.0;
  }

  /**
    * The observed proportions are taken in the order the labels first occur,
    * not in label order: the first value is the count of the first pixel's
    * label.
    */
  lemma ObservedInFirstSeenOrder(labels: seq<int>)
    requires labels != []
    ensures Values(Counter(labels))[0] == multiset(labels)[labels[0]]
  {
    var c := Counter(labels);
    CounterFirstKey(labels);
    CounterCounts(labels, labels[0]);
    assert IndexOf(Keys(c), labels[0]) == 0;
  }

  // ---------------------------------------------------------------------------
  // The classifier as evidently intended.

  /**
    * The L1 distance between the reference proportions and the proportions of
    * labels 0, 1 and 2, the measure the newer scraper uses.
    */
  function L1Gap(labels: seq<int>): real {
    Abs(TrueProportion(0) - Proportion(multiset(labels)[0]))
    + Abs(TrueProportion(1) - Proportion(multiset(labels)[1]))
    + Abs(TrueProportion(2) - Proportion(multiset(labels)[2]))
  }

  /**
    * The corrected classifier: accepts when the L1 distance, label by label,
    * is below 0.03; an unreadable file still gives `None`.
    */
  function IsHoroscopeL1(labels: Option<seq<int>>): (r: Option<bool>)
    ensures r.None? <==> labels.None?
  {
    if labels.None? then None else Some(L1Gap(labels.value) < Tolerance)
  }

  /** The reference header is accepted by the corrected classifier. */
  lemma L1AcceptsReference(labels: seq<int>)
    requires multiset(labels)[0] == TrueCount(0)
    requires multiset(labels)[1] == TrueCount(1)
    requires multiset(labels)[2] == TrueCount(2)
    ensures IsHoroscopeL1(Some(labels)) == Some(true)
  {
    assert L1Gap(labels) == 0.0;
  }

  /**
    * The corrected classifier rejects every header where one of the labels 0,
    * 1 and 2 is off its reference count by 2777 pixels or more (3% of the
    * header, rounded up).
    */
  lemma L1RejectsFarCount(labels: seq<int>, l: nat)
    requires l < 3
    requires multiset(labels)[l] >= TrueCount(l) + 2777 || multiset(labels)[l] + 2777 <= TrueCount(l)
    ensures IsHoroscopeL1(Some(labels)) == Some(false)
  {
    var d := TrueProportion(l) - Proportion(multiset(labels)[l]);
    assert d == (TrueCount(l) - multiset(labels)[l]) as real / 92540.0;
    assert Abs(d) >= 2777.0 / 92540.0;
  }

  /**
    * A header of one pixel labelled 0, one labelled 1 and all the rest
    * labelled 2 is accepted as written and rejected as intended.
    */
  lemma SkewedHeaderAccepted()
    ensures var labels := [0, 1] + seq(92538, _ => 2);
      IsHoroscope(Some(labels)) == Some(true) && IsHoroscopeL1(Some(labels)) == Some(false)
  {
    var rest: seq<int> := seq(92538, _ => 2);
    var labels := [0, 1] + rest;
    assert forall x :: x in rest ==> x == 2;
    assert (set x | x in labels) == {0, 1, 2} by {
      assert labels[0] == 0 && labels[1] == 1 && labels[2] == 2;
    }
    AnyThreeLabelsAccepted(labels);
    assert 0 !in rest;
    assert multiset(labels)[0] == 1;
    L1RejectsFarCount(labels, 0);
  }
}
