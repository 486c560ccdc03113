/**
  * The older extractor of `ocr.py`. It reads the texts exactly as `parse.py`
  * does (the two `read_crop` and `read_texts` are the same code, modelled once
  * in `Parse`), but rates each star by the colour centre nearest to the mean
  * colour of its patch, and neither rescales the catalogue nor cleans the text.
  */
module Ocr {
  import opened Wrappers
  import opened Dicts
  import opened Catalog
  import opened Parse

  /** The sums of the red, green and blue channels over a patch. */
  function ChannelSums(patch: seq<Pixel>): (int, int, int) {
    if patch == [] then (0, 0, 0)
    else
      var rest := ChannelSums(patch[..|patch| - 1]);
      var p := patch[|patch| - 1];
      (rest.0 + p.r, rest.1 + p.g, rest.2 + p.b)
  }

  /** The centre of a rating as `star_centers` writes it, one channel. */
  function RealChannel(c: int): real {
    c as real / 100.0
  }

  /** `(mean - center)**2` for one channel of a patch of `n` pixels whose channel adds up to `sum`. */
  function ChannelSquare(sum: int, n: nat, c: int): real
    requires n > 0
  {
    var x := sum as real / n as real - RealChannel(c);
    x * x
  }

  /**
    * The mean over the three channels of `(mean - center)**2`, for a patch of
    * `n` pixels whose channels add up to `sums`.
    */
  function MeanGap(sums: (int, int, int), n: nat, c: (int, int, int)): real
    requires n > 0
  {
    (ChannelSquare(sums.0, n, c.0) + ChannelSquare(sums.1, n, c.1) + ChannelSquare(sums.2, n, c.2)) / 3.0
  }

  /** The same in integers: `sum((100 sums - n c)^2)` with the centre scaled by 100. */
  function ScaledGap(sums: (int, int, int), n: nat, c: (int, int, int)): nat {
    Square(100 * sums.0 - n * c.0) + Square(100 * sums.1 - n * c.1) + Square(100 * sums.2 - n * c.2)
  }

  /**
    * `np.mean((means - center)**2, axis=1)` for one non-empty patch: the
    * source's own distance between the patch's mean colour and a centre.
    */
  function MeanSquare(patch: seq<Pixel>, s: Star): real
    requires patch != []
  {
    MeanGap(ChannelSums(patch), |patch|, Centre(s))
  }

  /**
    * The distance the model compares, in integers. It is `MeanSquare` times
    * `3 (100 n)^2`, so it orders the ratings the same way.
    */
  function ScaledDistance(patch: seq<Pixel>, s: Star): nat {
    ScaledGap(ChannelSums(patch), |patch|, Centre(s))
  }

  /** `(100 n)^2`, the factor between the integer and the real gaps. */
  function Scale(n: nat): real {
    (100 * n) as real * (100 * n) as real
  }

  lemma RealChannelGap(sum: int, n: nat, c: int, k: real, g: real)
    requires n > 0
    requires k == Scale(n) && g == ChannelSquare(sum, n, c)
    ensures var y := (100 * sum - n * c) as real; y * y == k * g
  {
    var d := (100 * n) as real;
    var x := sum as real / n as real - RealChannel(c);
    var y := (100 * sum - n * c) as real;
    assert x == y / d;
    assert k == d * d && g == x * x;
    assert x * x * (d * d) == y * y;
  }

  lemma ChannelGap(sum: int, n: nat, c: int, k: real, g: real)
    requires n > 0
    requires k == Scale(n) && g == ChannelSquare(sum, n, c)
    ensures Square(100 * sum - n * c) as real == k * g
  {
    var z := 100 * sum - n * c;
    SquareIsProduct(z);
    RealChannelGap(sum, n, c, k, g);
  }

  /**
    * Three gaps that are the same multiple `k` of three others add up to
    * `3 k` times the others' mean.
    */
  lemma Distribute(s0: nat, s1: nat, s2: nat, k: real, g0: real, g1: real, g2: real, total: nat, k3: real, m: real)
    requires s0 as real == k * g0 && s1 as real == k * g1 && s2 as real == k * g2
    requires total == s0 + s1 + s2 && k3 == 3.0 * k && m == (g0 + g1 + g2) / 3.0
    ensures total as real == k3 * m
  {
  }

  /**
    * The integer gap is the mean square gap `m` times `k3 = 3 (100 n)^2`. The
    * factor and the mean are named by the caller, so that the products stay
    * between the same terms at every use.
    */
  lemma ScaledGapIsMeanGap(sums: (int, int, int), n: nat, c: (int, int, int), k3: real, m: real)
    requires n > 0
    requires k3 == 3.0 * Scale(n) && m == MeanGap(sums, n, c)
    ensures ScaledGap(sums, n, c) as real == k3 * m
  {
    var s0, s1, s2 := Square(100 * sums.0 - n * c.0), Square(100 * sums.1 - n * c.1), Square(100 * sums.2 - n * c.2);
    var g0, g1, g2 := ChannelSquare(sums.0, n, c.0), ChannelSquare(sums.1, n, c.1), ChannelSquare(sums.2, n, c.2);
    var k := Scale(n);
    ChannelGap(sums.0, n, c.0, k, g0);
    ChannelGap(sums.1, n, c.1, k, g1);
    ChannelGap(sums.2, n, c.2, k, g2);
    Distribute(s0, s1, s2, k, g0, g1, g2, ScaledGap(sums, n, c), k3, m);
  }

  /** Two quantities that are the same positive multiple of two others are ordered as those are. */
  lemma PositiveScaleOrder(a: nat, b: nat, k: real, x: real, y: real)
    requires k > 0.0 && a as real == k * x && b as real == k * y
    ensures a <= b <==> x <= y
    ensures a < b <==> x < y
  {
    assert b as real - a as real == k * (y - x);
    if x <= y { assert k * (y - x) >= 0.0; }
    if x < y { assert k * (y - x) > 0.0; }
  }

  lemma ScalePositive(n: nat)
    requires n > 0
    ensures Scale(n) > 0.0
  {
    var d := (100 * n) as real;
    assert d > 0.0;
  }

  /** The integer and the real gaps to two centres are ordered alike. */
  lemma GapOrder(sums: (int, int, int), n: nat, c: (int, int, int), e: (int, int, int))
    requires n > 0
    ensures ScaledGap(sums, n, c) <= ScaledGap(sums, n, e) <==> MeanGap(sums, n, c) <= MeanGap(sums, n, e)
    ensures ScaledGap(sums, n, c) < ScaledGap(sums, n, e) <==> MeanGap(sums, n, c) < MeanGap(sums, n, e)
  {
    var k3, x, y := 3.0 * Scale(n), MeanGap(sums, n, c), MeanGap(sums, n, e);
    ScalePositive(n);
    ScaledGapIsMeanGap(sums, n, c, k3, x);
    ScaledGapIsMeanGap(sums, n, e, k3, y);
    PositiveScaleOrder(ScaledGap(sums, n, c), ScaledGap(sums, n, e), k3, x, y);
  }

  /** Ordering by the integer distance is ordering by the source's mean square distance. */
  lemma ScaledDistanceOrder(patch: seq<Pixel>, s: Star, t: Star)
    requires patch != []
    ensures ScaledDistance(patch, s) <= ScaledDistance(patch, t) <==> MeanSquare(patch, s) <= MeanSquare(patch, t)
    ensures ScaledDistance(patch, s) < ScaledDistance(patch, t) <==> MeanSquare(patch, s) < MeanSquare(patch, t)
  {
    GapOrder(ChannelSums(patch), |patch|, Centre(s), Centre(t));
  }

  /**
    * `idxmin(axis=1)` for one patch: the rating whose centre is nearest to the
    * mean colour, the earliest column (bronze, argent, or) winning a tie.
    * An empty patch has a NaN mean and gets no rating.
    */
  function NearestStar(patch: seq<Pixel>): (c: Option<Star>)
    ensures c.None? <==> patch == []
    ensures c.Some? ==> forall t :: ScaledDistance(patch, c.value) <= ScaledDistance(patch, t)
    ensures c.Some? ==> forall t :: Column(t) < Column(c.value) ==>
      ScaledDistance(patch, c.value) < ScaledDistance(patch, t)
  {
    if patch == [] then None
    else
      var b, a, o := ScaledDistance(patch, Bronze), ScaledDistance(patch, Argent), ScaledDistance(patch, Or);
      Some(if b <= a && b <= o then Bronze else if a <= o then Argent else Or)
  }

  /** `find_star_colors` of `ocr.py`: sign name to the rating nearest to its patch's mean colour. */
  function FindStarColors(img: Picture, regions: seq<Region>): (d: Dict<string, Option<Star>>)
    ensures Distinct(Keys(d))
    ensures Distinct(Names(regions)) ==>
      Keys(d) == Names(regions) &&
      forall i :: 0 <= i < |regions| ==> d[i].1 == NearestStar(img.patch(regions[i].star))
  {
    var ratings := seq(|regions|, i requires 0 <= i < |regions| => NearestStar(img.patch(regions[i].star)));
    var ps := Zip(Names(regions), ratings);
    assert Keys(ps) == Names(regions);
    if Distinct(Names(regions)) then
      FromPairsDistinct(ps);
      FromPairs(ps)
    else
      FromPairs(ps)
  }

  /** `parse_horoscope` of `ocr.py`: the raw texts and the ratings, zipped under the sign names. */
  function ParseHoroscope(img: Picture, regions: seq<Region>): Dict<string, (Option<Star>, string)> {
    var texts := TextsOf(img, regions);
    var stars := FindStarColors(img, regions);
    FromPairs(Zip(Keys(texts), Zip(Values(stars), Values(texts))))
  }

  /**
    * With distinct sign names the result holds the catalogue's signs in order,
    * each with its star's rating and the uncleaned text read in its own
    * (unscaled) text box.
    */
  lemma ParseHoroscopeEntries(img: Picture, regions: seq<Region>)
    requires Distinct(Names(regions))
    ensures var out := ParseHoroscope(img, regions);
      Keys(out) == Names(regions) &&
      forall i :: 0 <= i < |regions| ==>
        out[i].1 == (NearestStar(img.patch(regions[i].star)), ReadCrop(img, Some(regions[i].text)))
  {
    var texts := TextsOf(img, regions);
    var stars := FindStarColors(img, regions);
    var ps := Zip(Keys(texts), Zip(Values(stars), Values(texts)));
    assert |regions| == |Names(regions)|;
    assert Keys(ps) == Names(regions);
    FromPairsDistinct(ps);
  }
}
