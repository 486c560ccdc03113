/**
  * The horoscope extractor of `parse.py`: rescaling the region catalogue to
  * the image, reading and cleaning each sign's text, rating each sign's star
  * by nearest-colour voting over a sweep of radii, and formatting the result
  * as a chat message.
  */
module Parse {
  import opened Wrappers
  import opened Dicts
  import opened PyStrings
  import opened Catalog

  /** Width and height of the image the catalogue's boxes were measured on. */
  const TrueWidth: nat := 1181
  const TrueHeight: nat := 1716

  /** The single radius of the fast rating path. */
  const BallRadius: nat := 28

  /** The robust rating path votes at every radius of `range(31)`. */
  const RadiusCount: nat := 31

  // ---------------------------------------------------------------------------
  // Catalogue scaling

  function ScaleBox(box: seq<real>, factor: real): seq<real> {
    seq(|box|, j requires 0 <= j < |box| => box[j] * factor)
  }

  /** A copy of the entry whose star and text boxes are multiplied by `factor`. */
  function ScaleRegion(d: Region, factor: real): Region {
    d.(star := ScaleBox(d.star, factor), text := ScaleBox(d.text, factor))
  }

  /** The catalogue `scale_regions` builds. */
  function Scaled(factor: real, regions: seq<Region>): (out: seq<Region>)
    ensures |out| == |regions|
    ensures Names(out) == Names(regions)
    ensures forall i :: 0 <= i < |regions| ==>
      |out[i].star| == |regions[i].star| && |out[i].text| == |regions[i].text|
    ensures forall i, j :: 0 <= i < |regions| && 0 <= j < |regions[i].star| ==>
      out[i].star[j] == regions[i].star[j] * factor
    ensures forall i, j :: 0 <= i < |regions| && 0 <= j < |regions[i].text| ==>
      out[i].text[j] == regions[i].text[j] * factor
  {
    seq(|regions|, i requires 0 <= i < |regions| => ScaleRegion(regions[i], factor))
  }

  /**
    * `scale_regions`: copies every entry and multiplies its star and text
    * coordinates by `factor`. The input catalogue is a value here, so it cannot
    * be changed by the call.
    */
  method ScaleRegions(factor: real, regions: seq<Region>) returns (out: seq<Region>)
    ensures out == Scaled(factor, regions)
  {
    out := [];
    for i := 0 to |regions|
      invariant |out| == i
      invariant forall k :: 0 <= k < i ==> out[k] == ScaleRegion(regions[k], factor)
    {
      var d := regions[i];
      d := d.(star := ScaleBox(d.star, factor));
      d := d.(text := ScaleBox(d.text, factor));
      out := out + [d];
    }
  }

  /** Scaling by 1 gives back the same catalogue. */
  lemma ScaledByOne(regions: seq<Region>)
    ensures Scaled(1.0, regions) == regions
  {
    forall i | 0 <= i < |regions| ensures ScaleRegion(regions[i], 1.0) == regions[i] {
      assert ScaleBox(regions[i].star, 1.0) == regions[i].star;
      assert ScaleBox(regions[i].text, 1.0) == regions[i].text;
    }
  }

  lemma ScaleBoxTwice(box: seq<real>, a: real, b: real)
    ensures ScaleBox(ScaleBox(box, a), b) == ScaleBox(box, a * b)
  {
    var l, r := ScaleBox(ScaleBox(box, a), b), ScaleBox(box, a * b);
    assert |l| == |r|;
    forall j | 0 <= j < |box| ensures l[j] == r[j] {
      assert l[j] == box[j] * a * b;
    }
  }

  /** Scaling twice is scaling once by the product of the factors. */
  lemma ScaledTwice(a: real, b: real, regions: seq<Region>)
    ensures Scaled(b, Scaled(a, regions)) == Scaled(a * b, regions)
  {
    forall i | 0 <= i < |regions|
      ensures ScaleRegion(ScaleRegion(regions[i], a), b) == ScaleRegion(regions[i], a * b)
    {
      ScaleBoxTwice(regions[i].star, a, b);
      ScaleBoxTwice(regions[i].text, a, b);
    }
  }

  // ---------------------------------------------------------------------------
  // Reading the texts

  function WholeImage(img: Picture): seq<real> {
    [0.0, 0.0, img.width as real, img.height as real]
  }

  /** The box `read_crop` crops: the given one, or the whole image when none is given. */
  function CropBox(img: Picture, region: Option<seq<real>>): seq<real> {
    if region.Some? then region.value else WholeImage(img)
  }

  /**
    * `read_crop`: Tesseract's reading of the crop, with every line break
    * turned into a space. The same code is `read_crop` of `ocr.py`.
    */
  function ReadCrop(img: Picture, region: Option<seq<real>>): (text: string)
    ensures '\n' !in text
    ensures var raw := img.ocr(CropBox(img, region));
      |text| == |raw| &&
      forall i :: 0 <= i < |raw| ==> text[i] == if raw[i] == '\n' then ' ' else raw[i]
  {
    ReplaceChar(img.ocr(CropBox(img, region)), '\n', ' ')
  }

  /** `[read_crop(img, reg) for reg in text_regions]` */
  function CropTexts(img: Picture, regions: seq<Region>): seq<string> {
    seq(|regions|, i requires 0 <= i < |regions| => ReadCrop(img, Some(regions[i].text)))
  }

  /**
    * The dict `read_texts` returns: sign name to the text read in its box.
    * When the names are distinct it holds every region, in catalogue order.
    */
  function TextsOf(img: Picture, regions: seq<Region>): (d: Dict<string, string>)
    ensures Distinct(Keys(d))
    ensures forall e :: e in d ==> '\n' !in e.1
    ensures Distinct(Names(regions)) ==>
      Keys(d) == Names(regions) &&
      forall i :: 0 <= i < |regions| ==> d[i].1 == ReadCrop(img, Some(regions[i].text))
  {
    var ps := Zip(Names(regions), CropTexts(img, regions));
    assert Keys(ps) == Names(regions);
    if Distinct(Names(regions)) then
      FromPairsDistinct(ps);
      FromPairs(ps)
    else
      FromPairs(ps)
  }

  /**
    * `read_texts` on its sequential path: one OCR call per text box, in
    * catalogue order, collected into a list and zipped with the sign names.
    */
  method ReadTexts(img: Picture, regions: seq<Region>) returns (d: Dict<string, string>)
    ensures d == TextsOf(img, regions)
  {
    var signs := Names(regions);
    var texts: seq<string> := [];
    for i := 0 to |regions|
      invariant |texts| == i
      invariant forall k :: 0 <= k < i ==> texts[k] == ReadCrop(img, Some(regions[k].text))
    {
      texts := texts + [ReadCrop(img, Some(regions[i].text))];
    }
    assert texts == CropTexts(img, regions);
    d := FromPairs(Zip(signs, texts));
  }

  // ---------------------------------------------------------------------------
  // Cleaning the texts

  /**
    * Python's `\w` on one character: ASCII letters and digits, the underscore,
    * and the letters and digits of Latin-1 and Latin Extended-A.
    */
  predicate IsWordChar(c: char) {
    ('0' <= c <= '9') || IsAsciiLetter(c) || c == '_'
    || c == '\U{AA}' || c == '\U{B2}' || c == '\U{B3}' || c == '\U{B5}' || c == '\U{B9}'
    || c == '\U{BA}' || ('\U{BC}' <= c <= '\U{BE}')
    || ('\U{C0}' <= c <= '\U{FF}' && c != '\U{D7}' && c != '\U{F7}')
    || ('\U{100}' <= c <= '\U{17F}')
  }

  /** The character class `[\w ',\!\?\.]` of `clean_up_text`. */
  predicate Acceptable(c: char) {
    IsWordChar(c) || c == ' ' || c == '\'' || c == ',' || c == '!' || c == '?' || c == '.'
  }

  /** `"".join(re.findall(acceptable_chars_regex, text))`: the acceptable characters, in order. */
  function Whitelist(s: string): (r: string)
    ensures forall c :: c in r ==> Acceptable(c) && c in s
    ensures (forall c :: c in s ==> Acceptable(c)) ==> r == s
  {
    if s == [] then []
    else (if Acceptable(s[0]) then [s[0]] else []) + Whitelist(s[1..])
  }

  /** On one character the whitelist keeps it exactly when it is acceptable. */
  lemma WhitelistOne(c: char)
    ensures Whitelist([c]) == if Acceptable(c) then [c] else []
  {
    assert [c][1..] == [];
  }

  /**
    * `re.findall` keeps every match, in order: the whitelist of two pieces is
    * the two whitelists one after the other.
    */
  lemma {:induction false} WhitelistAppend(a: string, b: string)
    ensures Whitelist(a + b) == Whitelist(a) + Whitelist(b)
    decreases |a|
  {
    if a == [] {
      assert a + b == b;
    } else {
      assert (a + b)[0] == a[0] && (a + b)[1..] == a[1..] + b;
      WhitelistAppend(a[1..], b);
      ConsAssoc(if Acceptable(a[0]) then [a[0]] else [], Whitelist(a[1..]), Whitelist(b));
    }
  }

  /** Among acceptable characters the only whitespace is the plain space. */
  lemma AcceptableSpace(c: char)
    requires Acceptable(c) && IsSpace(c)
    ensures c == ' '
  {
  }

  /**
    * `clean_up_text`: keeps the acceptable characters, drops underscores,
    * replaces each double space once, and strips the ends.
    */
  function CleanUpText(text: string): (r: string)
    ensures forall c :: c in r ==> Acceptable(c) && c != '_' && c in text
    ensures '\n' !in r
    ensures r == [] || (!IsSpace(r[0]) && !IsSpace(r[|r| - 1]))
  {
    var kept := RemoveChar(Whitelist(text), '_');
    ReplaceDoubleSpacesKeepsChars(kept);
    Strip(ReplaceDoubleSpaces(kept))
  }

  /** Text already made of acceptable characters, without underscores, double spaces or outer spaces. */
  predicate IsClean(s: string) {
    (forall c :: c in s ==> Acceptable(c) && c != '_')
    && NoDoubleSpace(s)
    && (s == [] || (s[0] != ' ' && s[|s| - 1] != ' '))
  }

  /**
    * A character the whitelist rejects, or an underscore, makes no difference
    * anywhere in the text: the cleanup is that of the text without it.
    */
  lemma CleanUpTextDropsNoise(a: string, c: char, b: string)
    requires !Acceptable(c) || c == '_'
    ensures CleanUpText(a + [c] + b) == CleanUpText(a + b)
  {
    WhitelistAppend(a + [c], b);
    WhitelistAppend(a, [c]);
    WhitelistAppend(a, b);
    WhitelistOne(c);
    var wa, wb := Whitelist(a), Whitelist(b);
    if Acceptable(c) {
      assert Whitelist(a + [c] + b) == (wa + [c]) + wb;
      RemoveCharAppend(wa + [c], wb, '_');
      RemoveCharAppend(wa, [c], '_');
      RemoveCharOne(c, '_');
      RemoveCharAppend(wa, wb, '_');
      assert RemoveChar(wa + [c], '_') == RemoveChar(wa, '_');
    } else {
      assert Whitelist(a + [c] + b) == (wa + []) + wb;
      assert wa + [] == wa;
    }
  }

  /** A clean text comes back unchanged. */
  lemma CleanUpTextKeepsClean(s: string)
    requires IsClean(s)
    ensures CleanUpText(s) == s
  {
    assert Whitelist(s) == s;
    assert RemoveChar(s, '_') == s;
    ReplaceDoubleSpacesNoDouble(s);
    assert Strip(s) == s by {
      if s != [] {
        if IsSpace(s[0]) { AcceptableSpace(s[0]); }
        if IsSpace(s[|s| - 1]) { AcceptableSpace(s[|s| - 1]); }
      }
    }
  }

  /** On acceptable text without underscores only the space handling and the strip act. */
  lemma CleanUpTextOfAcceptable(s: string)
    requires forall c :: c in s ==> Acceptable(c) && c != '_'
    ensures CleanUpText(s) == Strip(ReplaceDoubleSpaces(s))
  {
  }

  /** Clean text whose ends are not spaces is left alone by the strip. */
  lemma StripKeepsClean(r: string)
    requires r != [] && Acceptable(r[0]) && Acceptable(r[|r| - 1])
    requires r[0] != ' ' && r[|r| - 1] != ' '
    ensures Strip(r) == r
  {
    if IsSpace(r[0]) { AcceptableSpace(r[0]); }
    if IsSpace(r[|r| - 1]) { AcceptableSpace(r[|r| - 1]); }
  }

  /**
    * Between two clean words, a run of `n` spaces comes out as `ceil(n/2)`
    * spaces: one call does not collapse a run of spaces.
    */
  lemma {:induction false} CleanUpTextHalvesSpaceRun(a: string, n: nat, b: string)
    requires IsClean(a) && IsClean(b) && a != [] && b != []
    ensures CleanUpText(a + Spaces(n) + b) == a + Spaces((n + 1) / 2) + b
  {
    var s := a + (Spaces(n) + b);
    assert a + Spaces(n) + b == s;
    RunIsAcceptable(a, n, b);
    CleanUpTextOfAcceptable(s);
    var r := a + (Spaces((n + 1) / 2) + b);
    assert ReplaceDoubleSpaces(s) == r by {
      ReplaceDoubleSpacesAppend(a, Spaces(n) + b);
      ReplaceDoubleSpacesNoDouble(a);
      ReplaceDoubleSpacesNoDouble(b);
      ReplaceDoubleSpacesRun(n, b);
    }
    assert r[0] == a[0] && r[|r| - 1] == b[|b| - 1];
    StripKeepsClean(r);
    assert r == a + Spaces((n + 1) / 2) + b;
  }

  /** Spaces between two clean words keep the text acceptable and free of underscores. */
  lemma RunIsAcceptable(a: string, n: nat, b: string)
    requires IsClean(a) && IsClean(b)
    ensures forall c :: c in a + (Spaces(n) + b) ==> Acceptable(c) && c != '_'
  {
    forall c | c in a + (Spaces(n) + b) ensures Acceptable(c) && c != '_' {
      assert c in a || c in Spaces(n) || c in b;
    }
  }

  /**
    * Cleaning is not idempotent: between two clean words, four spaces come
    * out as two, and cleaning again leaves one.
    */
  lemma CleanUpTextNotIdempotent(a: string, b: string)
    requires IsClean(a) && IsClean(b) && a != [] && b != []
    ensures var once := CleanUpText(a + Spaces(4) + b);
      once == a + Spaces(2) + b &&
      CleanUpText(once) == a + Spaces(1) + b &&
      CleanUpText(once) != once
  {
    var s2, s1 := a + Spaces(2) + b, a + Spaces(1) + b;
    assert CleanUpText(a + Spaces(4) + b) == s2 by {
      CleanUpTextHalvesSpaceRun(a, 4, b);
    }
    assert CleanUpText(s2) == s1 by {
      CleanUpTextHalvesSpaceRun(a, 2, b);
    }
    assert |s1| < |s2|;
  }

  // ---------------------------------------------------------------------------
  // Rating the stars

  /** The three ratings, in the column order of `star_centers`. */
  datatype Star = Bronze | Argent | Or

  function StarName(s: Star): string {
    match s
    case Bronze => "bronze"
    case Argent => "argent"
    case Or => "or"
  }

  /** Position of the rating's column in `star_centers`. */
  function Column(s: Star): nat {
    match s
    case Bronze => 0
    case Argent => 1
    case Or => 2
  }

  /** `star_centers`, each channel multiplied by 100 so that it is an integer. */
  function Centre(s: Star): (int, int, int) {
    match s
    case Bronze => (24381, 18188, 12316)
    case Argent => (19007, 19751, 22218)
    case Or => (23506, 20552, 12656)
  }

  /**
    * `x * x`, built up by odd numbers so that the solver sees no product;
    * `SquareIsProduct` gives the product back where a proof needs it.
    */
  function Square(x: int): nat
    decreases if x < 0 then -x else x
  {
    if x == 0 then 0 else if x < 0 then Square(x + 1) - 2 * x - 1 else Square(x - 1) + 2 * x - 1
  }

  lemma {:induction false} SquareIsProduct(x: int)
    ensures Square(x) == x * x
    decreases if x < 0 then -x else x
  {
    if x > 0 {
      SquareIsProduct(x - 1);
    } else if x < 0 {
      SquareIsProduct(x + 1);
    }
  }

  /** The squared distance between a pixel scaled by 100 and a scaled centre. */
  function SqDist100(p: Pixel, c: (int, int, int)): nat {
    Square(100 * p.r - c.0) + Square(100 * p.g - c.1) + Square(100 * p.b - c.2)
  }

  /**
    * `np.mean((px - center)**2, axis=-1)**(1/2) >= r` for one pixel: the root
    * mean square over the three channels is at least `r`. Squared and scaled
    * by 100, that is `sum((100 px - 100 c)^2) >= 3 (100 r)^2`.
    */
  predicate Far(p: Pixel, s: Star, r: nat) {
    SqDist100(p, Centre(s)) >= 3 * Square(100 * r)
  }

  /** The number of pixels of the patch far from the centre of `s`. */
  function FarCount(patch: seq<Pixel>, s: Star, r: nat): (n: nat)
    ensures n <= |patch|
  {
    if patch == [] then 0
    else FarCount(patch[..|patch| - 1], s, r) + (if Far(patch[|patch| - 1], s, r) then 1 else 0)
  }

  /**
    * `idxmin` over the columns at radius `r`: the rating with the smallest
    * share of far pixels, the earliest column winning a tie. The shares have
    * the same denominator, so the counts decide.
    */
  function Vote(patch: seq<Pixel>, r: nat): (s: Star)
    ensures forall t :: FarCount(patch, s, r) <= FarCount(patch, t, r)
    ensures forall t :: Column(t) < Column(s) ==> FarCount(patch, s, r) < FarCount(patch, t, r)
  {
    var b, a, o := FarCount(patch, Bronze, r), FarCount(patch, Argent, r), FarCount(patch, Or, r);
    if b <= a && b <= o then Bronze else if a <= o then Argent else Or
  }

  /** One vote per radius: `range(31)` on the robust path, `[ball_radius]` otherwise. */
  function Votes(patch: seq<Pixel>, robust: bool): (v: seq<Star>)
    ensures |v| == if robust then RadiusCount else 1
  {
    if robust then seq(RadiusCount, r requires 0 <= r < RadiusCount => Vote(patch, r))
    else [Vote(patch, BallRadius)]
  }

  /** Position of the rating's name in alphabetical order. */
  function NameRank(s: Star): nat {
    match s
    case Argent => 0
    case Bronze => 1
    case Or => 2
  }

  /** `NameRank` is the order of the names as Python compares strings. */
  lemma NameRankIsStringOrder(s: Star, t: Star)
    ensures NameRank(s) <= NameRank(t) <==> LexLe(StarName(s), StarName(t))
  {
    assert StarName(Argent)[0] == 'a' && StarName(Bronze)[0] == 'b' && StarName(Or)[0] == 'o';
    if s == t { LexLeReflexive(StarName(s)); }
  }

  /**
    * `mode` of a row of votes: a most frequent rating. pandas lists tied modes
    * in sorted order, and the first of them, the least name, is kept here.
    */
  function Mode(votes: seq<Star>): (m: Star)
    ensures var c := multiset(votes);
      c[Argent] <= c[m] && c[Bronze] <= c[m] && c[Or] <= c[m]
    ensures var c := multiset(votes);
      (c[Argent] == c[m] ==> NameRank(m) <= NameRank(Argent)) &&
      (c[Bronze] == c[m] ==> NameRank(m) <= NameRank(Bronze)) &&
      (c[Or] == c[m] ==> NameRank(m) <= NameRank(Or))
  {
    var a, b, o := multiset(votes)[Argent], multiset(votes)[Bronze], multiset(votes)[Or];
    if a >= b && a >= o then Argent else if b >= o then Bronze else Or
  }

  /**
    * Another rating is as frequent as the mode: pandas' `mode` then returns a
    * column per tied rating instead of one.
    */
  predicate Tied(votes: seq<Star>) {
    var c := multiset(votes);
    (c[Argent] == c[Bronze] && c[Or] <= c[Argent]) ||
    (c[Argent] == c[Or] && c[Bronze] <= c[Argent]) ||
    (c[Bronze] == c[Or] && c[Argent] <= c[Bronze])
  }

  /** A tie is exactly a second rating as frequent as the one `Mode` keeps. */
  lemma TiedIff(votes: seq<Star>)
    ensures Tied(votes) <==> exists t :: t != Mode(votes) && multiset(votes)[t] == multiset(votes)[Mode(votes)]
  {
    var c := multiset(votes);
    var m := Mode(votes);
    if Tied(votes) {
      if m == Argent {
        if c[Bronze] == c[m] { assert Bronze != m; } else { assert c[Or] == c[m] && Or != m; }
      } else if m == Bronze {
        assert c[Argent] < c[Bronze];
        assert c[Or] == c[m] && Or != m;
      } else {
        assert false;
      }
    }
  }

  /** Some sign's star box holds pixels whose votes tie. */
  predicate SomeTie(img: Picture, regions: seq<Region>) {
    exists i :: 0 <= i < |regions| && img.patch(regions[i].star) != [] && Tied(Votes(img.patch(regions[i].star), true))
  }

  /**
    * The rating of one star patch. An empty patch gives no rating (`None`),
    * where the source's means over no pixels are NaN.
    */
  function FindStarColor(patch: seq<Pixel>, robust: bool): (c: Option<Star>)
    ensures c.None? <==> patch == []
  {
    if patch == [] then None else Some(Mode(Votes(patch, robust)))
  }

  /** `find_star_colors`: sign name to the rating of the patch in its star box. */
  function FindStarColors(img: Picture, regions: seq<Region>, robust: bool): (d: Dict<string, Option<Star>>)
    ensures Distinct(Names(regions)) ==>
      Keys(d) == Names(regions) &&
      forall i :: 0 <= i < |regions| ==> d[i].1 == FindStarColor(img.patch(regions[i].star), robust)
  {
    var ratings := seq(|regions|, i requires 0 <= i < |regions| =>
      FindStarColor(img.patch(regions[i].star), robust));
    var ps := Zip(Names(regions), ratings);
    assert Keys(ps) == Names(regions);
    if Distinct(Names(regions)) then
      FromPairsDistinct(ps);
      FromPairs(ps)
    else
      FromPairs(ps)
  }

  lemma {:induction false} FarCountAtZero(patch: seq<Pixel>, s: Star)
    ensures FarCount(patch, s, 0) == |patch|
  {
    if patch != [] {
      FarCountAtZero(patch[..|patch| - 1], s);
    }
  }

  /** At radius 0 every pixel is far from every centre: all ratings tie and bronze wins. */
  lemma VoteAtZeroIsBronze(patch: seq<Pixel>)
    ensures Vote(patch, 0) == Bronze
  {
    FarCountAtZero(patch, Bronze);
    FarCountAtZero(patch, Argent);
    FarCountAtZero(patch, Or);
  }

  /** The fast path rates a star by the single vote at radius 28. */
  lemma FastPathVotesAtBallRadius(patch: seq<Pixel>)
    requires patch != []
    ensures FindStarColor(patch, false) == Some(Vote(patch, BallRadius))
  {
    var v := Vote(patch, BallRadius);
    assert multiset(Votes(patch, false)) == multiset{v};
  }

  lemma {:induction false} VotesAddUp(votes: seq<Star>)
    ensures multiset(votes)[Bronze] + multiset(votes)[Argent] + multiset(votes)[Or] == |votes|
  {
    if votes != [] {
      var n := |votes| - 1;
      assert votes == votes[..n] + [votes[n]];
      assert multiset(votes) == multiset(votes[..n]) + multiset{votes[n]};
      VotesAddUp(votes[..n]);
      match votes[n]
      case Bronze =>
      case Argent =>
      case Or =>
    }
  }

  /** A rating that wins at 16 of the 31 radii is the robust rating. */
  lemma MajorityOfRadiiDecides(patch: seq<Pixel>, s: Star)
    requires patch != []
    requires multiset(Votes(patch, true))[s] > RadiusCount / 2
    ensures FindStarColor(patch, true) == Some(s)
  {
    VotesAddUp(Votes(patch, true));
  }

  // ---------------------------------------------------------------------------
  // Assembling and formatting the horoscope

  /** The catalogue `parse_horoscope` uses: rescaled by `width / 1181` unless that factor is 1. */
  function CatalogFor(width: nat, regions: seq<Region>): (scaled: seq<Region>)
    ensures width == TrueWidth ==> scaled == regions
    ensures width != TrueWidth ==> scaled == Scaled(width as real / TrueWidth as real, regions)
    ensures Names(scaled) == Names(regions)
  {
    var factor := width as real / TrueWidth as real;
    if factor != 1.0 then Scaled(factor, regions) else regions
  }

  /**
    * `parse_horoscope`: the texts (cleaned) and the robust star ratings read
    * in the rescaled catalogue, zipped under the sign names.
    */
  function ParseHoroscope(img: Picture, regions: seq<Region>): Dict<string, (Option<Star>, string)> {
    var scaled := CatalogFor(img.width, regions);
    var texts := MapValues(TextsOf(img, scaled), CleanUpText);
    var stars := FindStarColors(img, scaled, true);
    FromPairs(Zip(Keys(texts), Zip(Values(stars), Values(texts))))
  }

  /**
    * With distinct sign names the result holds exactly the catalogue's signs,
    * in catalogue order, each with its star's rating and its cleaned text.
    */
  lemma ParseHoroscopeEntries(img: Picture, regions: seq<Region>)
    requires Distinct(Names(regions))
    ensures var scaled := CatalogFor(img.width, regions);
      var out := ParseHoroscope(img, regions);
      Keys(out) == Names(regions) &&
      forall i :: 0 <= i < |regions| ==>
        out[i].1 == (FindStarColor(img.patch(scaled[i].star), true),
                     CleanUpText(ReadCrop(img, Some(scaled[i].text))))
  {
    var scaled := CatalogFor(img.width, regions);
    assert |scaled| == |Names(scaled)|;
    var texts := MapValues(TextsOf(img, scaled), CleanUpText);
    var stars := FindStarColors(img, scaled, true);
    var ps := Zip(Keys(texts), Zip(Values(stars), Values(texts)));
    assert Keys(ps) == Names(regions);
    FromPairsDistinct(ps);
  }

  /** `star_emojis` */
  const StarEmojis: map<string, string> :=
    map["or" := ":first_place:", "argent" := ":second_place:", "bronze" := ":third_place:"]

  /** The `KeyError` of a rating name missing from `star_emojis`. */
  function KeyError(star: string): string {
    "KeyError: " + star
  }

  /** `gen_bullet_point` */
  function BulletPoint(sign: string, star: string, text: string): Result<string> {
    if star in StarEmojis then Ok("- **" + Title(sign) + "** " + StarEmojis[star] + ": " + text)
    else Err(KeyError(star))
  }

  /** The list comprehension of bullet points; the first failing entry raises. */
  function BulletPoints(d: Dict<string, (string, string)>): (r: Result<seq<string>>)
    ensures r.Ok? <==> forall i :: 0 <= i < |d| ==> d[i].1.0 in StarEmojis
    ensures r.Ok? ==> (|r.value| == |d| &&
      forall i :: 0 <= i < |d| ==> r.value[i] == BulletPoint(d[i].0, d[i].1.0, d[i].1.1).value)
    ensures r.Err? ==> exists i :: (0 <= i < |d| && d[i].1.0 !in StarEmojis &&
      r.error == KeyError(d[i].1.0) && forall j :: 0 <= j < i ==> d[j].1.0 in StarEmojis)
  {
    if d == [] then Ok([])
    else
      var first := BulletPoint(d[0].0, d[0].1.0, d[0].1.1);
      if first.Err? then Err(first.error)
      else
        var rest := BulletPoints(d[1..]);
        if rest.Err? then
          assert forall i :: 1 <= i < |d| ==> d[1..][i - 1] == d[i];
          Err(rest.error)
        else
          assert forall i :: 1 <= i < |d| ==> d[1..][i - 1] == d[i];
          Ok([first.value] + rest.value)
  }

  /** `reformat_horoscope`: one bullet point per entry, joined by line breaks. */
  function ReformatHoroscope(d: Dict<string, (string, string)>): (r: Result<string>)
    ensures r.Err? <==> exists i :: 0 <= i < |d| && d[i].1.0 !in StarEmojis
  {
    var lines := BulletPoints(d);
    if lines.Err? then Err(lines.error) else Ok(Join(lines.value, '\n'))
  }

  /**
    * When no sign or text holds a line break, the message has exactly one
    * line per entry, in order, of the form `- **<Sign>** <emoji>: <text>`.
    */
  lemma ReformatHoroscopeLines(d: Dict<string, (string, string)>)
    requires d != []
    requires forall i :: 0 <= i < |d| ==> d[i].1.0 in StarEmojis
    requires forall i :: 0 <= i < |d| ==> '\n' !in d[i].0 && '\n' !in d[i].1.1
    ensures var r := ReformatHoroscope(d);
      r.Ok? &&
      var lines := Split(r.value, '\n');
      |lines| == |d| &&
      forall i :: 0 <= i < |d| ==>
        lines[i] == "- **" + Title(d[i].0) + "** " + StarEmojis[d[i].1.0] + ": " + d[i].1.1
  {
    var lines := BulletPoints(d).value;
    forall p | p in lines ensures '\n' !in p {
      var i :| 0 <= i < |lines| && lines[i] == p;
      BulletPointOneLine(d[i].0, d[i].1.0, d[i].1.1);
    }
    SplitJoin(lines, '\n');
  }

  /** A bullet point of a sign and a text without line breaks is a single line. */
  lemma BulletPointOneLine(sign: string, star: string, text: string)
    requires star in StarEmojis
    requires '\n' !in sign && '\n' !in text
    ensures '\n' !in BulletPoint(sign, star, text).value
  {
    TitleKeepsOtherChars(sign, '\n');
    assert '\n' !in StarEmojis[star];
  }

  /** Title-casing leaves a character that is not a letter where it was. */
  lemma TitleKeepsOtherChars(sign: string, c: char)
    requires !IsAsciiLetter(c) && c !in sign
    ensures c !in Title(sign)
  {
    forall k | 0 <= k < |sign| ensures Title(sign)[k] != c {
      if !IsAsciiLetter(sign[k]) { assert Title(sign)[k] == sign[k]; }
    }
  }
}
