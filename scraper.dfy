/**
  * The social-media scraper of `rtl2_horoscope/scraper/scraper.py`: the
  * classifier that recognises a horoscope by its size and the colour
  * proportions of its header, the check that it is today's horoscope, and the
  * search over the latest pictures for the first one passing both.
  *
  * The k-means model, the OCR model and the download are oracles: a downloaded
  * picture arrives as its size, the cluster labels of its header pixels and
  * the text the OCR model renders.
  */
module Scraper {
  import opened Wrappers
  import opened Dicts
  import opened PyStrings
  import opened Numeric

  /** Size of the picture the reference proportions were measured on. */
  const TrueWidth: nat := 2362
  const TrueHeight: nat := 3431

  /** Height of the header band the proportions are taken over. */
  const CropHeight: nat := 800

  /** The largest gap, in width and height ratios, the size test tolerates. */
  const RatioTolerance: real := 0.05

  /** The largest L1 distance between the proportions that is accepted. */
  const ProportionTolerance: real := 0.05

  /** The OCR excerpt searched for today's date is this long at most. */
  const ExcerptLength: nat := 300

  /** `true_occurences`: the pixel count of clusters 0, 1 and 2 in the reference header. */
  function TrueCount(l: nat): nat
    requires l < 3
  {
    if l == 0 then 750054 else if l == 1 then 960179 else 179367
  }

  /** `true_proportions`: each reference count over the reference header area. */
  function TrueProportion(l: nat): real
    requires l < 3
  {
    TrueCount(l) as real / (TrueWidth * CropHeight) as real
  }

  /** The reference counts cover the whole reference header, so the proportions add up to 1. */
  lemma TrueProportionsSumToOne()
    ensures TrueCount(0) + TrueCount(1) + TrueCount(2) == TrueWidth * CropHeight
    ensures TrueProportion(0) + TrueProportion(1) + TrueProportion(2) == 1.0
  {
    var area := (TrueWidth * CropHeight) as real;
    assert TrueProportion(0) + TrueProportion(1) + TrueProportion(2)
      == (TrueCount(0) + TrueCount(1) + TrueCount(2)) as real / area;
  }

  // ---------------------------------------------------------------------------
  // Is it a horoscope?

  /** `k * true_width * k * crop_height` with `k = width / true_width`. */
  function HeaderArea(width: nat): real {
    var k := width as real / TrueWidth as real;
    k * TrueWidth as real * k * CropHeight as real
  }

  /** `Counter(labels)[l]`: a label that never occurs counts 0. */
  function Occurrences(labels: seq<int>, l: int): nat {
    Get(Counter(labels), l).GetOr(0)
  }

  /** Indexing the Counter gives the number of occurrences of the label. */
  lemma OccurrencesCount(labels: seq<int>, l: int)
    ensures Occurrences(labels, l) == multiset(labels)[l]
  {
    CounterCounts(labels, l);
  }

  /** `np.sum(np.abs(true_proportions - proportions))` */
  function Distance(labels: seq<int>, width: nat): real
    requires HeaderArea(width) != 0.0
  {
    var area := HeaderArea(width);
    Abs(TrueProportion(0) - Occurrences(labels, 0) as real / area)
    + Abs(TrueProportion(1) - Occurrences(labels, 1) as real / area)
    + Abs(TrueProportion(2) - Occurrences(labels, 2) as real / area)
  }

  /**
    * `Scraper.is_horoscope`. A picture whose width and height ratios to the
    * reference differ by more than 0.05 is rejected before the labels are
    * looked at. With a zero width the model answers false; the source's crop
    * is then empty and `kmeans.predict` raises instead.
    */
  function IsHoroscope(width: nat, height: nat, labels: seq<int>): bool {
    if Abs(width as real / TrueWidth as real - height as real / TrueHeight as real) > RatioTolerance then false
    else HeaderArea(width) != 0.0 && Distance(labels, width) < ProportionTolerance
  }

  /** The L1 distance between the reference and the header's label proportions, by label count. */
  function CountDistance(labels: seq<int>, area: real): real
    requires area != 0.0
  {
    Abs(TrueProportion(0) - multiset(labels)[0] as real / area)
    + Abs(TrueProportion(1) - multiset(labels)[1] as real / area)
    + Abs(TrueProportion(2) - multiset(labels)[2] as real / area)
  }

  /**
    * The classifier accepts exactly the pictures of a width > 0 that pass the
    * size test and whose header proportions of labels 0, 1 and 2 are within
    * 0.05 of the reference in L1 distance.
    */
  lemma IsHoroscopeIff(width: nat, height: nat, labels: seq<int>)
    ensures IsHoroscope(width, height, labels) <==>
      Abs(width as real / TrueWidth as real - height as real / TrueHeight as real) <= RatioTolerance &&
      width > 0 &&
      CountDistance(labels, HeaderArea(width)) < ProportionTolerance
  {
    HeaderAreaZero(width);
    if width > 0 {
      DistanceByCount(labels, width);
    }
  }

  /** The header area vanishes exactly for a picture of width 0. */
  lemma HeaderAreaZero(width: nat)
    ensures HeaderArea(width) == 0.0 <==> width == 0
  {
    var k := width as real / TrueWidth as real;
    if width > 0 {
      assert k > 0.0;
      assert k * TrueWidth as real > 0.0;
      assert k * TrueWidth as real * k > 0.0;
    }
  }

  /** The distance read off the Counter is the distance of the label counts. */
  lemma DistanceByCount(labels: seq<int>, width: nat)
    requires HeaderArea(width) != 0.0
    ensures Distance(labels, width) == CountDistance(labels, HeaderArea(width))
  {
    OccurrencesCount(labels, 0);
    OccurrencesCount(labels, 1);
    OccurrencesCount(labels, 2);
  }

  /** Headers with as many pixels of each of the labels 0, 1 and 2 get the same verdict. */
  lemma SameCountsSameVerdict(width: nat, height: nat, a: seq<int>, b: seq<int>)
    requires multiset(a)[0] == multiset(b)[0]
    requires multiset(a)[1] == multiset(b)[1]
    requires multiset(a)[2] == multiset(b)[2]
    ensures IsHoroscope(width, height, a) == IsHoroscope(width, height, b)
  {
    IsHoroscopeIff(width, height, a);
    IsHoroscopeIff(width, height, b);
    if width > 0 {
      SameCountsSameDistance(a, b, HeaderArea(width));
    }
  }

  lemma SameCountsSameDistance(a: seq<int>, b: seq<int>, area: real)
    requires area != 0.0
    requires multiset(a)[0] == multiset(b)[0]
    requires multiset(a)[1] == multiset(b)[1]
    requires multiset(a)[2] == multiset(b)[2]
    ensures CountDistance(a, area) == CountDistance(b, area)
  {
  }

  /** Labels other than 0, 1 and 2 do not change the verdict. */
  lemma OtherLabelsIgnored(width: nat, height: nat, labels: seq<int>, l: int)
    requires l != 0 && l != 1 && l != 2
    ensures IsHoroscope(width, height, labels + [l]) == IsHoroscope(width, height, labels)
  {
    assert multiset(labels + [l]) == multiset(labels) + multiset{l};
    SameCountsSameVerdict(width, height, labels + [l], labels);
  }

  /** Only how many pixels carry each label matters, not where they are. */
  lemma OrderOfPixelsIgnored(width: nat, height: nat, a: seq<int>, b: seq<int>)
    requires multiset(a) == multiset(b)
    ensures IsHoroscope(width, height, a) == IsHoroscope(width, height, b)
  {
    SameCountsSameVerdict(width, height, a, b);
  }

  /** A picture of the reference size whose header has the reference counts is a horoscope. */
  lemma ReferenceHeaderAccepted(labels: seq<int>)
    requires multiset(labels)[0] == TrueCount(0)
    requires multiset(labels)[1] == TrueCount(1)
    requires multiset(labels)[2] == TrueCount(2)
    ensures IsHoroscope(TrueWidth, TrueHeight, labels)
  {
    assert HeaderArea(TrueWidth) == (TrueWidth * CropHeight) as real;
    IsHoroscopeIff(TrueWidth, TrueHeight, labels);
  }

  // ---------------------------------------------------------------------------
  // Is it today's horoscope?

  /** Monday is 0, as `datetime.weekday()` counts. */
  type Weekday = w: nat | w < 7

  type Year = y: nat | 1000 <= y <= 9999 witness 2000

  type Month = m: nat | 1 <= m <= 12 witness 1

  type DayOfMonth = d: nat | 1 <= d <= 31 witness 1

  /** The day `now()` returns, as far as the scraper looks at it. */
  datatype Date = Date(year: Year, month: Month, day: DayOfMonth, weekday: Weekday)

  /** `strftime("%A").lower()` in the C locale. */
  function EnglishDayName(w: Weekday): string {
    ["monday", "tuesday", "wednesday", "thursday", "friday", "saturday", "sunday"][w]
  }

  /** `days`: English day names to French ones. */
  const Days: map<string, string> := map[
    "monday" := "lundi", "tuesday" := "mardi", "wednesday" := "mercredi",
    "thursday" := "jeudi", "friday" := "vendredi", "saturday" := "samedi",
    "sunday" := "dimanche"]

  /** `days[today.strftime("%A").lower()]`: every weekday has a French name, never empty. */
  function FrenchDayName(w: Weekday): (name: string)
    ensures name != [] && name in Days.Values
  {
    assert EnglishDayName(w) in Days;
    Days[EnglishDayName(w)]
  }

  /** `today.strftime("%d")`: the day of the month on two digits. */
  function Quantum(d: DayOfMonth): (q: string)
    ensures |q| == 2 && DigitsValue(q) == d
  {
    assert Pow10(2) == 100;
    PadDigitsRoundTrip(d, 2);
    PadDigits(d, 2)
  }

  /** `text.lower()[:300]` */
  function Excerpt(text: string): (e: string)
    ensures |e| == if |text| < ExcerptLength then |text| else ExcerptLength
  {
    var lowered := Lower(text);
    if |lowered| < ExcerptLength then lowered else lowered[..ExcerptLength]
  }

  /** `Scraper.is_horoscope_of_the_day`, given the OCR rendering of the picture and the day. */
  function IsHoroscopeOfTheDay(text: string, today: Date): bool {
    var excerpt := Excerpt(text);
    Contains(excerpt, FrenchDayName(today.weekday)) || Contains(excerpt, Quantum(today.day))
  }

  predicate OccursAt(s: string, p: string, i: nat) {
    i + |p| <= |s| && s[i..i + |p|] == p
  }

  /**
    * The picture is today's exactly when the French weekday name or the two-digit
    * day of the month occurs, after lower-casing, within the first 300 characters.
    */
  lemma IsHoroscopeOfTheDayIff(text: string, today: Date)
    ensures IsHoroscopeOfTheDay(text, today) <==>
      (exists i :: OccursAt(Excerpt(text), FrenchDayName(today.weekday), i)) ||
      (exists i :: OccursAt(Excerpt(text), Quantum(today.day), i))
  {
    var e, name, q := Excerpt(text), FrenchDayName(today.weekday), Quantum(today.day);
    if Contains(e, name) {
      var i := ContainsWitness(e, name);
      assert OccursAt(e, name, i);
    }
    if Contains(e, q) {
      var i := ContainsWitness(e, q);
      assert OccursAt(e, q, i);
    }
    if exists i :: OccursAt(e, name, i) {
      var i :| OccursAt(e, name, i);
      ContainsAt(e, name, i);
    }
    if exists i :: OccursAt(e, q, i) {
      var i :| OccursAt(e, q, i);
      ContainsAt(e, q, i);
    }
  }

  /** Nothing the OCR renders after the 300th character changes the verdict. */
  lemma OnlyTheExcerptMatters(text: string, more: string, today: Date)
    requires |text| >= ExcerptLength
    ensures IsHoroscopeOfTheDay(text + more, today) == IsHoroscopeOfTheDay(text, today)
  {
    assert Lower(text + more)[..ExcerptLength] == Lower(text)[..ExcerptLength];
  }

  /** A picture the OCR reads nothing in is never today's. */
  lemma EmptyTextIsNotToday(today: Date)
    ensures !IsHoroscopeOfTheDay("", today)
  {
    assert Excerpt("") == [];
    NothingInEmpty(FrenchDayName(today.weekday));
    NothingInEmpty(Quantum(today.day));
  }

  // ---------------------------------------------------------------------------
  // Finding today's horoscope among the latest pictures

  /** `strftime("%Y-%m-%d")` */
  function IsoDate(d: Date): (s: string)
    ensures |s| == 10
  {
    assert Pow10(4) == 10000 && Pow10(2) == 100;
    PadDigits(d.year, 4) + "-" + PadDigits(d.month, 2) + "-" + PadDigits(d.day, 2)
  }

  /** Two days with the same ISO date are the same calendar day. */
  lemma IsoDateInjective(a: Date, b: Date)
    requires IsoDate(a) == IsoDate(b)
    ensures a.year == b.year && a.month == b.month && a.day == b.day
  {
    assert Pow10(4) == 10000 && Pow10(2) == 100;
    var s, t := IsoDate(a), IsoDate(b);
    assert s[..4] == PadDigits(a.year, 4) && t[..4] == PadDigits(b.year, 4);
    assert s[5..7] == PadDigits(a.month, 2) && t[5..7] == PadDigits(b.month, 2);
    assert s[8..] == PadDigits(a.day, 2) && t[8..] == PadDigits(b.day, 2);
    PadDigitsInjective(a.year, b.year, 4);
    PadDigitsInjective(a.month, b.month, 2);
    PadDigitsInjective(a.day, b.day, 2);
  }

  /** `Path(IMG_FOLDER) / (now().strftime("%Y-%m-%d") + ".jpg")` */
  function SavedPath(folder: string, today: Date): (path: string)
    ensures path != ""
  {
    folder + "/" + IsoDate(today) + ".jpg"
  }

  /** Horoscopes saved on different calendar days never overwrite each other. */
  lemma SavedPathsDiffer(folder: string, a: Date, b: Date)
    requires SavedPath(folder, a) == SavedPath(folder, b)
    ensures a.year == b.year && a.month == b.month && a.day == b.day
  {
    var n := |folder| + 1;
    assert SavedPath(folder, a)[n..n + 10] == IsoDate(a);
    assert SavedPath(folder, b)[n..n + 10] == IsoDate(b);
    IsoDateInjective(a, b);
  }

  /** A downloaded picture: its size, the cluster labels of its header pixels, its OCR rendering. */
  datatype Download = Download(width: nat, height: nat, header: seq<int>, text: string)

  /** `img_hrefs`: the link given, when it is not empty, or else the latest pictures. */
  function Candidates(imgHref: Option<string>, latest: seq<string>): seq<string> {
    if imgHref.Some? && imgHref.value != "" then [imgHref.value] else latest
  }

  /** How the search leaves one candidate. */
  datatype Outcome =
    | Failed        // the download gave nothing: skipped
    | NotHoroscope  // `is_horoscope` said no: the date is not checked
    | NotToday      // a horoscope, but not today's
    | Today         // today's horoscope: saved, and the search stops

  /** The outcome of the two tests on one download. */
  function Examine(img: Option<Download>, today: Date): Outcome {
    if img.None? then Failed
    else if !IsHoroscope(img.value.width, img.value.height, img.value.header) then NotHoroscope
    else if !IsHoroscopeOfTheDay(img.value.text, today) then NotToday
    else Today
  }

  /** A candidate is accepted exactly when it downloads and passes both tests. */
  lemma ExamineToday(img: Option<Download>, today: Date)
    ensures Examine(img, today) == Today <==>
      img.Some? && IsHoroscope(img.value.width, img.value.height, img.value.header) &&
      IsHoroscopeOfTheDay(img.value.text, today)
    ensures Examine(img, today) == NotToday || Examine(img, today) == Today <==>
      img.Some? && IsHoroscope(img.value.width, img.value.height, img.value.header)
  {
  }

  /** The outcome every candidate would have. */
  function Outcomes(cands: seq<string>, download: string -> Option<Download>, today: Date): (outs: seq<Outcome>)
    ensures |outs| == |cands|
  {
    seq(|cands|, j requires 0 <= j < |cands| => Examine(download(cands[j]), today))
  }

  /** The position of the first of today's horoscopes from position `i` on. */
  function FirstToday(outs: seq<Outcome>, i: nat): Option<nat>
    requires i <= |outs|
    decreases |outs| - i
  {
    if i == |outs| then None
    else if outs[i] == Today then Some(i)
    else FirstToday(outs, i + 1)
  }

  /** The search finds the first of today's horoscopes, or finds nothing when there is none. */
  lemma {:induction false} FirstTodayIsFirst(outs: seq<Outcome>, i: nat)
    requires i <= |outs|
    ensures FirstToday(outs, i).Some? ==>
      var r := FirstToday(outs, i).value;
      i <= r < |outs| && outs[r] == Today && forall j :: i <= j < r ==> outs[j] != Today
    ensures FirstToday(outs, i).None? ==> forall j :: i <= j < |outs| ==> outs[j] != Today
    decreases |outs| - i
  {
    if i < |outs| && outs[i] != Today {
      FirstTodayIsFirst(outs, i + 1);
    }
  }

  /** The positions below `n` of the candidates recognised as horoscopes. */
  function HoroscopesBefore(outs: seq<Outcome>, n: nat): seq<nat>
    requires n <= |outs|
  {
    if n == 0 then []
    else
      var k := n - 1;
      HoroscopesBefore(outs, k) + (if outs[k] == NotToday || outs[k] == Today then [k] else [])
  }

  /** Where the search stops: just after the first of today's horoscopes, or at the end. */
  function StopAt(outs: seq<Outcome>): (n: nat)
    ensures n <= |outs|
  {
    var first := FirstToday(outs, 0);
    FirstTodayIsFirst(outs, 0);
    if first.Some? then first.value + 1 else |outs|
  }

  /** The positions of the candidates whose date is checked: the horoscopes the search reaches. */
  function DateChecked(outs: seq<Outcome>): seq<nat> {
    HoroscopesBefore(outs, StopAt(outs))
  }

  predicate Increasing(r: seq<nat>) {
    forall k, m :: 0 <= k < m < |r| ==> r[k] < r[m]
  }

  lemma {:induction false} HoroscopesBeforeAreHoroscopes(outs: seq<Outcome>, n: nat)
    requires n <= |outs|
    ensures var r := HoroscopesBefore(outs, n);
      Increasing(r) &&
      (forall k :: 0 <= k < |r| ==> r[k] < n && (outs[r[k]] == NotToday || outs[r[k]] == Today)) &&
      (forall j :: 0 <= j < n && (outs[j] == NotToday || outs[j] == Today) ==> j in r)
  {
    if n > 0 {
      HoroscopesBeforeAreHoroscopes(outs, n - 1);
    }
  }

  /**
    * The date is checked on exactly the pictures recognised as horoscopes up
    * to and including the first of today's, each once and in order, and on
    * nothing after it.
    */
  lemma DateCheckedOnlyHoroscopes(outs: seq<Outcome>)
    ensures Increasing(DateChecked(outs))
    ensures forall k :: 0 <= k < |DateChecked(outs)| ==>
      DateChecked(outs)[k] < |outs| && (outs[DateChecked(outs)[k]] == NotToday || outs[DateChecked(outs)[k]] == Today)
    ensures FirstToday(outs, 0).Some? ==>
      forall k :: 0 <= k < |DateChecked(outs)| ==> DateChecked(outs)[k] <= FirstToday(outs, 0).value
    ensures forall j :: 0 <= j < StopAt(outs) && (outs[j] == NotToday || outs[j] == Today) ==> j in DateChecked(outs)
    ensures FirstToday(outs, 0).Some? ==> StopAt(outs) == FirstToday(outs, 0).value + 1
    ensures FirstToday(outs, 0).None? ==> StopAt(outs) == |outs|
  {
    HoroscopesBeforeAreHoroscopes(outs, StopAt(outs));
  }

  /** No picture of today among the first `i` candidates. */
  predicate NoTodayBefore(outs: seq<Outcome>, i: nat)
    requires i <= |outs|
  {
    forall j :: 0 <= j < i ==> outs[j] != Today
  }

  lemma NoTodayExtend(outs: seq<Outcome>, i: nat)
    requires i < |outs| && NoTodayBefore(outs, i) && outs[i] != Today
    ensures NoTodayBefore(outs, i + 1)
  {
  }

  /** One more candidate adds its position to the checked ones when it is a horoscope. */
  lemma HoroscopesBeforeStep(outs: seq<Outcome>, i: nat)
    requires i < |outs|
    ensures HoroscopesBefore(outs, i + 1)
      == HoroscopesBefore(outs, i) + (if outs[i] == NotToday || outs[i] == Today then [i] else [])
  {
  }

  /** Reaching a picture of today with none before it, the search stops there. */
  lemma StopsAtToday(outs: seq<Outcome>, i: nat)
    requires i < |outs| && outs[i] == Today && NoTodayBefore(outs, i)
    ensures FirstToday(outs, 0) == Some(i)
    ensures DateChecked(outs) == HoroscopesBefore(outs, i) + [i]
  {
    FirstTodayIsFirst(outs, 0);
  }

  /** With no picture of today, the search checks every horoscope. */
  lemma RunsToTheEnd(outs: seq<Outcome>)
    requires NoTodayBefore(outs, |outs|)
    ensures FirstToday(outs, 0) == None
    ensures DateChecked(outs) == HoroscopesBefore(outs, |outs|)
  {
    FirstTodayIsFirst(outs, 0);
  }

  /**
    * `Scraper.fetch_new_horoscope`: tries the candidates in order, skipping those
    * that fail to download, checks the date only of pictures recognised as
    * horoscopes, and stops at the first picture passing both tests, returning
    * where it is saved, or `""` when none passes. `dateChecked` lists the
    * candidates the OCR model was run on.
    */
  method FetchNewHoroscope(imgHref: Option<string>, latest: seq<string>,
                           download: string -> Option<Download>, today: Date, folder: string)
    returns (path: string, dateChecked: seq<nat>)
    ensures var outs := Outcomes(Candidates(imgHref, latest), download, today);
      path == (if FirstToday(outs, 0).Some? then SavedPath(folder, today) else "")
      && dateChecked == DateChecked(outs)
  {
    var imgHrefs := Candidates(imgHref, latest);
    ghost var outs := Outcomes(imgHrefs, download, today);
    dateChecked := [];
    var i := 0;
    while i < |imgHrefs|
      invariant 0 <= i <= |imgHrefs|
      invariant NoTodayBefore(outs, i)
      invariant dateChecked == HoroscopesBefore(outs, i)
    {
      var image := download(imgHrefs[i]);
      var outcome := Examine(image, today);
      assert outs[i] == outcome;
      if outcome == Today {
        StopsAtToday(outs, i);
        dateChecked := dateChecked + [i];
        path := SavedPath(folder, today);
        return;
      }
      if outcome == NotToday {
        dateChecked := dateChecked + [i];
      }
      HoroscopesBeforeStep(outs, i);
      NoTodayExtend(outs, i);
      i := i + 1;
    }
    RunsToTheEnd(outs);
    path := "";
  }

  /** With a link given, the latest pictures are not looked at. */
  lemma GivenLinkIsTheOnlyCandidate(href: string, latest: seq<string>, download: string -> Option<Download>, today: Date)
    requires href != ""
    ensures Outcomes(Candidates(Some(href), latest), download, today) == [Examine(download(href), today)]
  {
  }

  /** No candidate at all gives the empty result and no OCR run. */
  lemma NoCandidatesFindNothing(download: string -> Option<Download>, today: Date)
    ensures FirstToday(Outcomes(Candidates(None, []), download, today), 0).None?
    ensures DateChecked(Outcomes(Candidates(None, []), download, today)) == []
  {
  }
}
