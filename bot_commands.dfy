/**
  * The message handling half of the Discord bot of `bot.py`: recognising the
  * mention commands, the `download` and `last` commands, and what the bot does
  * with a horoscope once the scraper has found one.
  *
  * Discord itself is left out: a message is its text and whether the bot
  * wrote it, the image folder is the list of its file names, and sending is
  * the list of actions the bot takes.
  */
module Commands {
  import opened Wrappers
  import opened Dicts
  import opened PyStrings
  import opened Catalog
  import Parse
  import Scraper
  import Schedule

  /** `<@id>`, or `<@!id>` with the exclamation mark the regular expressions allow. */
  function Mention(id: nat, bang: bool): (m: string)
    ensures |m| > 3 && m[..2] == "<@" && m[|m| - 1] == '>'
    ensures bang <==> m[2] == '!'
  {
    var digits := DecimalString(id);
    var m := "<@" + (if bang then "!" else "") + digits + ">";
    assert digits[0] in digits;
    assert m[2] == (if bang then '!' else digits[0]);
    m
  }

  /** `is_for_bot`: `re.match(f"^<@!?{id}>", content)`. */
  predicate IsForBot(content: string, id: nat) {
    StartsWith(content, Mention(id, false)) || StartsWith(content, Mention(id, true))
  }

  /** `command`: `re.match(f"^<@!?{id}> {cmd}", content)`, a match on a prefix only. */
  predicate Command(content: string, id: nat, cmd: string) {
    StartsWith(content, Mention(id, false) + " " + cmd) || StartsWith(content, Mention(id, true) + " " + cmd)
  }

  lemma StartsWithLonger(s: string, p: string, q: string)
    requires StartsWith(s, p + q)
    ensures StartsWith(s, p)
  {
    assert s[..|p|] == (p + q)[..|p|];
  }

  /** A command is addressed to the bot. */
  lemma CommandIsForBot(content: string, id: nat, cmd: string)
    requires Command(content, id, cmd)
    ensures IsForBot(content, id)
  {
    if StartsWith(content, Mention(id, false) + " " + cmd) {
      StartsWithLonger(content, Mention(id, false), " " + cmd);
    } else {
      StartsWithLonger(content, Mention(id, true), " " + cmd);
    }
    assert Mention(id, false) + " " + cmd == Mention(id, false) + (" " + cmd);
    assert Mention(id, true) + " " + cmd == Mention(id, true) + (" " + cmd);
  }

  /** Text after the command does not stop it from matching. */
  lemma CommandIgnoresTrailingText(content: string, id: nat, cmd: string, more: string)
    requires Command(content, id, cmd)
    ensures Command(content + more, id, cmd)
  {
    var p := if StartsWith(content, Mention(id, false) + " " + cmd)
      then Mention(id, false) + " " + cmd else Mention(id, true) + " " + cmd;
    assert (content + more)[..|p|] == content[..|p|];
  }

  /** Two commands neither of which begins the other never both match. */
  lemma CommandsExclusive(content: string, id: nat, a: string, b: string)
    requires !StartsWith(a, b) && !StartsWith(b, a)
    ensures !(Command(content, id, a) && Command(content, id, b))
  {
    if Command(content, id, a) && Command(content, id, b) {
      var x := StartsWith(content, Mention(id, true) + " " + a);
      var y := StartsWith(content, Mention(id, true) + " " + b);
      var p := Mention(id, x) + " ";
      var q := Mention(id, y) + " ";
      assert StartsWith(content, p + a) by { assert p + a == Mention(id, x) + " " + a; }
      assert StartsWith(content, q + b) by { assert q + b == Mention(id, y) + " " + b; }
      assert content[2] == (p + a)[2] == p[2] && content[2] == (q + b)[2] == q[2];
      assert x == y;
      var rest := content[|p|..];
      assert StartsWith(rest, a) by { assert (p + a)[|p|..] == a; }
      assert StartsWith(rest, b) by { assert (q + b)[|p|..] == b; }
      PrefixesAgree(rest, a, b);
      assert false;
    }
  }

  /** The commands the bot knows. */
  const Help: string := "help"
  const Download: string := "download"
  const Last: string := "last"

  /** At most one of the bot's commands matches a message. */
  lemma BotCommandsExclusive(content: string, id: nat)
    ensures !(Command(content, id, Help) && Command(content, id, Download))
    ensures !(Command(content, id, Help) && Command(content, id, Last))
    ensures !(Command(content, id, Download) && Command(content, id, Last))
  {
    assert Help[0] != Last[0] && Help[0] != Download[0] && Download[0] != Last[0];
    CommandsExclusive(content, id, Help, Download);
    CommandsExclusive(content, id, Help, Last);
    CommandsExclusive(content, id, Download, Last);
  }

  /**
    * The link of a `download` command: the message's last space-separated
    * field, taken only when it starts with `http`.
    */
  function DownloadLink(content: string): (link: Option<string>)
    ensures link.Some? ==> StartsWith(link.value, "http") && ' ' !in link.value
    ensures link.Some? ==> var n := |link.value|;
      n <= |content| && content[|content| - n..] == link.value &&
      (n < |content| ==> content[|content| - n - 1] == ' ')
  {
    var parts := Split(content, ' ');
    var href := parts[|parts| - 1];
    SplitLastField(content, ' ');
    if StartsWith(href, "http") then Some(href) else None
  }

  /** A link is taken whatever the command text before it. */
  lemma DownloadLinkIsLastField(before: string, href: string)
    requires ' ' !in href && StartsWith(href, "http")
    ensures DownloadLink(before + " " + href) == Some(href)
  {
    var content := before + " " + href;
    var parts := Split(content, ' ');
    var last := parts[|parts| - 1];
    SplitLastField(content, ' ');
    var n, h := |content|, |href|;
    assert content[n - h..] == href;
    assert content[n - h - 1] == ' ';
    assert last == content[n - h..];
  }

  /**
    * The file `last` sends: the greatest name in the folder, or `None` when
    * the folder is empty and the bot answers that it has no horoscope in stock.
    */
  function LastHoroscope(folder: string, files: seq<string>): (path: Option<string>)
    ensures path.None? <==> files == []
    ensures path.Some? ==>
      StartsWith(path.value, folder + "/") &&
      var name := path.value[|folder| + 1..];
      name in files && forall f :: f in files ==> LexLe(f, name)
  {
    if files == [] then None
    else
      var path := folder + "/" + Greatest(files);
      assert path[..|folder| + 1] == folder + "/";
      assert path[|folder| + 1..] == Greatest(files);
      Some(path)
  }

  /** The message the bot sends when the folder is empty. */
  const NoStock: string := "Aucun horoscope en stock :-("

  /** What the bot does in answer to a message. */
  datatype Action =
    | SendManual
    | FetchFrom(href: string)
    | Say(text: string)
    | ParseAndSend(path: string)

  /**
    * `on_message`: nothing for the bot's own messages; otherwise the manual
    * for `help`, a fetch of the link for `download` when it starts with
    * `http`, and the greatest saved horoscope (or the out-of-stock message)
    * for `last`, each command tested in that order.
    */
  function OnMessage(fromSelf: bool, content: string, id: nat, folder: string, files: seq<string>): (r: seq<Action>)
    ensures fromSelf ==> r == []
    ensures |r| <= 1
    ensures SendManual in r <==> !fromSelf && Command(content, id, Help)
    ensures forall href :: FetchFrom(href) in r <==>
      !fromSelf && Command(content, id, Download) && DownloadLink(content) == Some(href)
    ensures Say(NoStock) in r <==> !fromSelf && Command(content, id, Last) && files == []
    ensures forall p :: ParseAndSend(p) in r <==>
      !fromSelf && Command(content, id, Last) && LastHoroscope(folder, files) == Some(p)
  {
    BotCommandsExclusive(content, id);
    if fromSelf then []
    else
      var help := if Command(content, id, Help) then [SendManual] else [];
      var link := DownloadLink(content);
      var download := if Command(content, id, Download) && link.Some? then [FetchFrom(link.value)] else [];
      var last :=
        if !Command(content, id, Last) then []
        else if files == [] then [Say(NoStock)]
        else [ParseAndSend(LastHoroscope(folder, files).value)];
      help + download + last
  }

  // ---------------------------------------------------------------------------
  // Sending a horoscope

  /**
    * The rating name the emoji table is looked up with: a patch with no
    * rating leaves pandas a NaN, which is not a key of the table.
    */
  function RatingName(star: Option<Parse.Star>): string {
    if star.Some? then Parse.StarName(star.value) else "nan"
  }

  /** A parsed entry as `reformat_horoscope` receives it: the rating by name, then the text. */
  function Named(e: (Option<Parse.Star>, string)): (string, string) {
    (RatingName(e.0), e.1)
  }

  /** The exception of `star_emojis[star]` when `star` is a dict. */
  const UnhashableDict := "TypeError: unhashable type: 'dict'"

  /**
    * `parse_and_send_horoscope`: the message sent along with the picture,
    * `reformat_horoscope(parse_horoscope(filename))`, or the exception it
    * raises. When some sign's votes tie and the catalogue has more than one
    * sign, `mode` has several columns, `squeeze()` keeps them, and `to_dict()`
    * maps each column to a dict; the first entry's rating is then a dict,
    * which `star_emojis` cannot be indexed with. Otherwise a rating without
    * an emoji raises the KeyError.
    */
  function HoroscopeMessage(img: Picture, regions: seq<Region>): Result<string> {
    if |regions| > 1 && Parse.SomeTie(img, Parse.CatalogFor(img.width, regions)) then Err(UnhashableDict)
    else Parse.ReformatHoroscope(MapValues(Parse.ParseHoroscope(img, regions), Named))
  }

  /** A rating name has an emoji exactly when a rating was read. */
  lemma RatingNameHasEmoji(star: Option<Parse.Star>)
    ensures RatingName(star) in Parse.StarEmojis <==> star.Some?
  {
    if star.Some? {
      match star.value
      case Bronze => assert RatingName(star) == "bronze";
      case Argent => assert RatingName(star) == "argent";
      case Or => assert RatingName(star) == "or";
    } else {
      assert RatingName(star) == "nan";
    }
  }

  /** The entry of a sign lacks an emoji exactly when its rescaled star box is empty. */
  lemma NamedEntryFails(img: Picture, regions: seq<Region>, i: nat)
    requires Distinct(Names(regions))
    requires i < |regions|
    ensures var m := MapValues(Parse.ParseHoroscope(img, regions), Named);
      var scaled := Parse.CatalogFor(img.width, regions);
      |m| == |regions| &&
      (m[i].1.0 !in Parse.StarEmojis <==> img.patch(scaled[i].star) == [])
  {
    var scaled := Parse.CatalogFor(img.width, regions);
    var d := Parse.ParseHoroscope(img, regions);
    Parse.ParseHoroscopeEntries(img, regions);
    assert |d| == |regions| by { assert |Keys(d)| == |Names(regions)|; }
    var star := Parse.FindStarColor(img.patch(scaled[i].star), true);
    assert d[i].1.0 == star;
    var m := MapValues(d, Named);
    assert m[i] == (d[i].0, Named(d[i].1));
    assert m[i].1.0 == RatingName(star);
    RatingNameHasEmoji(star);
  }

  /**
    * The message fails exactly when the votes of one sign's star box tie in a
    * catalogue of several signs, or the star box of one sign holds no pixel
    * once rescaled; every rating has an emoji.
    */
  lemma HoroscopeMessageFails(img: Picture, regions: seq<Region>)
    requires Distinct(Names(regions))
    ensures var scaled := Parse.CatalogFor(img.width, regions);
      HoroscopeMessage(img, regions).Err? <==>
        (|regions| > 1 && Parse.SomeTie(img, scaled)) || exists i :: 0 <= i < |regions| && img.patch(scaled[i].star) == []
  {
    var scaled := Parse.CatalogFor(img.width, regions);
    var m := MapValues(Parse.ParseHoroscope(img, regions), Named);
    if |regions| > 1 && Parse.SomeTie(img, scaled) {
      return;
    }
    if HoroscopeMessage(img, regions).Err? {
      var i :| 0 <= i < |m| && m[i].1.0 !in Parse.StarEmojis;
      assert i < |regions| by {
        Parse.ParseHoroscopeEntries(img, regions);
        assert |Keys(m)| == |Names(regions)|;
      }
      NamedEntryFails(img, regions, i);
    }
    if i :| 0 <= i < |regions| && img.patch(scaled[i].star) == [] {
      NamedEntryFails(img, regions, i);
    }
  }

  /**
    * `HoroscopeDiscordBot.fetch_new_horoscope`: asks the scraper for today's
    * horoscope and, when it returns a path, runs `parse_and_send_horoscope` on
    * the saved picture, `open(path)`. The result is the path and the message
    * sent, nothing when no horoscope was found, or the exception that
    * `reformat_horoscope` raises before anything is sent.
    */
  method FetchNewHoroscope(imgHref: Option<string>, latest: seq<string>,
                           download: string -> Option<Scraper.Download>, today: Scraper.Date, folder: string,
                           open: string -> Picture, regions: seq<Region>)
    returns (r: Result<Option<(string, string)>>)
    ensures var outs := Scraper.Outcomes(Scraper.Candidates(imgHref, latest), download, today);
      r == Ok(None) <==> Scraper.FirstToday(outs, 0).None?
    ensures var outs := Scraper.Outcomes(Scraper.Candidates(imgHref, latest), download, today);
      var path := Scraper.SavedPath(folder, today);
      var message := HoroscopeMessage(open(path), regions);
      Scraper.FirstToday(outs, 0).Some? ==>
        r == (if message.Ok? then Ok(Some((path, message.value))) else Err(message.error))
    ensures var outs := Scraper.Outcomes(Scraper.Candidates(imgHref, latest), download, today);
      var img := open(Scraper.SavedPath(folder, today));
      var scaled := Parse.CatalogFor(img.width, regions);
      Distinct(Names(regions)) ==>
        (r.Err? <==>
           Scraper.FirstToday(outs, 0).Some? &&
           ((|regions| > 1 && Parse.SomeTie(img, scaled)) || exists i :: 0 <= i < |regions| && img.patch(scaled[i].star) == []))
  {
    var horoscope, _ := Scraper.FetchNewHoroscope(imgHref, latest, download, today, folder);
    if Distinct(Names(regions)) {
      HoroscopeMessageFails(open(Scraper.SavedPath(folder, today)), regions);
    }
    if horoscope == "" {
      return Ok(None);
    }
    var message := HoroscopeMessage(open(horoscope), regions);
    if message.Err? {
      return Err(message.error);
    }
    return Ok(Some((horoscope, message.value)));
  }

  /**
    * After a successful `download` the bot pauses until 10:00 on the next
    * weekday: `get_time_to_wait([10, 11, 12])`.
    */
  function DownloadPause(now: nat): (wait: int)
    ensures 0 < wait < 4 * Schedule.DayUs
    ensures (now + wait) / Schedule.DayUs == now / Schedule.DayUs + Schedule.DaysToWait(Schedule.Weekday(now))
    ensures Schedule.Weekday(now + wait) < 5 && Schedule.Hour(now + wait) == 10
    ensures (now + wait) % Schedule.HourUs == 0
  {
    Schedule.WaitBounds(now, 10);
    Schedule.WaitEndsOnNextWeekday(now, 10);
    Schedule.TimeToWait(now, [10, 11, 12]).value
  }
}
