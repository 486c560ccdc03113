# Horoscope bot: a Dafny model of its decision logic

This project models the logic of the RTL2 horoscope Discord bot. The bot
watches the radio station's latest social-media pictures for the daily
horoscope image and posts the horoscope as text. The model covers five parts:

- **Extraction** (`parse.py`, and its older variant `ocr.py`): rescaling the
  catalogue of sign regions, cleaning up OCR text, the star-rating classifier,
  assembling the `sign -> (rating, text)` dictionary, and formatting the
  Discord message.
- **Classification and freshness** (`rtl2_horoscope/scraper/scraper.py`, and
  the legacy top-level `scraper.py`): the header-colour classifier, the
  "today's horoscope" date test on the OCR excerpt, and the first-match search
  over candidate links.
- **Scheduling and commands** (`bot.py`): the wait until the next weekday's
  polling hour, the polling job, mention-command matching, and the
  `help`/`download`/`last` handling.
- **Durations** (`rtl2_horoscope/utils.py`): `convert_timedelta`.

Image decoding, OCR, the k-means model, downloads, the clock and Discord are
oracles. A picture is its size, OCR text per crop box, and pixels per star box.
A downloaded picture is its size, its header's cluster labels and its OCR
rendering. The clock is a count of microseconds since a Monday midnight, local
time. Fetching and the client's closing are functions of that clock.

Layout, one module per source file:

- `parse.dfy`: `Parse`.
- `ocr.dfy`: `Ocr`.
- `scraper.dfy`: `Scraper`.
- `legacy_scraper.dfy`: `LegacyScraper`.
- `bot_schedule.dfy`: `Schedule`.
- `bot_commands.dfy`: `Commands`.
- `utils.dfy`: `Utils`.

The helper modules stand for Python built-ins:

- `Wrappers`: `Option` and `Result`. A `Result` error stands for an exception.
- `Dicts`: an insertion-ordered `dict` is a sequence of pairs, with
  `dict(zip(...))` and `collections.Counter`.
- `PyStrings`: `str` methods.
- `Numeric`: absolute value and division facts.
- `Catalog`: regions, pixels and pictures.

Three behaviours of the code are worth knowing, and the model keeps them:

- `clean_up_text` is not idempotent. A single `replace("  ", " ")` pass turns
  four spaces into two (`Parse.CleanUpTextNotIdempotent`).
- `scale_regions` only multiplies (parse.py:47). Its docstring says the factor
  "will round to the nearest integer" (parse.py:39), but nothing is rounded,
  and degenerate rectangles are not rejected.
- `parse_horoscope` rescales only when `width / 1181 != 1`, and then through
  the same multiplication.

## Model

| member | source | states |
|---|---|---|
| Parse.Scaled | parse.py:35-50 | same length and names; every `star` and `text` coordinate multiplied by the factor; nothing else changes |
| Parse.ScaleRegions | parse.py:43-50 | the loop that copies and appends each rescaled region builds exactly `Scaled(factor, regions)` |
| Parse.ScaledByOne | parse.py:242-245 | a factor of 1 leaves the catalogue unchanged, so skipping the rescale at factor 1 changes nothing |
| Parse.ScaledTwice | parse.py:43-50 | rescaling by `a` then `b` is rescaling by `a * b` |
| Parse.ReadCrop | parse.py:63-80 | the OCR text of the crop (the whole image when no region is given), with every newline replaced by a space and nothing else changed |
| Parse.TextsOf | parse.py:103-123 | with distinct sign names, the keys are the names in catalogue order and each value is `ReadCrop` of the sign's text box; no value holds a newline |
| Parse.ReadTexts | parse.py:118-123 | the sequential loop returns exactly `TextsOf` |
| Parse.Whitelist | parse.py:136-137 | every output character matches `[\w ',!?.]` and comes from the input; a text made only of such characters comes back unchanged |
| Parse.CleanUpText | parse.py:126-142 | output characters are whitelisted, come from the input and include no `_` and no newline; no leading or trailing whitespace |
| Parse.WhitelistOne | parse.py:136-137 | a single character is kept exactly when it matches `[\w ',!?.]` |
| Parse.WhitelistAppend | parse.py:137 | `findall` then `join` works character by character: the filter of a concatenation is the concatenation of the filters |
| Parse.CleanUpTextDropsNoise | parse.py:136-140 | inserting a character outside the whitelist, or an `_`, anywhere in the text does not change the cleaned text |
| Parse.CleanUpTextKeepsClean | parse.py:137-140 | a clean text (whitelisted, no `_`, no double space, no outer space) is returned unchanged |
| Parse.CleanUpTextHalvesSpaceRun | parse.py:140 | between two clean words a run of `n` spaces becomes `ceil(n/2)` spaces |
| Parse.CleanUpTextNotIdempotent | parse.py:140 | four spaces between clean words become two, and cleaning again gives one, so the cleanup is not idempotent |
| Parse.Vote | parse.py:169-186 | the vote at a radius has the fewest far pixels, and every colour earlier in bronze, argent, or order has strictly more (`idxmin` keeps the first minimum) |
| Parse.Votes | parse.py:167 | 31 votes (radii 0..30) when robust, one at radius 28 otherwise |
| Parse.FarCountAtZero | parse.py:173-176 | at radius 0 every pixel is far from every centre |
| Parse.VoteAtZeroIsBronze | parse.py:167-186 | at radius 0 all colours tie and the vote is bronze |
| Parse.Mode | parse.py:189 | the mode has the largest vote count; among ties, the least rating name comes first, as pandas sorts the modes |
| Parse.TiedIff | parse.py:189 | a tie, which gives pandas' `mode` a second column, is exactly a second rating as frequent as the one kept |
| Parse.NameRankIsStringOrder | parse.py:189 | the tie rank of the ratings is Python string order of their names |
| Parse.VotesAddUp | parse.py:186-189 | each of the 31 radii casts exactly one vote |
| Parse.MajorityOfRadiiDecides | parse.py:186-189 | a rating voted at more than half the radii is the result |
| Parse.FindStarColor | parse.py:162-189 | no rating for an empty patch (the NaN of an empty mean), a rating otherwise |
| Parse.FastPathVotesAtBallRadius | parse.py:167 | with `robust=False` the rating is the vote at radius 28 |
| Parse.FindStarColors | parse.py:158-191 | keys are the sign names in catalogue order; each value is the rating of that sign's star patch |
| Parse.CatalogFor | parse.py:240-245 | the catalogue is used as is at width 1181 and rescaled by `width / 1181` otherwise; names are unchanged |
| Parse.ParseHoroscopeEntries | parse.py:240-257 | keys are the sign names in catalogue order; each value pairs the rating of the rescaled star box with the cleaned text of the rescaled text box |
| Parse.BulletPoints | parse.py:269-276 | ok exactly when every rating has an emoji, one `gen_bullet_point` line per entry in order; otherwise the KeyError of the first entry without one |
| Parse.ReformatHoroscope | parse.py:260-280 | fails exactly when some entry's rating is not a key of `star_emojis` |
| Parse.ReformatHoroscopeLines | parse.py:269-280 | splitting the message at newlines gives one line `- **<Sign>** <emoji>: <text>` per entry, in dict order |
| Ocr.NearestStar | ocr.py:108-131 | no rating for an empty patch; otherwise the least scaled distance, and every earlier colour is strictly farther (`idxmin` keeps the first) |
| Ocr.ScaledDistanceOrder | ocr.py:118-128 | the exact integer distance orders the colours as the mean squared gap between the mean colour and the centre does |
| Ocr.ScaledGapIsMeanGap | ocr.py:108-128 | the exact integer gap `sum((100 sum - n c)^2)` equals the mean over the channels of `(mean - centre)^2` times `3 (100 n)^2` |
| Ocr.FindStarColors | ocr.py:96-133 | keys are the sign names in catalogue order; each value is the nearest centre to its patch's mean colour |
| Ocr.ParseHoroscopeEntries | ocr.py:136-161 | each sign pairs its nearest-centre rating with its uncleaned OCR text, with no rescaling |
| Scraper.TrueProportionsSumToOne | rtl2_horoscope/scraper/scraper.py:19-25 | 750054 + 960179 + 179367 = 2362 x 800, so the reference proportions add up to 1 |
| Scraper.OccurrencesCount | rtl2_horoscope/scraper/scraper.py:70-71 | indexing the Counter gives the label's number of occurrences, and 0 for an absent label |
| Scraper.IsHoroscopeIff | rtl2_horoscope/scraper/scraper.py:58-76 | accepted exactly when the width and height ratios differ by at most 0.05, the width is positive, and the L1 distance over labels 0, 1 and 2 is below 0.05 |
| Scraper.SameCountsSameVerdict | rtl2_horoscope/scraper/scraper.py:68-76 | the verdict depends on the labels only through the counts of labels 0, 1 and 2 |
| Scraper.OtherLabelsIgnored | rtl2_horoscope/scraper/scraper.py:70-71 | adding a pixel of any other label changes nothing |
| Scraper.OrderOfPixelsIgnored | rtl2_horoscope/scraper/scraper.py:69-76 | headers with the same labels in any order get the same verdict |
| Scraper.ReferenceHeaderAccepted | rtl2_horoscope/scraper/scraper.py:19-25 | a reference-sized picture with exactly the reference counts is accepted |
| Scraper.FrenchDayName | rtl2_horoscope/scraper/scraper.py:28-36 | every weekday has a non-empty French name from the `days` table |
| Scraper.Quantum | rtl2_horoscope/scraper/scraper.py:84 | the day of the month on exactly two digits, which read back as the day |
| Scraper.Excerpt | rtl2_horoscope/scraper/scraper.py:81 | at most the first 300 characters |
| Scraper.IsHoroscopeOfTheDayIff | rtl2_horoscope/scraper/scraper.py:80-87 | today's horoscope exactly when the French day name or the two-digit day occurs somewhere in the lower-cased 300-character excerpt |
| Scraper.OnlyTheExcerptMatters | rtl2_horoscope/scraper/scraper.py:81 | text beyond the first 300 characters does not change the answer |
| Scraper.EmptyTextIsNotToday | rtl2_horoscope/scraper/scraper.py:87 | an empty rendering is never today's horoscope |
| Scraper.IsoDate | rtl2_horoscope/scraper/scraper.py:134 | `%Y-%m-%d` is ten characters long |
| Scraper.IsoDateInjective | rtl2_horoscope/scraper/scraper.py:134 | different calendar days give different dates |
| Scraper.SavedPathsDiffer | rtl2_horoscope/scraper/scraper.py:134-137 | horoscopes of different days are saved under different paths |
| Scraper.Outcomes | rtl2_horoscope/scraper/scraper.py:120-131 | one outcome per candidate |
| Scraper.ExamineToday | rtl2_horoscope/scraper/scraper.py:121-131 | a candidate is accepted exactly when it downloads and passes both tests, and its date is checked exactly when it downloads and is a horoscope |
| Scraper.FirstTodayIsFirst | rtl2_horoscope/scraper/scraper.py:120-137 | the search result is the first candidate accepted, and none is accepted when it finds nothing |
| Scraper.DateCheckedOnlyHoroscopes | rtl2_horoscope/scraper/scraper.py:128-137 | the date is checked in increasing order, only on horoscopes, and on every horoscope up to the one accepted (or to the end) |
| Scraper.FetchNewHoroscope | rtl2_horoscope/scraper/scraper.py:107-145 | the loop returns `IMG_FOLDER/<today>.jpg` exactly when some candidate is accepted, `''` otherwise, and checks the dates of exactly the horoscopes met before stopping |
| Scraper.GivenLinkIsTheOnlyCandidate | rtl2_horoscope/scraper/scraper.py:107-109 | a given link is the only candidate |
| Scraper.NoCandidatesFindNothing | rtl2_horoscope/scraper/scraper.py:115-145 | with no pictures the result is `''` and no date is checked |
| LegacyScraper.TrueProportion | scraper.py:40 | each reference count over 92540 |
| LegacyScraper.TrueProportionsSumToOne | scraper.py:34-40 | the header is 661 x 140 = 92540 pixels, 41976 + 41676 + 8888 = 92540, and the proportions add up to 1 |
| LegacyScraper.SignedGap | scraper.py:41-42 | defined for one Counter value (broadcast) or three; any other number is the shape error |
| LegacyScraper.IsHoroscope | scraper.py:26-44 | `None` for an unreadable file or when the number of distinct labels is neither 1 nor 3 |
| LegacyScraper.ThreeLabelsVerdict | scraper.py:41-42 | with three labels the verdict is whether abs(1 - n / 92540) < 0.03, however the pixels are shared among the labels |
| LegacyScraper.AnyThreeLabelsAccepted | scraper.py:34-42 | every 92540-pixel header with three labels is accepted |
| LegacyScraper.OneLabelRejected | scraper.py:41-42 | a single-label header gives the sum -2 and is rejected |
| LegacyScraper.ObservedInFirstSeenOrder | scraper.py:37-41 | the first observed proportion is that of the first pixel's label, not of label 0 |
| LegacyScraper.IsHoroscopeL1 | scraper.py:40-42 | the corrected test gives a verdict for every readable file |
| LegacyScraper.L1AcceptsReference | scraper.py:38-40 | the reference counts are accepted by the corrected test |
| LegacyScraper.L1RejectsFarCount | scraper.py:40-42 | the corrected test rejects any header with one of the labels 0, 1 and 2 off its reference count by 2777 pixels or more |
| LegacyScraper.SkewedHeaderAccepted | scraper.py:41-42 | one pixel of label 0, one of label 1 and the rest of label 2 is accepted as written and rejected by the corrected test |
| Schedule.Weekday | bot.py:164 | `weekday()` lies in 0..6 |
| Schedule.Hour | bot.py:97 | `hour` lies in 0..23 |
| Schedule.DaysToWait | bot.py:163-169 | 1 to 3 days, landing on a weekday, and the fewest that do: 3 on Friday, 2 on Saturday, 1 otherwise |
| Schedule.TimeToWait | bot.py:156-171 | an error for an empty `hours` (IndexError) or `hours[0]` outside 0..23 (ValueError), otherwise the wait depends on `hours` only through `hours[0]` |
| Schedule.GetTimeToWait | bot.py:161-171 | the conditional increments compute `TimeToWait` |
| Schedule.WaitBounds | bot.py:170-171 | the wait is positive and shorter than four days |
| Schedule.WaitEndsOnNextWeekday | bot.py:163-170 | the wait ends on the day `DaysToWait` later, a weekday, at exactly `hours[0]`:00:00.000000 |
| Schedule.CheckConfig | bot.py:88-92 | passes exactly when `days` and `hours` are non-empty, every day is in 0..6 and every hour is in 0..23 |
| Schedule.Job | bot.py:74-107 | fails with the assertion message on a bad configuration; otherwise the loop over rounds, each run by `PollRound`, produces exactly the events of `Run` in its as-written mode, where the window is tested on the time read at the start of the round, up to the first fetch that raises |
| Schedule.PollRound | bot.py:94-107 | one round as written: `today` read once, then failed fetches while `today` lies in the window, each followed by `fetch_interval` seconds, then the fetch that raises, which stops the job, or the fetch that succeeds or the exit from the loop, then the long sleep; its events followed by the rest of the job are exactly the as-written round of `Poll` |
| Schedule.PollsOnlyInWindow | bot.py:97-101 | every fetch of the corrected job, which re-reads the clock before each fetch, happens on a polling day in a polling hour, the one that raises included |
| Schedule.RunIsPaced | bot.py:97-107 | for the job as written and for the corrected one: a failed fetch is followed by the next event `fetch_interval` seconds later, a successful one by the long sleep at once, the long sleep by the next event at its end, and a fetch that raised by nothing |
| Schedule.FaultEndsJob | bot.py:94-107 | the job runs as a bare task (bot.py:45) with no `try` around the fetch, so a fetch that raises is the job's last event |
| Schedule.RunRecordsFetches | bot.py:97-98 | each fetch event records what `fetch_new_horoscope` did at that moment: its result, or the exception it raised |
| Schedule.RunRestsEndRight | bot.py:103-107 | for the job as written and for the corrected one: every long sleep is positive, shorter than four days, and ends `DaysToWait` days later, on a weekday, at exactly `hours[0]`:00:00 |
| Schedule.RunStartsAt | bot.py:94-97 | for the job as written and for the corrected one: the first event happens when the job starts |
| Schedule.DefaultSettings | bot.py:74 | the default configuration (300 s, Monday to Friday, 9 to 12) passes the assertions |
| Schedule.StaleWindowPollsAfterHours | bot.py:94-101 | on a Friday at 12:59 with no horoscope, the job as written (`Run` with the window tested on the round's start) fetches again at 13:04, outside the window, where the corrected job sleeps until Monday 9:00 |
| Commands.Mention | bot.py:64 | `<@id>` or `<@!id>`, the `!` exactly when asked for |
| Commands.CommandIsForBot | bot.py:64-72 | a command always addresses the bot |
| Commands.CommandIgnoresTrailingText | bot.py:72 | the match is on a prefix: text after the command still matches |
| Commands.CommandsExclusive | bot.py:72 | two commands neither of which starts the other never both match |
| Commands.BotCommandsExclusive | bot.py:116-127 | at most one of `help`, `download` and `last` matches a message |
| Commands.DownloadLink | bot.py:120-121 | the link is the last space-separated field, and is taken only when it starts with `http` |
| Commands.DownloadLinkIsLastField | bot.py:120-121 | a space-free `http` link at the end of a message is the link taken |
| Commands.LastHoroscope | bot.py:128-132 | nothing for an empty folder; otherwise `IMG_FOLDER/<name>` for the greatest file name in Python string order |
| Commands.OnMessage | bot.py:109-133 | nothing for the bot's own messages, at most one action, and each action exactly when its command matches: the manual, the download of an `http` link, the out-of-stock message for an empty folder, or the greatest saved horoscope |
| Commands.RatingNameHasEmoji | parse.py:28-32 | a rating's name has an emoji exactly when a rating was read |
| Commands.HoroscopeMessageFails | bot.py:135-142 | sending a parsed horoscope raises exactly when one sign's rescaled star box is empty, or one sign's votes tie in a catalogue of several signs |
| Commands.FetchNewHoroscope | bot.py:144-154 | nothing exactly when the scraper finds no horoscope of today; otherwise today's saved path with the message built from that picture, or, with distinct sign names, an exception exactly when one sign's rescaled star box is empty or one sign's votes tie in a catalogue of several signs |
| Commands.DownloadPause | bot.py:119-125 | after a successful download the bot pauses less than four days, until exactly 10:00:00 on the next weekday, `DaysToWait` days later |
| Utils.FromMicroseconds | rtl2_horoscope/utils.py:35 | a length in microseconds in `timedelta`'s normal form, which adds back up to the length |
| Utils.ConvertTimedelta | rtl2_horoscope/utils.py:34-39 | `days` unchanged; hours < 24, minutes < 60, seconds < 60; `hours*3600 + minutes*60 + seconds == duration.seconds` |
| Utils.ConvertTimedeltaUnique | rtl2_horoscope/utils.py:36-38 | that decomposition is the only one within those bounds |
| Utils.MicrosecondsIgnored | rtl2_horoscope/utils.py:35 | the microseconds play no part |
| Utils.ConvertMicroseconds | rtl2_horoscope/utils.py:34-39 | the four numbers add back up to the whole seconds of the duration |
| Dicts.CounterCounts | rtl2_horoscope/scraper/scraper.py:70 | `Counter` maps every element to its number of occurrences and nothing else |
| Dicts.CounterTotal | scraper.py:37 | the counts add up to the number of pixels |
| Dicts.CounterSize | scraper.py:37-41 | the Counter holds one value per distinct label |
| Dicts.FromPairsDistinct | parse.py:123 | `dict(zip(...))` over distinct keys keeps every pair in order |
| PyStrings.ReplaceDoubleSpacesRun | parse.py:140 | one `replace("  ", " ")` pass turns a run of `n` spaces into `ceil(n/2)` |
| PyStrings.ReplaceDoubleSpacesKeepsChars | parse.py:140 | the replacement only removes spaces: every character of the result occurs in the text |
| PyStrings.ReplaceDoubleSpacesNoDouble | parse.py:140 | text without a double space comes back unchanged |
| PyStrings.ReplaceDoubleSpacesAppend | parse.py:140 | text not ending in a space is rewritten independently of what follows it |
| PyStrings.SplitJoin | parse.py:278 | splitting the joined lines gives them back when none holds the separator |
| PyStrings.JoinSplit | parse.py:278 | joining the fields of a split gives the text back |
| PyStrings.SplitLastField | bot.py:120 | `split(" ")[-1]` is the space-free suffix after the last space |
| PyStrings.Greatest | bot.py:128 | the first of `sorted(..., reverse=True)` is a name of the list, no less than any other |
| PyStrings.RemoveCharOne | parse.py:140 | `replace("_", "")` on one character removes it exactly when it is the `_` |
| PyStrings.RemoveCharAppend | parse.py:140 | removing a character distributes over concatenation |
| PyStrings.PadDigitsRoundTrip | rtl2_horoscope/scraper/scraper.py:84 | zero-padded digits read back as the number |

## Left out

- Image decoding and cropping, Tesseract and doctr OCR, and the pickled
  k-means model are oracles. A picture is its size, its OCR text per crop box
  and its pixels per star box. A download is its size, header labels and
  rendering.
- Downloads, the social-media scrapers (`get_last_images`, Facebook, Twitter)
  and writing the file are not modelled. The search takes the latest links and
  a download function.
- Discord is not modelled: the client, sending, the manual text, logging and
  `asyncio.sleep`. Sending is the list of actions the bot takes. A sleep
  advances the clock.
- The thread pool and progress bar of `read_texts` are not modelled. The
  sequential path is modelled, because both paths map `read_crop` over the
  text boxes in order.
- `Ocr`: `read_crop` and `read_texts` of `ocr.py` are the same code as in
  `parse.py` with the module's catalogue, so `Ocr.ParseHoroscope` reuses
  `Parse.ReadCrop`.
- Floating point is not modelled:
  - Proportions and the scale factor are exact reals.
  - Star-centre distances are exact integers, with the centres scaled by 100
    and the distance test `sqrt(d) >= r` as `d >= r^2`.
- Parse.Mode, Parse.FindStarColors, Parse.ParseHoroscopeEntries: pandas gives
  several columns for a tied mode, and `squeeze()` leaves them unflattened, so
  `to_dict()` is keyed by column and `parse_horoscope` pairs only the first two
  or three signs, each with a nested dict. These functions keep one column, the
  least tied rating name, which is the first of pandas' sorted modes. The
  consequence is modelled where it surfaces: with more than one sign,
  `Commands.HoroscopeMessage` raises the TypeError of indexing `star_emojis`
  with a dict (`Commands.HoroscopeMessageFails`). With a one-sign catalogue and
  no tie, `squeeze()` turns the mode into a string whose missing `to_dict`
  raises an AttributeError; that case is not modelled.
- The clock ignores daylight-saving time. `next_day - today` between two
  times of one timezone is wall-clock arithmetic.
- Fetching takes no time on the model's clock.
- Parse.Whitelist, Parse.CleanUpText, Scraper.Excerpt, Parse.ReformatHoroscope: Python's `\w` and its
  `lower()`/`title()` follow the Unicode tables. The model's word characters are
  the ASCII letters and digits, `_`, and the letters and digits of Latin-1 and Latin
  Extended-A; its case mapping, and the letters `title()` treats as part of
  a word, are the ASCII letters only, so `"élan".title()` differs. Other
  scripts are not modelled.
- Commands.FetchNewHoroscope: the scraper returns a `pathlib.Path`
  (rtl2_horoscope/scraper/scraper.py:134), and the bot hands it to the
  `parse_horoscope` of the package module `rtl2_horoscope/parse.py`, which is
  not part of this model. The model assumes that function opens a Path. The
  top-level `parse.py` modelled here opens only a `str` (parse.py:235-237); given
  a Path it would raise an AttributeError at `img.load()`. The `last` command
  passes a `str` (bot.py:132) and is not affected.
- Scraper.IsHoroscope, Scraper.IsHoroscopeIff: a picture of width 0 and height
  at most 171 passes the ratio test. The model then answers false, where the
  source's crop is empty and `kmeans.predict` raises.
- Scraper.FetchNewHoroscope, Commands.FetchNewHoroscope: the download oracle
  yields a decoded picture for every status-200 response. A response that
  `Image.open` cannot decode raises out of the search in the source; that
  exception is not modelled.
- Schedule.Job, Schedule.PollRound and Schedule.Run: the job never ends while the client is open,
  so `fuel` bounds the number of rounds and failed fetches. The events after
  the fuel runs out are not modelled.
- `md5`, `disp_image_with_rectangle`, `now` and `log` in both utils files are
  not modelled, nor is all of `horoscope_bot.py`.
- `LegacyScraper.IsHoroscope` folds every caught exception into `None`, as a
  Python function falling off its end returns. The printed message is not
  modelled.

## Findings

| source | as written | input that shows it | evidently intended | confidence | as-written member | corrected member |
|---|---|---|---|---|---|---|
| bot.py:94-101 | the inner polling loop tests the window on `today`, read once before the loop, so after a failed fetch inside the window it keeps fetching every `fetch_interval` seconds past the end of the window, overnight and over the weekend, until a fetch succeeds | default job, no horoscope published, started on a Friday at 12:59: the next fetch is at 13:04 | re-read the clock on each poll and leave the loop once outside the polling days and hours | not executed | Schedule.StaleWindowPollsAfterHours | Schedule.PollsOnlyInWindow |
| scraper.py:41-42 | the test takes the absolute value of the signed sum of `true_prop - proportions`; with three labels both vectors add up to 1, so the sum is 0 and every three-label header is accepted | a 661 x 140 header with one pixel of label 0, one of label 1 and 92538 of label 2 is accepted | the L1 distance `sum(abs(true_prop - proportions))` over labels 0, 1 and 2, as the newer scraper computes it | not executed | LegacyScraper.SkewedHeaderAccepted | LegacyScraper.L1RejectsFarCount |
