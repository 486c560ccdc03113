/**
  * The scheduling half of the Discord bot of `bot.py`: the wait until the next
  * weekday's first polling hour, and the background job that polls for a new
  * horoscope inside the configured window and then sleeps until the next one.
  *
  * The wall clock is a count of microseconds since a Monday at midnight,
  * local time; `now()` reads it and every `asyncio.sleep` advances it. The
  * fetch and the bot's closing are oracles over that clock.
  */
module Schedule {
  import opened Wrappers
  import opened Numeric

  const SecondUs: nat := 1000000
  const MinuteUs: nat := 60 * SecondUs
  const HourUs: nat := 60 * MinuteUs
  const DayUs: nat := 24 * HourUs

  /** `datetime.weekday()`: Monday is 0, Sunday is 6. */
  function Weekday(t: nat): (d: nat)
    ensures d < 7
  {
    (t / DayUs) % 7
  }

  /** `datetime.hour`. */
  function Hour(t: nat): (h: nat)
    ensures h < 24
  {
    (t % DayUs) / HourUs
  }

  /** Midnight of the day of `t`. */
  function Midnight(t: nat): (m: nat)
    ensures m <= t < m + DayUs && m % DayUs == 0
  {
    t - t % DayUs
  }

  // ---------------------------------------------------------------------------
  // get_time_to_wait

  /** The weekday `k` days after `weekday`. */
  function DayAfter(weekday: nat, k: nat): nat {
    (weekday + k) % 7
  }

  /**
    * `days_to_wait`: one day, three from a Friday and two from a Saturday,
    * which is always the distance to the next weekday.
    */
  function DaysToWait(weekday: nat): (d: nat)
    requires weekday < 7
    ensures 1 <= d <= 3
    ensures DayAfter(weekday, d) < 5
    ensures forall k :: 1 <= k < d ==> DayAfter(weekday, k) >= 5
  {
    if weekday == 4 then 3 else if weekday == 5 then 2 else 1
  }

  /**
    * The wait from `t` to `hour`:00:00.000000 on the day `DaysToWait` ahead:
    * `today.replace(hour=hour, minute=0, second=0, microsecond=0) +
    * timedelta(days=days_to_wait) - today`, in microseconds.
    */
  function WaitUntil(t: nat, hour: nat): int
    requires hour < 24
  {
    Midnight(t) + hour * HourUs + DaysToWait(Weekday(t)) * DayUs - t
  }

  /**
    * `get_time_to_wait(hours)`: only `hours[0]` is used. An empty list raises
    * an IndexError and an hour outside 0..23 the ValueError of `replace`.
    */
  function TimeToWait(t: nat, hours: seq<int>): (r: Result<int>)
    ensures r.Ok? <==> hours != [] && 0 <= hours[0] <= 23
    ensures r.Ok? ==> r.value == WaitUntil(t, hours[0])
  {
    if hours == [] then Err("IndexError: list index out of range")
    else if !(0 <= hours[0] <= 23) then Err("ValueError: hour must be in 0..23")
    else Ok(WaitUntil(t, hours[0]))
  }

  /** `HoroscopeDiscordBot.get_time_to_wait`, with `days_to_wait` raised step by step. */
  method GetTimeToWait(t: nat, hours: seq<int>) returns (r: Result<int>)
    ensures r == TimeToWait(t, hours)
  {
    if hours == [] {
      return Err("IndexError: list index out of range");
    }
    if !(0 <= hours[0] <= 23) {
      return Err("ValueError: hour must be in 0..23");
    }
    var daysToWait := 1;
    if Weekday(t) == 4 {
      daysToWait := daysToWait + 2;
    }
    if Weekday(t) == 5 {
      daysToWait := daysToWait + 1;
    }
    var nextDay := Midnight(t) + hours[0] * HourUs + daysToWait * DayUs;
    r := Ok(nextDay - t);
  }

  /** The wait is positive and shorter than four days. */
  lemma WaitBounds(t: nat, hour: nat)
    requires hour < 24
    ensures 0 < WaitUntil(t, hour) < 4 * DayUs
  {
    var d := DaysToWait(Weekday(t));
    assert t - Midnight(t) < DayUs;
    assert hour * HourUs <= 23 * HourUs;
    assert DayUs <= d * DayUs <= 3 * DayUs;
  }

  /**
    * The wait ends on the next weekday, never a Saturday or a Sunday, at
    * `hour`:00:00 exactly.
    */
  lemma WaitEndsOnNextWeekday(t: nat, hour: nat)
    requires hour < 24
    ensures var a := t + WaitUntil(t, hour);
      a >= 0 &&
      a / DayUs == t / DayUs + DaysToWait(Weekday(t)) &&
      Weekday(a) < 5 && Hour(a) == hour && a % HourUs == 0
  {
    var d := DaysToWait(Weekday(t));
    var day := t / DayUs;
    assert Midnight(t) == day * DayUs;
    var a := t + WaitUntil(t, hour);
    var off := hour * HourUs;
    assert off < DayUs;
    assert a == (day + d) * DayUs + off;
    DivMod(a, DayUs, day + d, off);
    DivMod(off, HourUs, hour, 0);
    DivMod(a, HourUs, (day + d) * 24 + hour, 0);
    AddMod7(day, d);
  }

  lemma AddMod7(day: nat, d: nat)
    ensures (day + d) % 7 == (day % 7 + d) % 7
  {
  }

  // ---------------------------------------------------------------------------
  // The job's configuration

  predicate AllIn(xs: seq<int>, lo: int, hi: int) {
    forall i :: 0 <= i < |xs| ==> lo <= xs[i] <= hi
  }

  /**
    * The asserts of `job` on `days` and `hours`, in their order; `max` of an
    * empty list raises before any of them.
    */
  function CheckConfig(days: seq<int>, hours: seq<int>): (r: Result<()>)
    ensures r.Ok? <==> days != [] && hours != [] && AllIn(days, 0, 6) && AllIn(hours, 0, 23)
  {
    if days == [] then Err("ValueError: max() arg is an empty sequence")
    else if !AllIn(days, 0, 6) then Err("Need number between 0 and 6")
    else if hours == [] then Err("ValueError: max() arg is an empty sequence")
    else if !AllIn(hours, 0, 23) then Err("Need number between 0 and 23")
    else Ok(())
  }

  /**
    * What the job needs besides the clock: `fetch_interval` in seconds, the
    * polling days and hours, what `fetch_new_horoscope` does when called at a
    * given moment (whether it found the horoscope, or the exception it
    * raised), and whether the client is closed at a moment.
    */
  datatype Settings = Settings(
    interval: nat,
    days: seq<int>,
    hours: seq<int>,
    fetch: nat -> Result<bool>,
    closed: nat -> bool)

  predicate Valid(s: Settings) {
    CheckConfig(s.days, s.hours).Ok?
  }

  /** Inside the polling window: a polling day and a polling hour. */
  predicate InWindow(t: nat, days: seq<int>, hours: seq<int>) {
    Weekday(t) in days && Hour(t) in hours
  }

  /**
    * What the job does: a fetch at a moment, with its outcome, the long sleep
    * from a moment, or a fetch that raised. The job runs as a bare task with
    * no `try` around the fetch, so an exception ends it for good.
    */
  datatype Event = Fetch(at: nat, found: bool) | Rest(at: nat, wait: nat) | Fault(at: nat, error: string)

  /**
    * Which moment the inner loop of a round tests against the window. `Stale`
    * is `bot.py` as written: `today` is read once when the round starts, so
    * the window test never changes during the round. `Live` is the corrected
    * job, which re-reads the clock before every fetch.
    */
  datatype Clock = Stale | Live

  /** The moment the window is tested at, for a round started at `today` and a clock now at `t`. */
  function Probe(clock: Clock, today: nat, t: nat): nat {
    if clock == Live then t else today
  }

  /** The inner loop's window condition. */
  predicate Polling(s: Settings, clock: Clock, today: nat, t: nat) {
    InWindow(Probe(clock, today, t), s.days, s.hours)
  }

  /** The inner loop goes on: the window test holds and the fetch finds nothing. */
  predicate Retries(s: Settings, clock: Clock, today: nat, t: nat) {
    Polling(s, clock, today, t) && s.fetch(t) == Ok(false)
  }

  /** The window test holds and the fetch raises. */
  predicate Raises(s: Settings, clock: Clock, today: nat, t: nat) {
    Polling(s, clock, today, t) && s.fetch(t).Err?
  }

  /** The inner loop ends normally: the window test fails, or the fetch finds the horoscope. */
  predicate Settles(s: Settings, clock: Clock, today: nat, t: nat) {
    !Polling(s, clock, today, t) || s.fetch(t) == Ok(true)
  }

  /** A fetch either raises, finds nothing or finds the horoscope, so the three cases cover every moment. */
  lemma SettlesOtherwise(s: Settings, clock: Clock, today: nat, t: nat)
    requires !Raises(s, clock, today, t) && !Retries(s, clock, today, t)
    ensures Settles(s, clock, today, t)
  {
    if Polling(s, clock, today, t) {
      match s.fetch(t)
      case Ok(found) => assert found;
      case Err(_) =>
    }
  }

  // ---------------------------------------------------------------------------
  // The job, as a specification

  /**
    * The job from `t`, for at most `fuel` rounds and failed fetches: stops when
    * the client is closed, otherwise starts a round at `t`.
    */
  function Run(s: Settings, t: nat, fuel: nat, clock: Clock): seq<Event>
    requires Valid(s)
    decreases fuel, 0
  {
    if fuel == 0 || s.closed(t) then [] else Poll(s, t, t, fuel - 1, clock)
  }

  /**
    * The round started at `today`, with the clock now at `t`: while the window
    * test holds and the fetch finds nothing, sleep `interval` seconds and try
    * again; a fetch that raises ends the job; after a successful fetch, or
    * once the test fails, sleep until the next weekday's first hour.
    */
  function Poll(s: Settings, today: nat, t: nat, fuel: nat, clock: Clock): seq<Event>
    requires Valid(s)
    decreases fuel, 1
  {
    if Raises(s, clock, today, t) then [Fault(t, s.fetch(t).error)]
    else if Retries(s, clock, today, t) then
      if fuel == 0 then [Fetch(t, false)]
      else [Fetch(t, false)] + Poll(s, today, t + s.interval * SecondUs, fuel - 1, clock)
    else
      var found := if Polling(s, clock, today, t) then [Fetch(t, true)] else [];
      var w := WaitUntil(t, s.hours[0]);
      WaitBounds(t, s.hours[0]);
      found + [Rest(t, w)] + Run(s, t + w, fuel, clock)
  }

  /** The events that end a round at `t`: the successful fetch if the window test held, and the long sleep. */
  function Settle(s: Settings, clock: Clock, today: nat, t: nat): seq<Event>
    requires Valid(s)
  {
    WaitBounds(t, s.hours[0]);
    var w := WaitUntil(t, s.hours[0]);
    if Polling(s, clock, today, t) then [Fetch(t, true), Rest(t, w)] else [Rest(t, w)]
  }

  // ---------------------------------------------------------------------------
  // The job as written

  /**
    * `HoroscopeDiscordBot.job`: checks the configuration, then alternates
    * polling rounds and long sleeps until the client is closed or a fetch
    * raises. Every event is recorded; `fuel` bounds the number of rounds and
    * failed fetches.
    */
  method Job(s: Settings, start: nat, fuel: nat) returns (r: Result<seq<Event>>)
    ensures CheckConfig(s.days, s.hours).Err? ==> r == Err(CheckConfig(s.days, s.hours).error)
    ensures Valid(s) ==> r == Ok(Run(s, start, fuel, Stale))
  {
    var check := CheckConfig(s.days, s.hours);
    if check.Err? {
      return Err(check.error);
    }
    var events: seq<Event> := [];
    var t: nat := start;
    var n: nat := fuel;
    while n > 0 && !s.closed(t)
      invariant events + Run(s, t, n, Stale) == Run(s, start, fuel, Stale)
      decreases n
    {
      RunRound(s, t, n, Stale);
      var round, t', n', stopped := PollRound(s, t, n - 1);
      if stopped {
        assert round + [] == round;
        return Ok(events + round);
      }
      AppendAssoc(events, round, Run(s, t', n', Stale));
      events, t, n := events + round, t', n';
    }
    assert events + [] == events;
    return Ok(events);
  }

  /**
    * One round of `job` from `t` with `n` failed fetches left: `today` is read
    * once, the inner loop fetches while `today` is in the window and the fetch
    * finds nothing, then the long sleep. Returns the events of the round and
    * where the next round starts, unless the job stopped during the round: a
    * fetch raised, or the failed fetches ran out.
    */
  method PollRound(s: Settings, t: nat, n: nat) returns (round: seq<Event>, t': nat, n': nat, stopped: bool)
    requires Valid(s)
    ensures stopped ==> round == Poll(s, t, t, n, Stale)
    ensures !stopped ==> n' <= n && round + Run(s, t', n', Stale) == Poll(s, t, t, n, Stale)
  {
    var today := t;
    round, t', n' := [], t, n;
    while InWindow(today, s.days, s.hours) && s.fetch(t') == Ok(false)
      invariant n' <= n
      invariant round + Poll(s, today, t', n', Stale) == Poll(s, t, t, n, Stale)
      decreases n'
    {
      RetryStep(s, Stale, today, t', n', round, Poll(s, t, t, n, Stale));
      round := round + [Fetch(t', false)];
      if n' == 0 {
        return round, t', n', true;
      }
      n' := n' - 1;
      t' := t' + s.interval * SecondUs;
    }
    if InWindow(today, s.days, s.hours) && s.fetch(t').Err? {
      assert Poll(s, today, t', n', Stale) == [Fault(t', s.fetch(t').error)];
      return round + [Fault(t', s.fetch(t').error)], t', n', true;
    }
    SettlesOtherwise(s, Stale, today, t');
    var wait := GetTimeToWait(t', s.hours);
    SettleStep(s, Stale, today, t', n', round, Poll(s, t, t, n, Stale));
    var settled := if InWindow(today, s.days, s.hours) then [Fetch(t', true), Rest(t', wait.value)] else [Rest(t', wait.value)];
    round, t', stopped := round + settled, t' + wait.value, false;
  }

  /** A failed fetch extends the round; with no fetch left the round is complete. */
  lemma RetryStep(s: Settings, clock: Clock, today: nat, t: nat, n: nat, round: seq<Event>, whole: seq<Event>)
    requires Valid(s) && Retries(s, clock, today, t)
    requires round + Poll(s, today, t, n, clock) == whole
    ensures n == 0 ==> round + [Fetch(t, false)] == whole
    ensures n > 0 ==> (round + [Fetch(t, false)]) + Poll(s, today, t + s.interval * SecondUs, n - 1, clock) == whole
  {
    PollRetry(s, clock, today, t, n);
    if n == 0 {
      assert [Fetch(t, false)] + [] == [Fetch(t, false)];
    } else {
      AppendAssoc(round, [Fetch(t, false)], Poll(s, today, t + s.interval * SecondUs, n - 1, clock));
    }
  }

  /** The long sleep ends the round, and the rest of the job starts after it. */
  lemma SettleStep(s: Settings, clock: Clock, today: nat, t: nat, n: nat, round: seq<Event>, whole: seq<Event>)
    requires Valid(s) && Settles(s, clock, today, t)
    requires round + Poll(s, today, t, n, clock) == whole
    ensures TimeToWait(t, s.hours) == Ok(WaitUntil(t, s.hours[0]))
    ensures WaitUntil(t, s.hours[0]) > 0
    ensures var w := WaitUntil(t, s.hours[0]);
      (round + (if Polling(s, clock, today, t) then [Fetch(t, true), Rest(t, w)] else [Rest(t, w)]))
      + Run(s, t + w, n, clock) == whole
  {
    PollSettles(s, clock, today, t, n);
    var w := WaitUntil(t, s.hours[0]);
    AppendAssoc(round, Settle(s, clock, today, t), Run(s, t + w, n, clock));
  }

  lemma AppendAssoc<T>(a: seq<T>, b: seq<T>, c: seq<T>)
    ensures a + (b + c) == (a + b) + c
  {
  }

  /** A round starts when the client is still open. */
  lemma RunRound(s: Settings, t: nat, n: nat, clock: Clock)
    requires Valid(s) && n > 0 && !s.closed(t)
    ensures Run(s, t, n, clock) == Poll(s, t, t, n - 1, clock)
  {
  }

  /** A failed fetch is recorded, and polling goes on after the interval or ends. */
  lemma PollRetry(s: Settings, clock: Clock, today: nat, t: nat, n: nat)
    requires Valid(s) && Retries(s, clock, today, t)
    ensures Poll(s, today, t, n, clock)
      == [Fetch(t, false)] + (if n == 0 then [] else Poll(s, today, t + s.interval * SecondUs, n - 1, clock))
  {
  }

  /** A successful fetch, or a failed window test, ends the round with the long sleep. */
  lemma PollSettles(s: Settings, clock: Clock, today: nat, t: nat, n: nat)
    requires Valid(s) && Settles(s, clock, today, t)
    ensures TimeToWait(t, s.hours) == Ok(WaitUntil(t, s.hours[0]))
    ensures WaitUntil(t, s.hours[0]) > 0
    ensures Poll(s, today, t, n, clock) == Settle(s, clock, today, t) + Run(s, t + WaitUntil(t, s.hours[0]), n, clock)
  {
    PollEnd(s, clock, today, t, n);
    var w := WaitUntil(t, s.hours[0]);
    var found := if Polling(s, clock, today, t) then [Fetch(t, true)] else [];
    AppendAssoc(found, [Rest(t, w)], Run(s, t + w, n, clock));
    assert found + [Rest(t, w)] == Settle(s, clock, today, t);
  }

  /** How a round ends once the window test fails or a fetch succeeds. */
  lemma PollEnd(s: Settings, clock: Clock, today: nat, t: nat, fuel: nat)
    requires Valid(s) && Settles(s, clock, today, t)
    ensures 0 < WaitUntil(t, s.hours[0])
    ensures var w := WaitUntil(t, s.hours[0]);
      Poll(s, today, t, fuel, clock) ==
        (if Polling(s, clock, today, t) then [Fetch(t, true)] else []) + ([Rest(t, w)] + Run(s, t + w, fuel, clock))
  {
    WaitBounds(t, s.hours[0]);
  }

  // ---------------------------------------------------------------------------
  // What the job keeps to, with either clock

  /**
    * What follows each event: a failed fetch is followed by the next event
    * `interval` seconds later, a successful one by the long sleep at once, the
    * long sleep by the next event at its end, and a fetch that raised by
    * nothing.
    */
  predicate Paced(s: Settings, ev: seq<Event>) {
    forall k :: 0 <= k < |ev| - 1 ==> Follows(s, ev[k], ev[k + 1])
  }

  /** The pace between one event and the next. */
  predicate Follows(s: Settings, e: Event, next: Event) {
    (e.Fetch? && !e.found ==> next.at == e.at + s.interval * SecondUs) &&
    (e.Fetch? && e.found ==> next.Rest? && next.at == e.at) &&
    (e.Rest? ==> next.at == e.at + e.wait) &&
    !e.Fault?
  }

  /**
    * A long sleep from `at` lasting `wait`: shorter than four days, and ending
    * on the day `DaysToWait` ahead, a weekday, at `hours[0]`:00:00 exactly.
    */
  predicate RestEndsRight(s: Settings, at: nat, wait: nat)
    requires Valid(s)
  {
    0 < wait < 4 * DayUs &&
    (at + wait) / DayUs == at / DayUs + DaysToWait(Weekday(at)) &&
    Weekday(at + wait) < 5 && Hour(at + wait) == s.hours[0] && (at + wait) % HourUs == 0
  }

  /** Every long sleep of the events ends where `get_time_to_wait` promises. */
  predicate RestsEndRight(s: Settings, ev: seq<Event>)
    requires Valid(s)
  {
    forall e :: e in ev && e.Rest? ==> RestEndsRight(s, e.at, e.wait)
  }

  /** The sleep the job takes from `t` ends where `get_time_to_wait` promises. */
  lemma WaitEndsRight(s: Settings, t: nat)
    requires Valid(s)
    ensures WaitUntil(t, s.hours[0]) > 0
    ensures RestEndsRight(s, t, WaitUntil(t, s.hours[0]))
  {
    WaitBounds(t, s.hours[0]);
    WaitEndsOnNextWeekday(t, s.hours[0]);
  }

  /** The first event of the job is at its start, whichever clock the rounds test. */
  lemma RunStartsAt(s: Settings, t: nat, fuel: nat, clock: Clock)
    requires Valid(s)
    ensures Run(s, t, fuel, clock) != [] ==> Run(s, t, fuel, clock)[0].at == t
  {
    if fuel > 0 && !s.closed(t) {
      PollStartsAt(s, t, t, fuel - 1, clock);
    }
  }

  /** A polling round starts with an event at the current moment. */
  lemma PollStartsAt(s: Settings, today: nat, t: nat, fuel: nat, clock: Clock)
    requires Valid(s)
    ensures Poll(s, today, t, fuel, clock) != [] && Poll(s, today, t, fuel, clock)[0].at == t
  {
  }

  lemma PacedPrepend(s: Settings, e: Event, ev: seq<Event>)
    requires Paced(s, ev)
    requires ev != [] ==> Follows(s, e, ev[0])
    ensures Paced(s, [e] + ev)
  {
    var r := [e] + ev;
    forall k | 0 <= k < |r| - 1
      ensures Follows(s, r[k], r[k + 1])
    {
      if k > 0 {
        assert r[k] == ev[k - 1] && r[k + 1] == ev[k];
      }
    }
  }

  /** The job keeps its pace, whichever clock the rounds test. */
  lemma {:induction false} RunIsPaced(s: Settings, t: nat, fuel: nat, clock: Clock)
    requires Valid(s)
    ensures Paced(s, Run(s, t, fuel, clock))
    decreases fuel, 0
  {
    if fuel > 0 && !s.closed(t) {
      PollIsPaced(s, t, t, fuel - 1, clock);
    }
  }

  lemma {:induction false} PollIsPaced(s: Settings, today: nat, t: nat, fuel: nat, clock: Clock)
    requires Valid(s)
    ensures Paced(s, Poll(s, today, t, fuel, clock))
    decreases fuel, 2
  {
    if Raises(s, clock, today, t) {
    } else if Retries(s, clock, today, t) {
      if fuel > 0 {
        var t' := t + s.interval * SecondUs;
        PollIsPaced(s, today, t', fuel - 1, clock);
        PollStartsAt(s, today, t', fuel - 1, clock);
        PacedPrepend(s, Fetch(t, false), Poll(s, today, t', fuel - 1, clock));
      }
    } else {
      SettlesOtherwise(s, clock, today, t);
      RoundEndIsPaced(s, today, t, fuel, clock);
    }
  }

  /** The end of a round: the successful fetch if any, the long sleep, then the next round. */
  lemma {:induction false} RoundEndIsPaced(s: Settings, today: nat, t: nat, fuel: nat, clock: Clock)
    requires Valid(s) && Settles(s, clock, today, t)
    ensures Paced(s, Poll(s, today, t, fuel, clock))
    decreases fuel, 1
  {
    var w := WaitUntil(t, s.hours[0]);
    PollEnd(s, clock, today, t, fuel);
    RunIsPaced(s, t + w, fuel, clock);
    RunStartsAt(s, t + w, fuel, clock);
    var tail := [Rest(t, w)] + Run(s, t + w, fuel, clock);
    PacedPrepend(s, Rest(t, w), Run(s, t + w, fuel, clock));
    if Polling(s, clock, today, t) {
      PacedPrepend(s, Fetch(t, true), tail);
    } else {
      assert Poll(s, today, t, fuel, clock) == tail;
    }
  }

  /** A fetch that raises is the job's last event, whichever clock the rounds test. */
  lemma FaultEndsJob(s: Settings, t: nat, fuel: nat, clock: Clock)
    requires Valid(s)
    ensures var ev := Run(s, t, fuel, clock);
      forall k :: 0 <= k < |ev| && ev[k].Fault? ==> k == |ev| - 1
  {
    var ev := Run(s, t, fuel, clock);
    RunIsPaced(s, t, fuel, clock);
    forall k | 0 <= k < |ev| - 1
      ensures !ev[k].Fault?
    {
      assert Follows(s, ev[k], ev[k + 1]);
    }
  }

  /** Every long sleep of the job ends where `get_time_to_wait` promises, whichever clock the rounds test. */
  lemma {:induction false} RunRestsEndRight(s: Settings, t: nat, fuel: nat, clock: Clock)
    requires Valid(s)
    ensures RestsEndRight(s, Run(s, t, fuel, clock))
    decreases fuel, 0
  {
    if fuel > 0 && !s.closed(t) {
      PollRestsEndRight(s, t, t, fuel - 1, clock);
    }
  }

  lemma {:induction false} PollRestsEndRight(s: Settings, today: nat, t: nat, fuel: nat, clock: Clock)
    requires Valid(s)
    ensures RestsEndRight(s, Poll(s, today, t, fuel, clock))
    decreases fuel, 2
  {
    if Raises(s, clock, today, t) {
    } else if Retries(s, clock, today, t) {
      RetryRestsEndRight(s, today, t, fuel, clock);
    } else {
      SettlesOtherwise(s, clock, today, t);
      SettledRestsEndRight(s, today, t, fuel, clock);
    }
  }

  lemma {:induction false} RetryRestsEndRight(s: Settings, today: nat, t: nat, fuel: nat, clock: Clock)
    requires Valid(s) && Retries(s, clock, today, t)
    ensures RestsEndRight(s, Poll(s, today, t, fuel, clock))
    decreases fuel, 1
  {
    PollRetry(s, clock, today, t, fuel);
    if fuel > 0 {
      PollRestsEndRight(s, today, t + s.interval * SecondUs, fuel - 1, clock);
      RestsEndRightAppend(s, [Fetch(t, false)], Poll(s, today, t + s.interval * SecondUs, fuel - 1, clock));
    }
  }

  lemma {:induction false} SettledRestsEndRight(s: Settings, today: nat, t: nat, fuel: nat, clock: Clock)
    requires Valid(s) && Settles(s, clock, today, t)
    ensures RestsEndRight(s, Poll(s, today, t, fuel, clock))
    decreases fuel, 1
  {
    var w := WaitUntil(t, s.hours[0]);
    PollSettles(s, clock, today, t, fuel);
    SettleEndsRight(s, clock, today, t);
    RunRestsEndRight(s, t + w, fuel, clock);
    RestsEndRightAppend(s, Settle(s, clock, today, t), Run(s, t + w, fuel, clock));
  }

  lemma SettleEndsRight(s: Settings, clock: Clock, today: nat, t: nat)
    requires Valid(s)
    ensures RestsEndRight(s, Settle(s, clock, today, t))
  {
    WaitEndsRight(s, t);
  }

  lemma RestsEndRightAppend(s: Settings, a: seq<Event>, b: seq<Event>)
    requires Valid(s) && RestsEndRight(s, a) && RestsEndRight(s, b)
    ensures RestsEndRight(s, a + b)
  {
  }

  /**
    * Each fetch of the events is recorded with what `fetch_new_horoscope` did
    * at that moment: its result, or the exception it raised.
    */
  predicate Recorded(s: Settings, ev: seq<Event>) {
    forall e :: e in ev ==>
      (e.Fetch? ==> s.fetch(e.at) == Ok(e.found)) &&
      (e.Fault? ==> s.fetch(e.at) == Err(e.error))
  }

  /** The job records every fetch faithfully, whichever clock the rounds test. */
  lemma {:induction false} RunRecordsFetches(s: Settings, t: nat, fuel: nat, clock: Clock)
    requires Valid(s)
    ensures Recorded(s, Run(s, t, fuel, clock))
    decreases fuel, 0
  {
    if fuel > 0 && !s.closed(t) {
      PollRecordsFetches(s, t, t, fuel - 1, clock);
    }
  }

  lemma {:induction false} PollRecordsFetches(s: Settings, today: nat, t: nat, fuel: nat, clock: Clock)
    requires Valid(s)
    ensures Recorded(s, Poll(s, today, t, fuel, clock))
    decreases fuel, 2
  {
    if Raises(s, clock, today, t) {
    } else if Retries(s, clock, today, t) {
      RetryRecordsFetches(s, today, t, fuel, clock);
    } else {
      SettlesOtherwise(s, clock, today, t);
      SettledRecordsFetches(s, today, t, fuel, clock);
    }
  }

  lemma {:induction false} RetryRecordsFetches(s: Settings, today: nat, t: nat, fuel: nat, clock: Clock)
    requires Valid(s) && Retries(s, clock, today, t)
    ensures Recorded(s, Poll(s, today, t, fuel, clock))
    decreases fuel, 1
  {
    PollRetry(s, clock, today, t, fuel);
    if fuel > 0 {
      PollRecordsFetches(s, today, t + s.interval * SecondUs, fuel - 1, clock);
      RecordedAppend(s, [Fetch(t, false)], Poll(s, today, t + s.interval * SecondUs, fuel - 1, clock));
    }
  }

  lemma {:induction false} SettledRecordsFetches(s: Settings, today: nat, t: nat, fuel: nat, clock: Clock)
    requires Valid(s) && Settles(s, clock, today, t)
    ensures Recorded(s, Poll(s, today, t, fuel, clock))
    decreases fuel, 1
  {
    var w := WaitUntil(t, s.hours[0]);
    PollSettles(s, clock, today, t, fuel);
    RunRecordsFetches(s, t + w, fuel, clock);
    RecordedAppend(s, Settle(s, clock, today, t), Run(s, t + w, fuel, clock));
  }

  lemma RecordedAppend(s: Settings, a: seq<Event>, b: seq<Event>)
    requires Recorded(s, a) && Recorded(s, b)
    ensures Recorded(s, a + b)
  {
  }

  // ---------------------------------------------------------------------------
  // The corrected job

  /** Every fetch of the events, the ones that raised included, happens in the window. */
  predicate FetchesInWindow(s: Settings, ev: seq<Event>) {
    forall e :: e in ev && !e.Rest? ==> InWindow(e.at, s.days, s.hours)
  }

  /** With the clock re-read before every fetch, the job fetches only inside the window. */
  lemma {:induction false} PollsOnlyInWindow(s: Settings, t: nat, fuel: nat)
    requires Valid(s)
    ensures FetchesInWindow(s, Run(s, t, fuel, Live))
    decreases fuel, 0
  {
    if fuel > 0 && !s.closed(t) {
      PollOnlyInWindow(s, t, t, fuel - 1);
    }
  }

  lemma {:induction false} PollOnlyInWindow(s: Settings, today: nat, t: nat, fuel: nat)
    requires Valid(s)
    ensures FetchesInWindow(s, Poll(s, today, t, fuel, Live))
    decreases fuel, 1
  {
    if Raises(s, Live, today, t) {
    } else if Retries(s, Live, today, t) {
      if fuel > 0 {
        PollOnlyInWindow(s, today, t + s.interval * SecondUs, fuel - 1);
      }
    } else {
      SettlesOtherwise(s, Live, today, t);
      var w := WaitUntil(t, s.hours[0]);
      PollEnd(s, Live, today, t, fuel);
      PollsOnlyInWindow(s, t + w, fuel);
    }
  }

  /** The default job: every 300 seconds, Monday to Friday, from 9:00 to 12:59. */
  function DefaultSettings(fetch: nat -> Result<bool>, closed: nat -> bool): (s: Settings)
    ensures Valid(s)
  {
    Settings(300, [0, 1, 2, 3, 4], [9, 10, 11, 12], fetch, closed)
  }

  /**
    * On a Friday at 12:59, with no horoscope published, the job as written
    * fetches again at 13:04, outside the window, where the corrected job goes
    * to sleep until Monday.
    */
  lemma StaleWindowPollsAfterHours()
    ensures var s := DefaultSettings(_ => Ok(false), _ => false);
      var start := 4 * DayUs + 12 * HourUs + 59 * MinuteUs;
      var next := start + 300 * SecondUs;
      !InWindow(next, s.days, s.hours) &&
      Run(s, start, 3, Stale)[1] == Fetch(next, false) &&
      Run(s, start, 3, Live)[1] == Rest(next, WaitUntil(next, 9))
  {
    var s := DefaultSettings(_ => Ok(false), _ => false);
    var start := 4 * DayUs + 12 * HourUs + 59 * MinuteUs;
    var next := start + 300 * SecondUs;
    assert Weekday(start) == 4 && Hour(start) == 12;
    assert Weekday(next) == 4 && Hour(next) == 13;
    assert InWindow(start, s.days, s.hours);
    assert !InWindow(next, s.days, s.hours);
    assert Run(s, start, 3, Stale) == [Fetch(start, false)] + Poll(s, start, next, 1, Stale);
    assert Poll(s, start, next, 1, Stale) == [Fetch(next, false)] + Poll(s, start, next + 300 * SecondUs, 0, Stale);
    assert Run(s, start, 3, Live) == [Fetch(start, false)] + Poll(s, start, next, 1, Live);
  }
}
