/**
  * `convert_timedelta` of `rtl2_horoscope/utils.py`: a `datetime.timedelta`
  * split into days, hours, minutes and seconds, the microseconds dropped.
  */
module Utils {
  import opened Numeric

  const MicrosPerSecond: nat := 1000000
  const SecondsPerDay: nat := 86400

  /**
    * A `datetime.timedelta` as Python stores it: whole days (possibly
    * negative), then seconds and microseconds normalised into one day and
    * one second.
    */
  datatype Duration = Duration(days: int, seconds: nat, microseconds: nat)

  /** The normal form every `timedelta` is kept in. */
  predicate Normal(d: Duration) {
    d.seconds < SecondsPerDay && d.microseconds < MicrosPerSecond
  }

  /** The length of a duration in microseconds. */
  function TotalMicroseconds(d: Duration): int {
    (d.days * SecondsPerDay + d.seconds) * MicrosPerSecond + d.microseconds
  }

  /**
    * `timedelta(microseconds=us)`: the normal form of a length in
    * microseconds, negative lengths included.
    */
  function FromMicroseconds(us: int): (d: Duration)
    ensures Normal(d)
    ensures TotalMicroseconds(d) == us
  {
    var perDay := SecondsPerDay * MicrosPerSecond;
    var rest := us % perDay;
    var d := Duration(us / perDay, rest / MicrosPerSecond, rest % MicrosPerSecond);
    assert rest == rest / MicrosPerSecond * MicrosPerSecond + rest % MicrosPerSecond;
    assert us == us / perDay * perDay + rest;
    d
  }

  /**
    * `convert_timedelta`: `(days, hours, minutes, seconds)`, where hours,
    * minutes and seconds are the clock reading of the seconds within the
    * last day.
    */
  function ConvertTimedelta(d: Duration): (r: (int, nat, nat, nat))
    requires Normal(d)
    ensures r.0 == d.days
    ensures r.1 < 24 && r.2 < 60 && r.3 < 60
    ensures r.1 * 3600 + r.2 * 60 + r.3 == d.seconds
  {
    var hours := d.seconds / 3600;
    var minutes := (d.seconds % 3600) / 60;
    var seconds := d.seconds % 60;
    DivMod(d.seconds % 3600, 60, minutes, (d.seconds % 3600) % 60);
    DivMod(d.seconds, 60, hours * 60 + minutes, (d.seconds % 3600) % 60);
    (d.days, hours, minutes, seconds)
  }

  /** The reading is the only one with those bounds that adds back up to the seconds. */
  lemma ConvertTimedeltaUnique(d: Duration, h: nat, m: nat, s: nat)
    requires Normal(d)
    requires m < 60 && s < 60
    requires h * 3600 + m * 60 + s == d.seconds
    ensures ConvertTimedelta(d) == (d.days, h, m, s)
  {
    var r := ConvertTimedelta(d);
    DivMod(d.seconds, 60, h * 60 + m, s);
    DivMod(d.seconds, 60, r.1 * 60 + r.2, r.3);
    DivMod(h * 60 + m, 60, h, m);
    DivMod(r.1 * 60 + r.2, 60, r.1, r.2);
  }

  /** The microseconds play no part in the reading. */
  lemma MicrosecondsIgnored(a: Duration, b: Duration)
    requires Normal(a) && Normal(b)
    requires a.days == b.days && a.seconds == b.seconds
    ensures ConvertTimedelta(a) == ConvertTimedelta(b)
  {
  }

  /**
    * Reading a length given in microseconds adds back up to its whole
    * seconds: days, hours, minutes and seconds lose only the fraction.
    */
  lemma ConvertMicroseconds(us: int)
    ensures var r := ConvertTimedelta(FromMicroseconds(us));
      r.0 * SecondsPerDay + r.1 * 3600 + r.2 * 60 + r.3 == us / MicrosPerSecond
  {
    var d := FromMicroseconds(us);
    var total := d.days * SecondsPerDay + d.seconds;
    assert us == total * MicrosPerSecond + d.microseconds;
  }
}
