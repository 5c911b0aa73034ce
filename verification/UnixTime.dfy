/** Conversions between Unix time and calendar fields, in unsigned 32-bit arithmetic. */
module UnixTime {
  import opened Words

  const EPOCH_2000: nat := 946684800
  const LIMIT: nat := 4134067200
  const DAY: nat := 86400
  const CYCLE: nat := 1461

  datatype Time = Time(sec: nat, min: nat, hour: nat, dayOfYear: nat, year: nat)

  /** Leap days of the Gregorian calendar up to the end of a year. */
  function Leaps(year: nat): nat { year / 4 + year / 400 - year / 100 }

  function DaysBefore(year: nat, dayOfYear: nat): int
    requires year >= 1
  {
    (year - 1970) * 365 + (Leaps(year - 1) - Leaps(1969)) + (dayOfYear - 1)
  }

  /** `convertToUnixTime`. */
  function ToUnixTime(t: Time): Word
    requires t.year >= 1
  {
    Wrap(DaysBefore(t.year, t.dayOfYear) * DAY + t.hour * 3600 + t.min * 60 + t.sec)
  }

  /** The first day of each year of the four-year cycle that starts with a leap year. */
  function DaysStart(i: nat): nat {
    if i == 0 then 0 else if i == 1 then 366 else if i == 2 then 731 else 1096
  }

  function SubYear(day: nat): (i: nat)
    ensures i <= 3
  {
    if day >= 1096 then 3 else if day >= 731 then 2 else if day >= 366 then 1 else 0
  }

  function FromUnixTime(unixTime: Word): Time {
    var epoch := Wrap(unixTime - EPOCH_2000);
    var day := epoch / 60 / 60 / 24;
    var rest := day % CYCLE;
    Time(epoch % 60, epoch / 60 % 60, epoch / 60 / 60 % 24, rest - DaysStart(SubYear(rest)) + 1,
      2000 + day / CYCLE * 4 + SubYear(rest))
  }

  /** `convertFromUnixTime`, with its loop over the years of a cycle. */
  method ConvertFromUnixTime(unixTime: Word) returns (t: Time)
    ensures t == FromUnixTime(unixTime)
  {
    hide Wrap;
    var epoch: nat := Wrap(unixTime - EPOCH_2000);
    var sec := epoch % 60;
    epoch := epoch / 60;
    var min := epoch % 60;
    epoch := epoch / 60;
    var hour := epoch % 24;
    epoch := epoch / 24;
    var years := epoch / CYCLE * 4;
    epoch := epoch % CYCLE;
    var subyear := 3;
    while subyear > 0
      invariant subyear <= 3 && SubYear(epoch) <= subyear
    {
      if epoch >= DaysStart(subyear) { break; }
      subyear := subyear - 1;
    }
    t := Time(sec, min, hour, epoch - DaysStart(subyear) + 1, 2000 + years + subyear);
  }

  lemma Decompose(epoch: nat)
    ensures var day := epoch / 60 / 60 / 24;
            epoch == day * DAY + epoch / 60 / 60 % 24 * 3600 + epoch / 60 % 60 * 60 + epoch % 60
  {
    var m := epoch / 60;
    var h := m / 60;
    assert epoch == 60 * m + epoch % 60;
    assert m == 60 * h + m % 60;
    assert h == 24 * (h / 24) + h % 24;
  }

  /** The four-year cycle agrees with the Gregorian count until the year 2100 has been taken for a leap year. */
  lemma CycleAgrees(day: nat)
    requires day <= 50000
    ensures var rest := day % CYCLE;
            DaysBefore(2000 + day / CYCLE * 4 + SubYear(rest), rest - DaysStart(SubYear(rest)) + 1)
            == 10957 + day - (if day >= 36891 then 1 else 0)
  {
    var q, rest := day / CYCLE, day % CYCLE;
    var s := SubYear(rest);
    assert day == CYCLE * q + rest && q <= 34;
    LeapCount(q, s);
    assert (30 + 4 * q + s) * 365 == 10950 + 1460 * q + 365 * s;
    assert 4 * q + s >= 101 <==> day >= 36891;
  }

  lemma LeapCount(q: nat, s: nat)
    requires q <= 34 && s <= 3
    ensures Leaps(2000 + q * 4 + s - 1) - Leaps(1969)
         == 7 + q + (if s >= 1 then 1 else 0) - (if 4 * q + s >= 101 then 1 else 0)
  {
    var y := 1999 + 4 * q + s;
    assert y / 4 == 499 + q + (if s >= 1 then 1 else 0);
    assert y / 100 == if 4 * q + s == 0 then 19 else if 4 * q + s <= 100 then 20 else 21;
    assert y / 400 == if 4 * q + s == 0 then 4 else 5;
  }

  /** Converting back gives the time itself, or exactly one day less. */
  lemma RoundTripValue(unixTime: Word)
    ensures ToUnixTime(FromUnixTime(unixTime))
         == if EPOCH_2000 <= unixTime < LIMIT then unixTime else Wrap(unixTime - DAY)
  {
    var epoch := Wrap(unixTime - EPOCH_2000);
    var day := epoch / 60 / 60 / 24;
    Decompose(epoch);
    CycleAgrees(day);
    var t := FromUnixTime(unixTime);
    var total := DaysBefore(t.year, t.dayOfYear) * DAY + t.hour * 3600 + t.min * 60 + t.sec;
    assert day >= 36891 <==> epoch >= 36891 * DAY;
    assert total == epoch + EPOCH_2000 - (if day >= 36891 then DAY else 0);
    WrapAdd(unixTime - EPOCH_2000, EPOCH_2000);
    WrapAdd(unixTime - EPOCH_2000, EPOCH_2000 - DAY);
    WrapWord(unixTime);
  }

  /** The round trip is exact from the year 2000 until the end of 2100, and at no other time. */
  lemma RoundTripIff(unixTime: Word)
    ensures ToUnixTime(FromUnixTime(unixTime)) == unixTime <==> EPOCH_2000 <= unixTime < LIMIT
  {
    hide ToUnixTime, FromUnixTime;
    RoundTripValue(unixTime);
  }
}
