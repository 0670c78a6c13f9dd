/**
 * UTC calendar components and the two moment format strings the eraser
 * renders them with: 'YYYY-MM-DD' in the listing filter and
 * 'YYYYMMDDTHH:mm:ss' in archive keys. Each format has a decoder, and the
 * round-trip lemmas show that the text carries every component unchanged.
 */
module UtcFormat {

  import opened Wrappers
  import opened Decimal

  /** A UTC calendar day, month counted from 1 (moment's 'M' token). */
  datatype UtcDate = UtcDate(year: nat, month: nat, day: nat)

  /** A UTC instant to the second, as moment's utc() getters report it. */
  datatype UtcTime = UtcTime(year: nat, month: nat, day: nat, hour: nat, minute: nat, second: nat)

  /** Components that fit their format widths: a four-digit year, two digits for the rest. */
  predicate DateFits(d: UtcDate) {
    d.year < 10000 && d.month < 100 && d.day < 100
  }

  predicate TimeFits(t: UtcTime) {
    t.year < 10000 && t.month < 100 && t.day < 100 && t.hour < 100 && t.minute < 100 && t.second < 100
  }

  /** 'YYYY-MM-DD'. */
  function DateText(d: UtcDate): string {
    ZeroFill(d.year, 4) + "-" + ZeroFill(d.month, 2) + "-" + ZeroFill(d.day, 2)
  }

  function DecodeDate(s: string): Option<UtcDate> {
    if |s| == 10 && s[4] == '-' && s[7] == '-'
       && AllDigits(s[..4]) && AllDigits(s[5..7]) && AllDigits(s[8..])
    then Some(UtcDate(Value(s[..4]), Value(s[5..7]), Value(s[8..])))
    else None
  }

  /** The filter date is ten characters and decodes back to the same day. */
  lemma DateTextRoundTrip(d: UtcDate)
    requires DateFits(d)
    ensures |DateText(d)| == 10
    ensures DecodeDate(DateText(d)) == Some(d)
  {
    ZeroFillWidth(d.year, 4);
    ZeroFillWidth(d.month, 2);
    ZeroFillWidth(d.day, 2);
    var y, m, dd := ZeroFill(d.year, 4), ZeroFill(d.month, 2), ZeroFill(d.day, 2);
    var s := DateText(d);
    assert s[..4] == y;
    assert s[5..7] == m;
    assert s[8..] == dd;
  }

  /** 'YYYYMMDDTHH:mm:ss'. */
  function Stamp(t: UtcTime): string {
    CompactDate(t) + "T" + Clock(t)
  }

  /** 'YYYYMMDD'. */
  function CompactDate(t: UtcTime): string {
    ZeroFill(t.year, 4) + ZeroFill(t.month, 2) + ZeroFill(t.day, 2)
  }

  /** 'HH:mm:ss'. */
  function Clock(t: UtcTime): string {
    ZeroFill(t.hour, 2) + ":" + ZeroFill(t.minute, 2) + ":" + ZeroFill(t.second, 2)
  }

  function DecodeStamp(s: string): Option<UtcTime> {
    if |s| == 17 && s[8] == 'T' then
      match (DecodeCompactDate(s[..8]), DecodeClock(s[9..]))
      case (Some(d), Some(c)) => Some(UtcTime(d.year, d.month, d.day, c.0, c.1, c.2))
      case _ => None
    else None
  }

  function DecodeCompactDate(s: string): Option<UtcDate> {
    if |s| == 8 && AllDigits(s[..4]) && AllDigits(s[4..6]) && AllDigits(s[6..])
    then Some(UtcDate(Value(s[..4]), Value(s[4..6]), Value(s[6..])))
    else None
  }

  function DecodeClock(s: string): Option<(nat, nat, nat)> {
    if |s| == 8 && s[2] == ':' && s[5] == ':'
       && AllDigits(s[..2]) && AllDigits(s[3..5]) && AllDigits(s[6..])
    then Some((Value(s[..2]), Value(s[3..5]), Value(s[6..])))
    else None
  }

  lemma CompactDateRoundTrip(t: UtcTime)
    requires TimeFits(t)
    ensures |CompactDate(t)| == 8
    ensures DecodeCompactDate(CompactDate(t)) == Some(UtcDate(t.year, t.month, t.day))
  {
    ZeroFillWidth(t.year, 4);
    ZeroFillWidth(t.month, 2);
    ZeroFillWidth(t.day, 2);
    var y, m, d := ZeroFill(t.year, 4), ZeroFill(t.month, 2), ZeroFill(t.day, 2);
    var s := CompactDate(t);
    assert s[..4] == y;
    assert s[4..6] == m;
    assert s[6..] == d;
  }

  lemma ClockRoundTrip(t: UtcTime)
    requires TimeFits(t)
    ensures |Clock(t)| == 8
    ensures DecodeClock(Clock(t)) == Some((t.hour, t.minute, t.second))
  {
    ZeroFillWidth(t.hour, 2);
    ZeroFillWidth(t.minute, 2);
    ZeroFillWidth(t.second, 2);
    var h, m, sec := ZeroFill(t.hour, 2), ZeroFill(t.minute, 2), ZeroFill(t.second, 2);
    var s := Clock(t);
    assert s == h + ":" + m + ":" + sec;
    assert s[..2] == h;
    assert s[3..5] == m;
    assert s[6..] == sec;
  }

  lemma AroundSeparator(a: string, sep: char, b: string)
    ensures (a + [sep] + b)[..|a|] == a
    ensures (a + [sep] + b)[|a|] == sep
    ensures (a + [sep] + b)[|a| + 1..] == b
  {
  }

  /** The timestamp is seventeen characters and decodes back to the same instant. */
  lemma StampRoundTrip(t: UtcTime)
    requires TimeFits(t)
    ensures |Stamp(t)| == 17
    ensures DecodeStamp(Stamp(t)) == Some(t)
  {
    CompactDateRoundTrip(t);
    ClockRoundTrip(t);
    var d, c := CompactDate(t), Clock(t);
    var s := d + "T" + c;
    AroundSeparator(d, 'T', c);
    assert DecodeCompactDate(s[..8]) == Some(UtcDate(t.year, t.month, t.day));
    assert DecodeClock(s[9..]) == Some((t.hour, t.minute, t.second));
    assert Stamp(t) == s;
  }
}
