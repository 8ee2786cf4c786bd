/** The two display helpers with integral behaviour: shortening an address
    and describing the time left until a maturity date. */
module Format {
  import opened Js
  import Decimal

  /** Characters kept from the start and the end of a shortened address. */
  const HEAD_LENGTH: nat := 6
  const TAIL_LENGTH: nat := 4
  const ELLIPSIS: string := "..."

  /** `shortenAddress`: empty for a missing or empty address; otherwise the
      first six characters, an ellipsis and the last four (`slice(-4)`
      keeps the whole string when it is shorter than four). */
  function ShortenAddress(address: Option<string>): (r: string)
    ensures !Truthy(address) ==> r == ""
    ensures Truthy(address) ==>
              var s := address.value;
              var h := Min(HEAD_LENGTH, |s|);
              var t := Min(TAIL_LENGTH, |s|);
              && |r| == h + |ELLIPSIS| + t
              && r[..h] == s[..h]
              && r[h..h + |ELLIPSIS|] == ELLIPSIS
              && r[h + |ELLIPSIS|..] == s[|s| - t..]
    ensures Truthy(address) && |address.value| >= HEAD_LENGTH ==> |r| == 13
  {
    if !Truthy(address) then ""
    else
      var s := address.value;
      var tailStart := if |s| >= TAIL_LENGTH then |s| - TAIL_LENGTH else 0;
      s[..Min(HEAD_LENGTH, |s|)] + ELLIPSIS + s[tailStart..]
  }

  /** Two addresses of at least six characters shorten alike exactly when
      they share their first six and their last four characters: the
      shortening loses the middle and nothing else. */
  lemma SameShortening(s: string, t: string)
    requires |s| >= HEAD_LENGTH && |t| >= HEAD_LENGTH
    ensures ShortenAddress(Some(s)) == ShortenAddress(Some(t)) <==>
              s[..HEAD_LENGTH] == t[..HEAD_LENGTH] && s[|s| - TAIL_LENGTH..] == t[|t| - TAIL_LENGTH..]
  {
  }

  const SECONDS_PER_DAY: nat := 86400
  const DAYS_PER_YEAR: nat := 365
  const DAYS_PER_MONTH: nat := 30

  /** What `timeRemaining` reports, before it is turned into text. */
  datatype Countdown =
    | NotAvailable
    | Matured
    | YearsDays(years: nat, days: nat)
    | MonthsDays(months: nat, days: nat)
    | Days(days: nat)

  /** Whole days left until `maturity`, rounded down
      (`Math.floor(diff / 86400)` with a positive difference). */
  function DaysLeft(maturity: int, now: int): (d: nat)
    requires maturity > now
    ensures d * SECONDS_PER_DAY <= maturity - now < (d + 1) * SECONDS_PER_DAY
  {
    (maturity - now) / SECONDS_PER_DAY
  }

  /** The countdown to `maturity` (seconds since the epoch) as seen at
      `now`; the current time is a parameter rather than a clock read. */
  function Remaining(maturity: Option<int>, now: int): (c: Countdown)
    ensures maturity.None? <==> c == NotAvailable
    ensures maturity.Some? ==> (c == Matured <==> maturity.value <= now)
    ensures c.YearsDays? ==>
              maturity.Some? && maturity.value > now &&
              var d := DaysLeft(maturity.value, now);
              d > DAYS_PER_YEAR && c.years * DAYS_PER_YEAR + c.days == d && c.days < DAYS_PER_YEAR
    ensures c.MonthsDays? ==>
              maturity.Some? && maturity.value > now &&
              var d := DaysLeft(maturity.value, now);
              DAYS_PER_MONTH < d <= DAYS_PER_YEAR
              && c.months * DAYS_PER_MONTH + c.days == d && c.days < DAYS_PER_MONTH
    ensures c.Days? ==>
              maturity.Some? && maturity.value > now &&
              c.days == DaysLeft(maturity.value, now) && c.days <= DAYS_PER_MONTH
  {
    match maturity
    case None => NotAvailable
    case Some(ts) =>
      if ts - now <= 0 then Matured
      else
        var days := DaysLeft(ts, now);
        if days > DAYS_PER_YEAR then YearsDays(days / DAYS_PER_YEAR, days % DAYS_PER_YEAR)
        else if days > DAYS_PER_MONTH then MonthsDays(days / DAYS_PER_MONTH, days % DAYS_PER_MONTH)
        else Days(days)
  }

  /** The position of the first `c` in `s`, if any. */
  function IndexOf(s: string, c: char): (r: Option<nat>)
    ensures r.Some? ==> r.value < |s| && s[r.value] == c
    ensures r.Some? ==> forall i :: 0 <= i < r.value ==> s[i] != c
    ensures r.None? ==> forall i :: 0 <= i < |s| ==> s[i] != c
  {
    if |s| == 0 then None
    else if s[0] == c then Some(0)
    else match IndexOf(s[1..], c)
      case None => None
      case Some(k) => Some(k + 1)
  }

  /** Reads back a numeral, a one-letter unit, a space and a numeral. */
  function ParsePairBody(body: string, k: nat): Option<Countdown>
    requires k < |body|
  {
    if k == 0 then None
    else
      var count := Decimal.Parse(body[..k - 1]);
      var days := Decimal.Parse(body[k + 1..]);
      if count.None? || days.None? then None
      else if body[k - 1] == 'y' then Some(YearsDays(count.value, days.value))
      else if body[k - 1] == 'm' then Some(MonthsDays(count.value, days.value))
      else None
  }

  /** Reads a countdown's text back. */
  function ParseCountdown(s: string): Option<Countdown> {
    if s == "N/A" then Some(NotAvailable)
    else if s == "Matured" then Some(Matured)
    else if |s| == 0 || s[|s| - 1] != 'd' then None
    else
      var body := s[..|s| - 1];
      match IndexOf(body, ' ')
      case None =>
        (match Decimal.Parse(body)
         case Some(d) => Some(Days(d))
         case None => None)
      case Some(k) => ParsePairBody(body, k)
  }

  lemma NumeralIsNotWord(n: nat, rest: string, word: string)
    requires |word| >= 1 && !Decimal.IsDigit(word[0])
    ensures Decimal.Show(n) + rest != word
  {
  }

  /** The first space of "{a}{unit} {b}" is the one after the unit. */
  lemma FirstSpace(sa: string, unit: char, sb: string)
    requires Decimal.AllDigits(sa) && unit != ' '
    ensures IndexOf(sa + [unit, ' '] + sb, ' ') == Some(|sa| + 1)
  {
    var body := sa + [unit, ' '] + sb;
    var k := |sa| + 1;
    assert body[k] == ' ';
    forall i | 0 <= i < k ensures body[i] != ' ' {
      if i < |sa| { assert body[i] == sa[i] && Decimal.IsDigit(sa[i]); } else { assert body[i] == unit; }
    }
  }

  /** "{a}{unit} {b}d" reads back as the pair it was rendered from. */
  lemma ParsePair(a: nat, unit: char, b: nat)
    requires unit == 'y' || unit == 'm'
    ensures var s := Decimal.Show(a) + [unit, ' '] + Decimal.Show(b) + "d";
            ParseCountdown(s) == Some(if unit == 'y' then YearsDays(a, b) else MonthsDays(a, b))
  {
    var sa, sb := Decimal.Show(a), Decimal.Show(b);
    var s := sa + [unit, ' '] + sb + "d";
    NumeralIsNotWord(a, [unit, ' '] + sb + "d", "N/A");
    NumeralIsNotWord(a, [unit, ' '] + sb + "d", "Matured");
    var body := s[..|s| - 1];
    assert body == sa + [unit, ' '] + sb;
    FirstSpace(sa, unit, sb);
    var k := |sa| + 1;
    assert body[..k - 1] == sa;
    assert body[k - 1] == unit;
    assert body[k + 1..] == sb;
    Decimal.ParseShow(a);
    Decimal.ParseShow(b);
  }

  /** "{d}d" reads back as a number of days. */
  lemma ParseDays(d: nat)
    ensures ParseCountdown(Decimal.Show(d) + "d") == Some(Days(d))
  {
    var s := Decimal.Show(d);
    NumeralIsNotWord(d, "d", "N/A");
    NumeralIsNotWord(d, "d", "Matured");
    assert (s + "d")[..|s|] == s;
    forall i | 0 <= i < |s| ensures s[i] != ' ' { assert Decimal.IsDigit(s[i]); }
    Decimal.ParseShow(d);
  }

  /** The text of a countdown: "N/A", "Matured", "{y}y {d}d", "{m}m {d}d"
      or "{d}d". Every countdown is read back from its text, so distinct
      countdowns render differently. */
  function Render(c: Countdown): (r: string)
    ensures ParseCountdown(r) == Some(c)
  {
    match c
    case NotAvailable => "N/A"
    case Matured => "Matured"
    case YearsDays(y, d) =>
      ParsePair(y, 'y', d);
      Decimal.Show(y) + "y " + Decimal.Show(d) + "d"
    case MonthsDays(m, d) =>
      ParsePair(m, 'm', d);
      Decimal.Show(m) + "m " + Decimal.Show(d) + "d"
    case Days(d) =>
      ParseDays(d);
      Decimal.Show(d) + "d"
  }

  /** Conversely, the only text that reads back as a countdown is that
      countdown's rendering: no other spelling (a leading zero, a second
      space, a different unit) is accepted. */
  lemma ParseOnlyRendered(s: string, c: Countdown)
    requires ParseCountdown(s) == Some(c)
    ensures s == Render(c)
  {
    if s != "N/A" && s != "Matured" {
      var body := s[..|s| - 1];
      assert s == body + "d";
      match IndexOf(body, ' ')
      case None =>
        Decimal.ParseOnlyShown(body, c.days);
      case Some(k) =>
        var count, days := body[..k - 1], body[k + 1..];
        assert body == count + [body[k - 1], ' '] + days;
        Decimal.ParseOnlyShown(count, Decimal.Parse(count).value);
        Decimal.ParseOnlyShown(days, Decimal.Parse(days).value);
    }
  }

  /** `ParseOnlyRendered` for every text at once. */
  lemma RenderedOnly(c: Countdown)
    ensures forall s :: ParseCountdown(s) == Some(c) ==> s == Render(c)
  {
    forall s | ParseCountdown(s) == Some(c) ensures s == Render(c) {
      ParseOnlyRendered(s, c);
    }
  }

  /** `timeRemaining(maturity)` evaluated at time `now`: the text reads
      back as the countdown and no other text does, and it is "Matured"
      exactly when the maturity is not in the future. */
  function TimeRemaining(maturity: Option<int>, now: int): (r: string)
    ensures ParseCountdown(r) == Some(Remaining(maturity, now))
    ensures forall s :: ParseCountdown(s) == Some(Remaining(maturity, now)) ==> s == r
    ensures maturity.None? <==> r == "N/A"
    ensures r == "Matured" <==> maturity.Some? && maturity.value <= now
  {
    var c := Remaining(maturity, now);
    RenderedOnly(c);
    Render(c)
  }

  /** Less than a day left is "0d", not "Matured"; a maturity that has just
      passed is "Matured"; exactly 30 days stays in days. */
  lemma DaysExamples(now: int)
    ensures TimeRemaining(Some(now + SECONDS_PER_DAY - 1), now) == "0d"
    ensures TimeRemaining(Some(now), now) == "Matured"
    ensures TimeRemaining(Some(now + 30 * SECONDS_PER_DAY), now) == "30d"
  {
    assert Decimal.Show(30) == "30";
  }

  /** 400 days is a year and 35 days; 45 days and some seconds is a month
      and 15 days. */
  lemma PairExamples(now: int)
    ensures TimeRemaining(Some(now + 400 * SECONDS_PER_DAY), now) == "1y 35d"
    ensures TimeRemaining(Some(now + 45 * SECONDS_PER_DAY + 7), now) == "1m 15d"
  {
    assert Remaining(Some(now + 400 * SECONDS_PER_DAY), now) == YearsDays(1, 35);
    assert Remaining(Some(now + 45 * SECONDS_PER_DAY + 7), now) == MonthsDays(1, 15);
    assert Decimal.Show(35) == "35";
    assert Decimal.Show(15) == "15";
  }
}
