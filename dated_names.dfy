/**
 * The dated-filename convention: the pattern `(\d\d\d\d)-(\d\d)-(\d\d).(.*)`
 * applied with `re.match` (anchored at the start only), the decimal reading of
 * its three digit groups, and the date they name. The `YYYY-MM-DD` prefix is
 * the extended calendar-date form of section 5.2.1.1 of ISO 8601:2004.
 * Digits are the ASCII digits.
 */
module DatedNames {
  import opened Wrappers
  import opened Data

  predicate IsDigit(c: char)
  {
    '0' <= c <= '9'
  }

  predicate AllDigits(s: string)
  {
    forall i :: 0 <= i < |s| ==> IsDigit(s[i])
  }

  /** The pieces of a matched name: the three digit groups, the one character
      matched by `.` and the text matched by `(.*)`. */
  datatype DatedName = DatedName(year: string, month: string, day: string, separator: char, rest: string)

  /** The groups the pattern can produce: `.` matches anything but a newline,
      and `.*` stops at the first newline. */
  predicate WellFormed(g: DatedName)
  {
    && |g.year| == 4 && AllDigits(g.year)
    && |g.month| == 2 && AllDigits(g.month)
    && |g.day| == 2 && AllDigits(g.day)
    && g.separator != '\n'
    && '\n' !in g.rest
  }

  /** The text a match spans. */
  function Render(g: DatedName): string
  {
    g.year + "-" + g.month + "-" + g.day + [g.separator] + g.rest
  }

  /** What the greedy `.*` consumes: everything up to the first newline. */
  function LineHead(s: string): (r: string)
    ensures r <= s
    ensures '\n' !in r
    ensures |r| == |s| || s[|r|] == '\n'
  {
    if s == [] || s[0] == '\n' then [] else [s[0]] + LineHead(s[1..])
  }

  /** `re.match` of the date pattern against a file name. */
  function MatchDated(name: string): (m: Option<DatedName>)
    ensures m.Some? ==> WellFormed(m.value)
  {
    if && |name| >= 11
       && AllDigits(name[0..4]) && name[4] == '-'
       && AllDigits(name[5..7]) && name[7] == '-'
       && AllDigits(name[8..10]) && name[10] != '\n'
    then
      Some(DatedName(name[0..4], name[5..7], name[8..10], name[10], LineHead(name[11..])))
    else
      None
  }

  /** A match spans a prefix of the name (the pattern is anchored at the start
      only), which ends where the name ends or at a newline. */
  lemma MatchSound(name: string)
    requires MatchDated(name).Some?
    ensures Render(MatchDated(name).value) <= name
    ensures |Render(MatchDated(name).value)| == |name| || name[|Render(MatchDated(name).value)|] == '\n'
  {
    var g := MatchDated(name).value;
    assert Render(g) == name[..11 + |g.rest|];
  }

  /** Every well-formed group, followed by nothing or by a line break, is
      matched, and the match gives back exactly that group. Together with the
      contract of MatchDated this says a name matches if and only if it has
      such a prefix. */
  lemma MatchComplete(g: DatedName, tail: string)
    requires WellFormed(g)
    requires tail == [] || tail[0] == '\n'
    ensures MatchDated(Render(g) + tail) == Some(g)
  {
    var name := Render(g) + tail;
    assert name[0..4] == g.year && name[5..7] == g.month && name[8..10] == g.day;
    assert name[4] == '-' && name[7] == '-' && name[10] == g.separator;
    assert name[11..] == g.rest + tail;
    LineHeadStopsAtNewline(g.rest, tail);
  }

  lemma {:induction false} LineHeadStopsAtNewline(s: string, tail: string)
    requires '\n' !in s
    requires tail == [] || tail[0] == '\n'
    ensures LineHead(s + tail) == s
  {
    if s != [] {
      assert (s + tail)[1..] == s[1..] + tail;
      LineHeadStopsAtNewline(s[1..], tail);
    }
  }

  /** One character after the date suffices, and a digit is accepted there. */
  lemma MatchShortestName()
    ensures MatchDated("2020-01-01x").Some?
    ensures MatchDated("2020-01-019.pdf").Some?
  {
    assert "2020-01-01x"[0..4] == "2020" && "2020-01-01x"[5..7] == "01" && "2020-01-01x"[8..10] == "01";
    assert "2020-01-019.pdf"[0..4] == "2020" && "2020-01-019.pdf"[5..7] == "01" && "2020-01-019.pdf"[8..10] == "01";
    assert AllDigits("2020") && AllDigits("01");
  }

  /** A bare date with nothing after it is not accepted. */
  lemma NoMatchBareDate()
    ensures MatchDated("2020-01-01").None?
  {
  }

  /** The pattern is anchored at the start of the name. */
  lemma NoMatchUnanchored()
    ensures MatchDated("x2020-01-01.pdf").None?
  {
    assert !IsDigit("x2020-01-01.pdf"[0..4][0]);
  }

  /** Each digit group has a fixed width. */
  lemma NoMatchShortMonth()
    ensures MatchDated("2020-1-01.pdf").None?
  {
    assert !IsDigit("2020-1-01.pdf"[5..7][1]);
  }

  /** `int()` of a string of decimal digits. */
  function DecimalValue(s: string): nat
    requires AllDigits(s)
  {
    if s == [] then 0 else DecimalValue(s[..|s| - 1]) * 10 + (s[|s| - 1] as int - '0' as int)
  }

  function Pow10(n: nat): (p: nat)
    ensures p >= 1
  {
    if n == 0 then 1 else 10 * Pow10(n - 1)
  }

  /** The last `width` decimal digits of `n`, zero-padded: the partner of DecimalValue. */
  function Decimal(n: nat, width: nat): (s: string)
    ensures |s| == width && AllDigits(s)
  {
    if width == 0 then [] else Decimal(n / 10, width - 1) + [('0' as int + n % 10) as char]
  }

  /** Reading back a zero-padded number gives the number. */
  lemma {:induction false} DecimalRoundTrip(n: nat, width: nat)
    requires n < Pow10(width)
    ensures DecimalValue(Decimal(n, width)) == n
  {
    if width > 0 {
      var s := Decimal(n, width);
      assert s[..|s| - 1] == Decimal(n / 10, width - 1);
      DecimalRoundTrip(n / 10, width - 1);
    }
  }

  /** A string of `k` digits reads as a number below 10^k. */
  lemma {:induction false} DecimalValueBound(s: string)
    requires AllDigits(s)
    ensures DecimalValue(s) < Pow10(|s|)
  {
    if s != [] {
      DecimalValueBound(s[..|s| - 1]);
    }
  }

  /** The date `datetime.date(*map(int, groups))` is asked to build. */
  function DateOf(g: DatedName): (d: Date)
    requires WellFormed(g)
    ensures 0 <= d.year <= 9999 && 0 <= d.month <= 99 && 0 <= d.day <= 99
  {
    DecimalValueBound(g.year);
    DecimalValueBound(g.month);
    DecimalValueBound(g.day);
    Date(DecimalValue(g.year), DecimalValue(g.month), DecimalValue(g.day))
  }

  /** The ISO 8601 file name for a date: `YYYY-MM-DD`, a separator, a description. */
  function IsoName(d: Date, separator: char, rest: string): string
    requires IsValidDate(d)
  {
    Render(DatedName(Decimal(d.year, 4), Decimal(d.month, 2), Decimal(d.day, 2), separator, rest))
  }

  /** Every valid date written in ISO 8601 form, with any separator but a newline
      and a one-line description, is recognised, and reads back as that date. */
  lemma IsoNameRoundTrip(d: Date, separator: char, rest: string)
    requires IsValidDate(d)
    requires separator != '\n' && '\n' !in rest
    ensures MatchDated(IsoName(d, separator, rest)).Some?
    ensures DateOf(MatchDated(IsoName(d, separator, rest)).value) == d
  {
    var g := DatedName(Decimal(d.year, 4), Decimal(d.month, 2), Decimal(d.day, 2), separator, rest);
    assert Render(g) + [] == Render(g);
    MatchComplete(g, []);
    DecimalRoundTrip(d.year, 4);
    DecimalRoundTrip(d.month, 2);
    DecimalRoundTrip(d.day, 2);
  }
}
