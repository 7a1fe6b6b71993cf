/** Printing durations as HH:MM:SS and reading time limits back. */
module Durations {
  import opened Types

  // ---------- numbers ----------

  const U64_BOUND: nat := 0x1_0000_0000_0000_0000

  predicate IsDigit(c: char) {
    '0' <= c <= '9'
  }

  function DigitChar(n: nat): (c: char)
    requires n < 10
    ensures IsDigit(c) && c as nat - '0' as nat == n
  {
    (n + '0' as nat) as char
  }

  function DigitValue(c: char): (n: nat)
    requires IsDigit(c)
    ensures n < 10
  {
    c as nat - '0' as nat
  }

  predicate AllDigits(s: string) {
    forall i :: 0 <= i < |s| ==> IsDigit(s[i])
  }

  /** Decimal digits without leading zeros. */
  function Decimal(n: nat): (s: string)
    ensures s != [] && AllDigits(s)
  {
    if n < 10 then [DigitChar(n)] else Decimal(n / 10) + [DigitChar(n % 10)]
  }

  function Value(s: string): nat
    requires AllDigits(s)
  {
    if s == [] then 0 else 10 * Value(s[..|s| - 1]) + DigitValue(s[|s| - 1])
  }

  /** At least two digits. */
  function TwoDigits(n: nat): (s: string)
    ensures s != [] && AllDigits(s)
  {
    if n < 10 then ['0'] + Decimal(n) else Decimal(n)
  }

  /** Reading an unsigned 64-bit number: digits, perhaps behind a plus sign, and nothing else. */
  function ParseU64(s: string): Option<nat> {
    var digits := if s != [] && s[0] == '+' then s[1..] else s;
    if digits == [] || !AllDigits(digits) || Value(digits) >= U64_BOUND then None else Some(Value(digits))
  }

  lemma {:induction false} DecimalValue(n: nat)
    ensures Value(Decimal(n)) == n
  {
    if n >= 10 {
      DecimalValue(n / 10);
      assert Decimal(n)[..|Decimal(n)| - 1] == Decimal(n / 10);
    }
  }

  lemma TwoDigitsValue(n: nat)
    ensures Value(TwoDigits(n)) == n
  {
    DecimalValue(n);
    if n < 10 {
      assert TwoDigits(n)[..1] == ['0'];
      assert ['0'][..0] == [];
      assert Value(['0']) == 0;
    }
  }

  /** Numbers of any size up to 64 bits survive, including those of more than two digits. */
  lemma NumberRoundTrip(n: nat)
    requires n < U64_BOUND
    ensures ParseU64(TwoDigits(n)) == Some(n)
  {
    TwoDigitsValue(n);
    assert IsDigit(TwoDigits(n)[0]);
  }

  // ---------- splitting ----------

  function Split(s: string, separator: char): (parts: seq<string>)
    ensures parts != []
  {
    if s == [] then [[]]
    else
      var front, last := Split(s[..|s| - 1], separator), s[|s| - 1];
      if last == separator then front + [[]]
      else front[..|front| - 1] + [front[|front| - 1] + [last]]
  }

  lemma SplitSnoc(s: string, c: char, separator: char)
    ensures var parts := Split(s, separator);
            Split(s + [c], separator) ==
            if c == separator then parts + [[]] else parts[..|parts| - 1] + [parts[|parts| - 1] + [c]]
  {
    assert (s + [c])[..|s|] == s;
  }

  lemma {:induction false} SplitAppend(s: string, tail: string, separator: char)
    requires separator !in tail
    ensures var parts := Split(s, separator);
            Split(s + tail, separator) == parts[..|parts| - 1] + [parts[|parts| - 1] + tail]
  {
    hide Split;
    var parts := Split(s, separator);
    if tail == [] {
      assert s + tail == s;
      assert parts[|parts| - 1] + [] == parts[|parts| - 1];
    } else {
      var front, last := tail[..|tail| - 1], tail[|tail| - 1];
      SplitAppend(s, front, separator);
      SplitSnoc(s + front, last, separator);
      assert s + tail == s + front + [last];
      assert parts[|parts| - 1] + tail == parts[|parts| - 1] + front + [last];
    }
  }

  /** One more part at the end. */
  lemma SplitNext(s: string, parts: seq<string>, tail: string, separator: char)
    requires Split(s, separator) == parts && separator !in tail
    ensures Split(s + [separator] + tail, separator) == parts + [tail]
  {
    hide Split;
    var s1 := s + [separator];
    SplitSnoc(s, separator, separator);
    SplitAppend(s1, tail, separator);
    assert (parts + [[]])[..|parts|] == parts && [] + tail == tail;
  }

  lemma SplitOne(s: string, separator: char)
    requires separator !in s
    ensures Split(s, separator) == [s]
  {
    SplitAppend([], s, separator);
    assert [] + s == s;
  }

  lemma SplitThree(a: string, b: string, c: string, separator: char)
    requires separator !in a && separator !in b && separator !in c
    ensures Split(a + [separator] + b + [separator] + c, separator) == [a, b, c]
  {
    SplitOne(a, separator);
    SplitNext(a, [a], b, separator);
    SplitNext(a + [separator] + b, [a] + [b], c, separator);
    assert [a] + [b] + [c] == [a, b, c];
  }

  // ---------- durations ----------

  function FormatDuration(seconds: nat): string {
    TwoDigits(seconds / 3600) + [':'] + TwoDigits((seconds % 3600) / 60) + [':'] + TwoDigits(seconds % 60)
  }

  /** A time limit in seconds: `MM`, `MM:SS` or `HH:MM:SS`. */
  function ParseTimeLimit(s: string): Option<nat> {
    var parts := Split(s, ':');
    match |parts|
    case 1 =>
      var minutes := ParseU64(s);
      if minutes.None? then None else Some(minutes.value * 60)
    case 2 =>
      var minutes, seconds := ParseU64(parts[0]), ParseU64(parts[1]);
      if minutes.None? || seconds.None? then None else Some(minutes.value * 60 + seconds.value)
    case 3 =>
      var hours, minutes, seconds := ParseU64(parts[0]), ParseU64(parts[1]), ParseU64(parts[2]);
      if hours.None? || minutes.None? || seconds.None? then None
      else Some(hours.value * 3600 + minutes.value * 60 + seconds.value)
    case _ => None
  }

  lemma NoColon(s: string)
    requires AllDigits(s)
    ensures ':' !in s
  {
  }

  /** Every whole number of seconds is read back as it was printed, however many hours it has. */
  lemma DurationRoundTrip(seconds: nat)
    requires seconds < U64_BOUND
    ensures ParseTimeLimit(FormatDuration(seconds)) == Some(seconds)
  {
    hide Decimal, TwoDigits, Split, ParseU64;
    var h, m, s := seconds / 3600, (seconds % 3600) / 60, seconds % 60;
    NoColon(TwoDigits(h));
    NoColon(TwoDigits(m));
    NoColon(TwoDigits(s));
    SplitThree(TwoDigits(h), TwoDigits(m), TwoDigits(s), ':');
    NumberRoundTrip(h);
    NumberRoundTrip(m);
    NumberRoundTrip(s);
    assert h * 3600 + m * 60 + s == seconds;
  }

  /** No two durations print alike. */
  lemma FormatIsInjective(a: nat, b: nat)
    requires a < U64_BOUND && b < U64_BOUND && FormatDuration(a) == FormatDuration(b)
    ensures a == b
  {
    hide FormatDuration, ParseTimeLimit;
    DurationRoundTrip(a);
    DurationRoundTrip(b);
  }

  // ---------- exactly the texts that are time limits ----------

  /** `s` writes the number `n`: decimal digits, perhaps behind a plus sign, worth less than 2^64. */
  ghost predicate Writes(s: string, n: nat) {
    exists digits: string :: (s == digits || s == ['+'] + digits) && IsNumeral(digits, n)
  }

  predicate IsNumeral(digits: string, n: nat) {
    digits != [] && AllDigits(digits) && Value(digits) == n && n < 0x1_0000_0000_0000_0000
  }

  lemma ParsesWhatIsWritten(s: string, n: nat)
    ensures ParseU64(s) == Some(n) <==> Writes(s, n)
    ensures Writes(s, n) ==> ':' !in s
  {
    if ParseU64(s) == Some(n) {
      var digits := if s != [] && s[0] == '+' then s[1..] else s;
      assert s == digits || s == ['+'] + digits;
      assert IsNumeral(digits, n);
    }
    if Writes(s, n) {
      var digits: string :| (s == digits || s == ['+'] + digits) && IsNumeral(digits, n);
      if s == digits {
        assert IsDigit(s[0]);
      } else {
        assert s[1..] == digits;
      }
    }
  }

  /** The parts with separators between them. */
  function Join(parts: seq<string>, separator: char): string
    requires parts != []
  {
    if |parts| == 1 then parts[0] else Join(parts[..|parts| - 1], separator) + [separator] + parts[|parts| - 1]
  }

  lemma {:induction false} JoinSplit(s: string, separator: char)
    ensures Join(Split(s, separator), separator) == s
  {
    if s != [] {
      var front, last := s[..|s| - 1], s[|s| - 1];
      var parts := Split(front, separator);
      JoinSplit(front, separator);
      if last == separator {
        assert (parts + [[]])[..|parts|] == parts;
      } else if |parts| > 1 {
        var more := Split(s, separator);
        assert more[..|more| - 1] == parts[..|parts| - 1];
      }
    }
  }

  /** Minutes alone. */
  ghost predicate InMinutes(s: string, t: nat) {
    exists m: nat :: Writes(s, m) && t == 60 * m
  }

  ghost predicate InSeconds(s: string, t: nat) {
    exists a: string, b: string, m: nat, n: nat ::
      Writes(a, m) && Writes(b, n) && s == a + [':'] + b && t == 60 * m + n
  }

  ghost predicate InHours(s: string, t: nat) {
    exists a: string, b: string, c: string, h: nat, m: nat, n: nat ::
      Writes(a, h) && Writes(b, m) && Writes(c, n)
      && s == a + [':'] + b + [':'] + c && t == 3600 * h + 60 * m + n
  }

  lemma MinutesAreRead(s: string, m: nat)
    requires Writes(s, m)
    ensures ParseTimeLimit(s) == Some(60 * m)
  {
    ParsesWhatIsWritten(s, m);
    SplitOne(s, ':');
  }

  lemma SecondsAreRead(a: string, b: string, m: nat, n: nat)
    requires Writes(a, m) && Writes(b, n)
    ensures ParseTimeLimit(a + [':'] + b) == Some(60 * m + n)
  {
    hide Split, Writes, ParseU64;
    ParsesWhatIsWritten(a, m);
    ParsesWhatIsWritten(b, n);
    SplitOne(a, ':');
    SplitNext(a, [a], b, ':');
  }

  lemma HoursAreRead(a: string, b: string, c: string, h: nat, m: nat, n: nat)
    requires Writes(a, h) && Writes(b, m) && Writes(c, n)
    ensures ParseTimeLimit(a + [':'] + b + [':'] + c) == Some(3600 * h + 60 * m + n)
  {
    hide Split, Writes, ParseU64;
    ParsesWhatIsWritten(a, h);
    ParsesWhatIsWritten(b, m);
    ParsesWhatIsWritten(c, n);
    SplitThree(a, b, c, ':');
  }

  lemma LimitIsWritten(s: string, t: nat)
    requires ParseTimeLimit(s) == Some(t)
    ensures InMinutes(s, t) || InSeconds(s, t) || InHours(s, t)
  {
    hide Split, Writes, ParseU64;
    var parts := Split(s, ':');
    JoinSplit(s, ':');
    if |parts| == 1 {
      ParsesWhatIsWritten(s, ParseU64(s).value);
    } else if |parts| == 2 {
      var m, n := ParseU64(parts[0]).value, ParseU64(parts[1]).value;
      ParsesWhatIsWritten(parts[0], m);
      ParsesWhatIsWritten(parts[1], n);
      assert s == parts[0] + [':'] + parts[1];
    } else {
      var h, m, n := ParseU64(parts[0]).value, ParseU64(parts[1]).value, ParseU64(parts[2]).value;
      ParsesWhatIsWritten(parts[0], h);
      ParsesWhatIsWritten(parts[1], m);
      ParsesWhatIsWritten(parts[2], n);
      assert Join(parts[..2], ':') == parts[0] + [':'] + parts[1];
      assert s == parts[0] + [':'] + parts[1] + [':'] + parts[2];
    }
  }

  lemma InSecondsIsRead(s: string, t: nat)
    requires InSeconds(s, t)
    ensures ParseTimeLimit(s) == Some(t)
  {
    hide ParseTimeLimit, Writes;
    var a: string, b: string, m: nat, n: nat :|
      Writes(a, m) && Writes(b, n) && s == a + [':'] + b && t == 60 * m + n;
    SecondsAreRead(a, b, m, n);
  }

  lemma InHoursIsRead(s: string, t: nat)
    requires InHours(s, t)
    ensures ParseTimeLimit(s) == Some(t)
  {
    hide ParseTimeLimit, Writes;
    var a: string, b: string, c: string, h: nat, m: nat, n: nat :|
      Writes(a, h) && Writes(b, m) && Writes(c, n)
      && s == a + [':'] + b + [':'] + c && t == 3600 * h + 60 * m + n;
    HoursAreRead(a, b, c, h, m, n);
  }

  /** One, two or three numbers with colons between them, each of 64 bits, and nothing else: minutes, or minutes
      and seconds, or hours, minutes and seconds. Numbers of sixty and more carry over. */
  lemma LimitsExactly(s: string, t: nat)
    ensures ParseTimeLimit(s) == Some(t) <==> InMinutes(s, t) || InSeconds(s, t) || InHours(s, t)
  {
    hide ParseTimeLimit, Writes, InSeconds, InHours;
    if ParseTimeLimit(s) == Some(t) {
      LimitIsWritten(s, t);
    }
    if InMinutes(s, t) {
      var m: nat :| Writes(s, m) && t == 60 * m;
      MinutesAreRead(s, m);
    }
    if InSeconds(s, t) {
      InSecondsIsRead(s, t);
    }
    if InHours(s, t) {
      InHoursIsRead(s, t);
    }
  }

  /** In particular a bare number is minutes, and two numbers are minutes and seconds. */
  lemma DecimalsAreRead(m: nat, n: nat)
    requires m < U64_BOUND && n < U64_BOUND
    ensures ParseTimeLimit(Decimal(m)) == Some(60 * m)
    ensures ParseTimeLimit(Decimal(m) + ":" + Decimal(n)) == Some(60 * m + n)
  {
    DecimalValue(m);
    DecimalValue(n);
    assert IsNumeral(Decimal(m), m) && IsNumeral(Decimal(n), n);
    MinutesAreRead(Decimal(m), m);
    SecondsAreRead(Decimal(m), Decimal(n), m, n);
  }
}
