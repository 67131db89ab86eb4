/** The log timestamp: digit loops and the whole line prefix. */
module Timestamp {
  import opened Arithmetic
  import opened Bytes
  import opened Calendar

  /** The string a log line is built in. */
  class Line {
    var text: string

    constructor ()
      ensures text == ""
    {
      text := "";
    }

    method Push(c: char)
      modifies this
      ensures text == old(text) + [c]
    {
      text := text + [c];
    }

    method PushStr(s: string)
      modifies this
      ensures text == old(text) + s
    {
      text := text + s;
    }
  }

  // ---- decimal digits ----

  function Digit(n: nat): char
    requires n < 10
  {
    '0' + n as char
  }

  /** A number's decimal digits, without leading zeros. */
  function Digits(n: nat): (s: string)
    ensures |s| > 0
  {
    if n < 10 then [Digit(n)] else Digits(n / 10) + [Digit(n % 10)]
  }

  function Zeros(k: nat): (s: string)
    ensures |s| == k
  {
    seq(k, i => '0')
  }

  function Padded(n: nat, width: nat): string {
    var d := Digits(n);
    (if |d| < width then Zeros(width - |d|) else "") + d
  }

  /** What the driver prints. */
  function Printed(n: int, width: nat): string {
    if n < 0 then "-" + Padded(-n, width) else Padded(n, width)
  }

  /** What the formatter's `{n:0width$}` prints: the sign counts towards the width. */
  function Formatted(n: int, width: nat): string {
    if n < 0 then "-" + Padded(-n, if width == 0 then 0 else width - 1) else Padded(n, width)
  }

  lemma PaddedLength(n: nat, width: nat)
    ensures |Padded(n, width)| == if |Digits(n)| < width then width else |Digits(n)|
  {}

  /** They agree exactly on numbers that are not negative or need no padding. */
  lemma PrintedAsFormatted(n: int, width: nat)
    ensures Printed(n, width) == Formatted(n, width) <==> n >= 0 || |Digits(-n)| >= width
  {
    if n < 0 {
      var k := if width == 0 then 0 else width - 1;
      PaddedLength(-n, width);
      PaddedLength(-n, k);
      hide Padded;
      assert |Printed(n, width)| == 1 + |Padded(-n, width)| && |Formatted(n, width)| == 1 + |Padded(-n, k)|;
      if |Digits(-n)| >= width { SamePadding(-n, width, k); }
    }
  }

  lemma SamePadding(n: nat, a: nat, b: nat)
    requires |Digits(n)| >= a && |Digits(n)| >= b
    ensures Padded(n, a) == Padded(n, b)
  {}

  /** The low `w` digits. */
  function FixedDigits(n: nat, w: nat): (s: string)
    ensures |s| == w
    decreases w
  {
    if w == 0 then "" else FixedDigits(n / 10, w - 1) + [Digit(n % 10)]
  }

  lemma DivTen(n: nat, p: nat)
    requires p > 0
    ensures (n / 10) / p == n / (10 * p)
  {
    var q := n / 10;
    var a, r := q / p, q % p;
    assert q == a * p + r;
    assert n == a * (10 * p) + (10 * r + n % 10) by { assert a * (10 * p) == 10 * (a * p); }
    DivModUnique(n, a, 10 * r + n % 10, 10 * p);
  }

  /** One more digit goes in front. */
  lemma {:induction false} FixedFront(n: nat, k: nat)
    ensures FixedDigits(n, k + 1) == [Digit((n / Pow10(k)) % 10)] + FixedDigits(n, k)
    decreases k
  {
    if k == 0 {
      assert n / Pow10(0) == n && FixedDigits(n, 0) == "" && FixedDigits(n / 10, 0) == "";
    } else {
      FixedFront(n / 10, k - 1);
      DivTen(n, Pow10(k - 1));
    }
  }

  /** Exactly as many digits as the number has. */
  lemma {:induction false} DigitsFixed(n: nat, k: nat)
    requires k >= 1 && n < Pow10(k) && (k == 1 || n >= Pow10(k - 1))
    ensures Digits(n) == FixedDigits(n, k)
    decreases k
  {
    if k == 1 {
      assert Pow10(1) == 10 * Pow10(0) && FixedDigits(n / 10, 0) == "";
    } else {
      assert Pow10(k) == 10 * Pow10(k - 1);
      assert k > 2 ==> Pow10(k - 1) == 10 * Pow10(k - 2);
      assert n >= 10;
      DigitsFixed(n / 10, k - 1);
    }
  }

  /** A number that fits `w` digits, in `w` digits, is its zero-padded decimal. */
  lemma {:induction false} FixedPadded(n: nat, w: nat)
    requires w >= 1 && n < Pow10(w)
    ensures FixedDigits(n, w) == Padded(n, w) && |Digits(n)| <= w
    decreases w
  {
    hide Digits, FixedDigits, Padded, Pow10;
    if w == 1 || n >= Pow10(w - 1) {
      DigitsFixed(n, w);
      PaddedExact(n, w);
    } else {
      FixedPadded(n, w - 1);
      FixedFront(n, w - 1);
      SmallQuotient(n, Pow10(w - 1));
      OneMoreZero(n, w);
    }
  }

  lemma PaddedExact(n: nat, w: nat)
    requires |Digits(n)| >= w
    ensures Padded(n, w) == Digits(n)
  {}

  lemma SmallQuotient(n: nat, p: nat)
    requires p > 0
    ensures n < p <==> n / p == 0
  {}

  lemma OneMoreZero(n: nat, w: nat)
    requires w >= 1 && |Digits(n)| <= w - 1
    ensures Padded(n, w) == ['0'] + Padded(n, w - 1)
  {
    var k := w - |Digits(n)|;
    assert Zeros(k) == ['0'] + Zeros(k - 1);
    if k == 1 { assert Zeros(0) == ""; }
  }

  // ---- read back ----

  predicate IsDigit(c: char) {
    '0' <= c <= '9'
  }

  predicate AllDigits(s: string) {
    forall i :: 0 <= i < |s| ==> IsDigit(s[i])
  }

  /** What a reader of decimal numbers makes of a text. */
  function ReadDecimal(s: string): nat
    requires AllDigits(s)
  {
    if s == "" then 0 else 10 * ReadDecimal(s[..|s| - 1]) + (s[|s| - 1] as int - '0' as int)
  }

  lemma ReadSnoc(s: string, n: nat)
    requires AllDigits(s) && n < 10
    ensures AllDigits(s + [Digit(n)]) && ReadDecimal(s + [Digit(n)]) == 10 * ReadDecimal(s) + n
  {
    var t := s + [Digit(n)];
    assert t[..|t| - 1] == s && t[|t| - 1] == Digit(n);
  }

  /** A number's digits read as the number, and only zero starts with '0'. */
  lemma {:induction false} DigitsRead(n: nat)
    ensures AllDigits(Digits(n)) && ReadDecimal(Digits(n)) == n
    ensures Digits(n)[0] == '0' <==> n == 0
  {
    ReadSnoc("", n % 10);
    assert "" + [Digit(n % 10)] == [Digit(n % 10)];
    if n >= 10 {
      DigitsRead(n / 10);
      ReadSnoc(Digits(n / 10), n % 10);
    }
  }

  /** So do fixed-width digits, when the number fits. */
  lemma {:induction false} FixedRead(n: nat, w: nat)
    ensures AllDigits(FixedDigits(n, w))
    ensures n < Pow10(w) ==> ReadDecimal(FixedDigits(n, w)) == n
    decreases w
  {
    if w > 0 {
      FixedRead(n / 10, w - 1);
      ReadSnoc(FixedDigits(n / 10, w - 1), n % 10);
    }
  }

  /** And padding changes nothing but the length. */
  lemma {:induction false} PaddedRead(n: nat, width: nat)
    ensures AllDigits(Padded(n, width)) && ReadDecimal(Padded(n, width)) == n
    ensures |Padded(n, width)| >= width
  {
    DigitsRead(n);
    var d := Digits(n);
    if |d| < width {
      ZerosRead(width - |d|, d);
    } else {
      assert "" + d == d;
    }
  }

  lemma {:induction false} ZerosRead(k: nat, s: string)
    requires AllDigits(s)
    ensures AllDigits(Zeros(k) + s) && ReadDecimal(Zeros(k) + s) == ReadDecimal(s)
    decreases |s|, k
  {
    var t := Zeros(k) + s;
    if s == "" {
      assert t == Zeros(k);
      if k > 0 {
        ZerosRead(k - 1, "");
        assert Zeros(k - 1) + "" == Zeros(k - 1);
        assert Zeros(k)[..k - 1] == Zeros(k - 1);
      }
    } else {
      var r := s[..|s| - 1];
      ZerosRead(k, r);
      assert t[..|t| - 1] == Zeros(k) + r && t[|t| - 1] == s[|s| - 1];
    }
  }

  // ---- the loops ----

  const U64_LIMIT: nat := 0x1_0000_0000_0000_0000

  lemma Pow10Values()
    ensures Pow10(0) == 1 && Pow10(1) == 10 && Pow10(2) == 100 && Pow10(3) == 1_000 && Pow10(4) == 10_000
    ensures Pow10(20) > U64_LIMIT
  {
    assert Pow10(2) == 10 * Pow10(1) && Pow10(4) == 10 * Pow10(3);
    assert Pow10(6) == 10 * Pow10(5) && Pow10(5) == 10 * Pow10(4);
    assert Pow10(8) == 10 * Pow10(7) && Pow10(7) == 10 * Pow10(6);
    assert Pow10(10) == 10 * Pow10(9) && Pow10(9) == 10 * Pow10(8);
    assert Pow10(12) == 10 * Pow10(11) && Pow10(11) == 10 * Pow10(10);
    assert Pow10(14) == 10 * Pow10(13) && Pow10(13) == 10 * Pow10(12);
    assert Pow10(16) == 10 * Pow10(15) && Pow10(15) == 10 * Pow10(14);
    assert Pow10(18) == 10 * Pow10(17) && Pow10(17) == 10 * Pow10(16);
    assert Pow10(20) == 10 * Pow10(19) && Pow10(19) == 10 * Pow10(18);
  }

  /** The fixed-width loop: the highest digit first. */
  method PushFixed(line: Line, v: nat, width: nat)
    requires 1 <= width <= 4 && v < Pow10(width)
    modifies line
    ensures line.text == old(line.text) + FixedDigits(v, width)
  {
    Pow10Values();
    hide Pow10, FixedDigits;
    var div := if width == 1 then 1 else if width == 2 then 10 else if width == 3 then 100 else 1_000;
    ghost var k := width;
    while div > 0
      invariant 0 <= k <= width && div == (if k == 0 then 0 else Pow10(k - 1))
      invariant line.text + FixedDigits(v, k) == old(line.text) + FixedDigits(v, width)
      decreases k
    {
      FixedFront(v, k - 1);
      ghost var was, c := line.text, Digit((v / div) % 10);
      line.Push(Digit((v / div) % 10));
      Assoc(was, [c], FixedDigits(v, k - 1));
      div := div / 10;
      k := k - 1;
    }
    FixedNone(v);
    assert line.text + "" == line.text;
  }

  /** The digit buffer both printers fill from its end. */
  method FillDigits(buf: array<char>, n: nat) returns (i: nat)
    requires buf.Length == 20 && buf[..] == Zeros(20) && n < U64_LIMIT
    modifies buf
    ensures i < 20 && Digits(n) == FixedDigits(n, 20 - i)
    ensures buf[..] == Zeros(i) + Digits(n)
  {
    Pow10Values();
    hide Digits, FixedDigits, Zeros, Pow10;
    i := 20;
    var v := n;
    FixedNone(n);
    assert Zeros(20) + "" == Zeros(20);
    while v > 0 || i == 20
      invariant 0 <= i <= 20 && buf[..] == Zeros(i) + FixedDigits(n, 20 - i)
      invariant v == n / Pow10(20 - i)
      invariant i < 19 ==> n >= Pow10(20 - i - 1)
      decreases i
    {
      BelowPow(n, i, v);
      ghost var was := buf[..];
      i := i - 1;
      FixedFront(n, 19 - i);
      buf[i] := Digit(v % 10);
      PutDigit(was, i, buf[i], FixedDigits(n, 19 - i));
      NextQuotient(n, 19 - i);
      v := v / 10;
    }
    SmallQuotient(n, Pow10(20 - i));
    DigitsFixed(n, 20 - i);
  }

  lemma FixedNone(n: nat)
    ensures FixedDigits(n, 0) == ""
  {}

  lemma BelowPow(n: nat, i: nat, v: nat)
    requires i <= 20 && n < Pow10(20) && v == n / Pow10(20 - i) && (v > 0 || i == 20)
    ensures i > 0 && (i < 20 ==> n >= Pow10(20 - i))
  {
    hide Pow10;
    SmallQuotient(n, Pow10(20 - i));
  }

  lemma NextQuotient(n: nat, k: nat)
    ensures (n / Pow10(k)) / 10 == n / Pow10(k + 1)
  {
    var p := Pow10(k);
    var q := n / p;
    var a, r := q / 10, q % 10;
    assert n == a * (10 * p) + (r * p + n % p) by {
      assert n == q * p + n % p;
      Distribute(10 * a, -r, p);
      assert (10 * a) * p == a * (10 * p);
    }
    assert r * p + n % p < 10 * p by { Distribute(9, r, p); MulAtLeast(9 - r, p); }
    DivModUnique(n, a, r * p + n % p, 10 * p);
  }

  lemma PutDigit(was: string, i: nat, c: char, tail: string)
    requires i < 20 && |was| == 20 && |tail| == 19 - i && was == Zeros(i + 1) + tail
    ensures was[i := c] == Zeros(i) + ([c] + tail)
  {}

  /** `push_padded`. */
  method PushPadded(line: Line, n: int, width: nat)
    requires width <= 20 && -0x8000_0000_0000_0000 <= n < 0x8000_0000_0000_0000
    modifies line
    ensures line.text == old(line.text) + Printed(n, width)
  {
    Pow10Values();
    hide Digits, FixedDigits, Padded, Pow10;
    if n >= 0 && 1 <= width <= 4 && n < Limit(width) {
      PushFixed(line, n, width);
      FixedPadded(n, width);
      return;
    }
    ghost var base := line.text;
    var sign := "";
    if n < 0 {
      line.Push('-');
      sign := "-";
    }
    assert line.text == base + sign;
    var buf := new char[20](_ => '0');
    assert buf[..] == Zeros(20);
    ghost var v: nat := if n < 0 then -n else n;
    var i := FillDigits(buf, if n < 0 then -n else n);
    var start := if i < 20 - width then i else 20 - width;
    TailPadded(buf[..], v, i, width);
    line.PushStr(buf[start..]);
    assert buf[..][start..] == buf[start..];
    assert base + sign + Padded(v, width) == base + (sign + Padded(v, width));
    assert "" + Padded(v, width) == Padded(v, width);
  }

  function Limit(width: nat): (r: nat)
    requires 1 <= width <= 4
    ensures r == Pow10(width)
  {
    Pow10Values();
    if width == 1 then 10 else if width == 2 then 100 else if width == 3 then 1_000 else 10_000
  }

  lemma TailPadded(buf: string, n: nat, i: nat, width: nat)
    requires |buf| == 20 && i < 20 && width <= 20 && buf == Zeros(i) + Digits(n) && |Digits(n)| == 20 - i
    ensures buf[if i < 20 - width then i else 20 - width..] == Padded(n, width)
  {
    if i >= 20 - width { assert Zeros(i)[20 - width..] == Zeros(i - (20 - width)); }
  }

  /** `push_u64`. */
  method PushU64(line: Line, n: nat)
    requires n < U64_LIMIT
    modifies line
    ensures line.text == old(line.text) + Digits(n)
  {
    var buf := new char[20](_ => '0');
    assert buf[..] == Zeros(20);
    var i := FillDigits(buf, n);
    assert buf[i..] == buf[..][i..];
    line.PushStr(buf[i..]);
  }

  // ---- the whole prefix ----

  datatype Clock = Clock(hh: nat, mm: nat, ss: nat, ms: nat)

  function ClockOf(rem: nat): Clock {
    var secs := rem / 1000;
    Clock(secs / 3600, (secs % 3600) / 60, secs % 60, rem % 1000)
  }

  /** A field and what follows it. */
  function Field(n: int, width: nat, c: char): string {
    Printed(n, width) + [c]
  }

  /** ISO 8601, UTC, to the millisecond. */
  function Stamp(ms: int): string {
    var t, c := CivilFromDays(ms / DAY_MS), ClockOf(ms % DAY_MS);
    Field(t.y, 4, '-') + Field(t.m, 2, '-') + Field(t.d, 2, 'T')
    + Field(c.hh, 2, ':') + Field(c.mm, 2, ':') + Field(c.ss, 2, '.') + Field(c.ms, 3, 'Z')
  }

  lemma ClockBounds(rem: nat)
    requires rem < DAY_MS
    ensures var c := ClockOf(rem); c.hh < 24 && c.mm < 60 && c.ss < 60 && c.ms < 1000
    ensures var c := ClockOf(rem); rem == ((c.hh * 60 + c.mm) * 60 + c.ss) * 1000 + c.ms
  {}

  method PushField(line: Line, n: int, width: nat, c: char, ghost base: string, ghost done: string)
    requires width <= 20 && -0x8000_0000_0000_0000 <= n < 0x8000_0000_0000_0000 && line.text == base + done
    modifies line
    ensures line.text == base + (done + Field(n, width, c))
  {
    hide Printed;
    PushPadded(line, n, width);
    line.Push(c);
    Assoc(base + done, Printed(n, width), [c]);
    Assoc(base, done, Field(n, width, c));
  }

  /** `log_timestamp_into`, given the millisecond count. */
  method LogTimestampInto(line: Line, ms: int)
    requires -0x8000_0000_0000_0000 <= ms < 0x8000_0000_0000_0000
    modifies line
    ensures line.text == old(line.text) + Stamp(ms)
  {
    var days, rem := ms / DAY_MS, ms % DAY_MS;
    CivilCorrect(days);
    ClockBounds(rem);
    YearInRange(days);
    hide CivilFromDays, ClockOf, Field, DayNumber;
    var t, c := CivilFromDays(days), ClockOf(rem);
    ghost var base := line.text;
    assert base + "" == base && "" + Field(t.y, 4, '-') == Field(t.y, 4, '-');
    PushField(line, t.y, 4, '-', base, "");
    ghost var done := Field(t.y, 4, '-');
    PushField(line, t.m, 2, '-', base, done);
    done := done + Field(t.m, 2, '-');
    PushField(line, t.d, 2, 'T', base, done);
    done := done + Field(t.d, 2, 'T');
    PushField(line, c.hh, 2, ':', base, done);
    done := done + Field(c.hh, 2, ':');
    PushField(line, c.mm, 2, ':', base, done);
    done := done + Field(c.mm, 2, ':');
    PushField(line, c.ss, 2, '.', base, done);
    done := done + Field(c.ss, 2, '.');
    PushField(line, c.ms, 3, 'Z', base, done);
  }

  lemma YearInRange(days: int)
    requires -0x8000_0000_0000_0000 <= days * DAY_MS + DAY_MS && days * DAY_MS < 0x8000_0000_0000_0000
    ensures -0x8000_0000_0000_0000 <= CivilFromDays(days).y < 0x8000_0000_0000_0000
  {
    var era, yoe, doy := CivilParts(days);
    hide CivilFromDays, MonthDay, Leap;
  }

  // ---- what the prefix says ----

  lemma FieldShape(n: int, width: nat, c: char)
    requires width >= 1 && 0 <= n < Pow10(width)
    ensures Field(n, width, c) == FixedDigits(n, width) + [c]
  {
    FixedPadded(n, width);
  }

  /** 1 January 10000, in milliseconds since 1970. */
  const YEAR_10000: int := 253_402_300_800_000

  lemma BeforeYear10000(days: int)
    requires 0 <= days < 2_932_897
    ensures 1970 <= CivilFromDays(days).y < 10_000
  {
    CivilCorrect(days);
    var t, first, last := CivilFromDays(days), Date(1970, 1, 1), Date(10_000, 1, 1);
    assert DayNumber(first) == 0 && DayNumber(last) == 2_932_897;
    hide CivilFromDays, DayNumber;
    if t.y < 1970 { DayNumberOrder(t, first); }
    if t.y >= 10_000 && t != last { DayNumberOrder(last, t); }
  }

  lemma PartsInRange(ms: int)
    requires 0 <= ms < YEAR_10000
    ensures FieldsOk(CivilFromDays(ms / DAY_MS), ClockOf(ms % DAY_MS))
  {
    BeforeYear10000(ms / DAY_MS);
    CivilCorrect(ms / DAY_MS);
    ClockBounds(ms % DAY_MS);
    hide CivilFromDays, ClockOf, DayNumber;
  }

  /** Until the year 10000: seven fixed-width fields, so 24 characters. */
  lemma StampShape(ms: int)
    requires 0 <= ms < YEAR_10000
    ensures var t, c := CivilFromDays(ms / DAY_MS), ClockOf(ms % DAY_MS);
            FieldsOk(t, c) && Stamp(ms) == Fields(t, c)
    ensures |Stamp(ms)| == 24
  {
    PartsInRange(ms);
    Pow10Values();
    hide CivilFromDays, ClockOf, Field, FixedDigits, Pow10;
    var t, c := CivilFromDays(ms / DAY_MS), ClockOf(ms % DAY_MS);
    FieldShape(t.y, 4, '-');
    FieldShape(t.m, 2, '-');
    FieldShape(t.d, 2, 'T');
    FieldShape(c.hh, 2, ':');
    FieldShape(c.mm, 2, ':');
    FieldShape(c.ss, 2, '.');
    FieldShape(c.ms, 3, 'Z');
    FieldsAt(Fields(t, c), t, c);
  }

  /** The text between two positions reads as `n`. */
  predicate Reads(s: string, i: nat, j: nat, n: int) {
    i <= j <= |s| && AllDigits(s[i..j]) && ReadDecimal(s[i..j]) == n
  }

  /** Each field reads back from its place, between its separators. */
  lemma StampReads(ms: int)
    requires 0 <= ms < YEAR_10000
    ensures var s, t, c := Stamp(ms), CivilFromDays(ms / DAY_MS), ClockOf(ms % DAY_MS);
            && |s| == 24 && s[4] == '-' && s[7] == '-' && s[10] == 'T' && s[13] == ':' && s[16] == ':' && s[19] == '.'
            && s[23] == 'Z' && Reads(s, 0, 4, t.y) && Reads(s, 5, 7, t.m) && Reads(s, 8, 10, t.d)
            && Reads(s, 11, 13, c.hh) && Reads(s, 14, 16, c.mm) && Reads(s, 17, 19, c.ss) && Reads(s, 20, 23, c.ms)
  {
    StampShape(ms);
    Pow10Values();
    hide CivilFromDays, ClockOf, Stamp, Fields, FixedDigits, Pow10, ReadDecimal, AllDigits;
    var s, t, c := Stamp(ms), CivilFromDays(ms / DAY_MS), ClockOf(ms % DAY_MS);
    FieldsAt(s, t, c);
    FixedRead(t.y, 4);
    FixedRead(t.m, 2);
    FixedRead(t.d, 2);
    FixedRead(c.hh, 2);
    FixedRead(c.mm, 2);
    FixedRead(c.ss, 2);
    FixedRead(c.ms, 3);
  }

  // ---- and in which order ----

  /** Lexicographic order of texts. */
  predicate TextLess(s: string, t: string) {
    t != "" && (s == "" || s[0] < t[0] || (s[0] == t[0] && TextLess(s[1..], t[1..])))
  }

  lemma {:induction false} TextLessAsymmetric(s: string, t: string)
    requires TextLess(s, t)
    ensures !TextLess(t, s) && s != t
  {
    if s != "" && s[0] == t[0] { TextLessAsymmetric(s[1..], t[1..]); }
  }

  /** Texts of one length decide before what follows them; equal ones leave it to what follows. */
  lemma {:induction false} TextLessConcat(a: string, b: string, x: string, y: string)
    requires |a| == |b| && (TextLess(a, b) || (a == b && TextLess(x, y)))
    ensures TextLess(a + x, b + y)
  {
    if a == "" {
      assert a + x == x && b + y == y;
    } else {
      assert (a + x)[1..] == a[1..] + x && (b + y)[1..] == b[1..] + y;
      if a[0] == b[0] { TextLessConcat(a[1..], b[1..], x, y); }
    }
  }

  /** Digits of one width order as the numbers do. */
  lemma {:induction false} FixedOrder(n: nat, m: nat, w: nat)
    requires n < m < Pow10(w)
    ensures TextLess(FixedDigits(n, w), FixedDigits(m, w))
    decreases w
  {
    var x, y := [Digit(n % 10)], [Digit(m % 10)];
    if n / 10 < m / 10 {
      FixedOrder(n / 10, m / 10, w - 1);
    } else {
      assert n % 10 < m % 10 && TextLess(x, y);
    }
    TextLessConcat(FixedDigits(n / 10, w - 1), FixedDigits(m / 10, w - 1), x, y);
  }

  /** One field, then the rest. */
  lemma FieldOrder(n: nat, m: nat, w: nat, c: char, x: string, y: string)
    requires n < Pow10(w) && m < Pow10(w) && (n < m || (n == m && TextLess(x, y)))
    ensures TextLess(FixedDigits(n, w) + [c] + x, FixedDigits(m, w) + [c] + y)
  {
    hide FixedDigits, TextLess;
    if n < m { FixedOrder(n, m, w); }
    var d, e := FixedDigits(n, w), FixedDigits(m, w);
    if n == m { TextLessConcat([c], [c], x, y); }
    TextLessConcat(d, e, [c] + x, [c] + y);
    Assoc(d, [c], x);
    Assoc(e, [c], y);
  }

  predicate ClockLess(c: Clock, e: Clock) {
    c.hh < e.hh || (c.hh == e.hh && (c.mm < e.mm || (c.mm == e.mm && (c.ss < e.ss || (c.ss == e.ss && c.ms < e.ms)))))
  }

  predicate DateLess(t: Date, u: Date) {
    t.y < u.y || (t.y == u.y && (t.m < u.m || (t.m == u.m && t.d < u.d)))
  }

  function ClockText(c: Clock): string
    requires c.hh < 100 && c.mm < 100 && c.ss < 100 && c.ms < 1_000
  {
    FixedDigits(c.hh, 2) + [':'] + (FixedDigits(c.mm, 2) + [':'] + (FixedDigits(c.ss, 2) + ['.']
    + (FixedDigits(c.ms, 3) + ['Z'] + "")))
  }

  lemma ClockTextOrder(c: Clock, e: Clock)
    requires c.hh < 100 && c.mm < 100 && c.ss < 100 && c.ms < 1_000
    requires e.hh < 100 && e.mm < 100 && e.ss < 100 && e.ms < 1_000
    requires ClockLess(c, e)
    ensures TextLess(ClockText(c), ClockText(e))
  {
    Pow10Values();
    hide FixedDigits, TextLess, Pow10;
    var x3, y3 := FixedDigits(c.ms, 3) + ['Z'] + "", FixedDigits(e.ms, 3) + ['Z'] + "";
    var x2, y2 := FixedDigits(c.ss, 2) + ['.'] + x3, FixedDigits(e.ss, 2) + ['.'] + y3;
    var x1, y1 := FixedDigits(c.mm, 2) + [':'] + x2, FixedDigits(e.mm, 2) + [':'] + y2;
    if c.ms < e.ms { FieldOrder(c.ms, e.ms, 3, 'Z', "", ""); }
    if c.ss < e.ss || (c.ss == e.ss && c.ms < e.ms) { FieldOrder(c.ss, e.ss, 2, '.', x3, y3); }
    if c.hh == e.hh { FieldOrder(c.mm, e.mm, 2, ':', x2, y2); }
    FieldOrder(c.hh, e.hh, 2, ':', x1, y1);
  }

  lemma DateTextOrder(t: Date, u: Date, x: string, y: string)
    requires 0 <= t.y < 10_000 && 0 <= t.m < 100 && 0 <= t.d < 100
    requires 0 <= u.y < 10_000 && 0 <= u.m < 100 && 0 <= u.d < 100
    requires DateLess(t, u) || (t == u && TextLess(x, y))
    ensures TextLess(DateText(t, x), DateText(u, y))
  {
    Pow10Values();
    hide FixedDigits, TextLess, Pow10;
    var x2, y2 := FixedDigits(t.d, 2) + ['T'] + x, FixedDigits(u.d, 2) + ['T'] + y;
    var x1, y1 := FixedDigits(t.m, 2) + ['-'] + x2, FixedDigits(u.m, 2) + ['-'] + y2;
    if t.d < u.d || (t.d == u.d && TextLess(x, y)) { FieldOrder(t.d, u.d, 2, 'T', x, y); }
    if t.y == u.y { FieldOrder(t.m, u.m, 2, '-', x2, y2); }
    FieldOrder(t.y, u.y, 4, '-', x1, y1);
  }

  function DateText(t: Date, x: string): string
    requires 0 <= t.y < 10_000 && 0 <= t.m < 100 && 0 <= t.d < 100
  {
    FixedDigits(t.y, 4) + ['-'] + (FixedDigits(t.m, 2) + ['-'] + (FixedDigits(t.d, 2) + ['T'] + x))
  }

  lemma FieldsRight(t: Date, c: Clock)
    requires FieldsOk(t, c)
    ensures Fields(t, c) == DateText(t, ClockText(c))
  {
    hide FixedDigits;
    var y, m, d := FixedDigits(t.y, 4) + ['-'], FixedDigits(t.m, 2) + ['-'], FixedDigits(t.d, 2) + ['T'];
    var h, n, s := FixedDigits(c.hh, 2) + [':'], FixedDigits(c.mm, 2) + [':'], FixedDigits(c.ss, 2) + ['.'];
    var z := FixedDigits(c.ms, 3) + ['Z'];
    assert z + "" == z;
    Assoc(y + m + d + h + n, s, z);
    Assoc(y + m + d + h, n, s + z);
    Assoc(y + m + d, h, n + (s + z));
    Assoc(y + m, d, h + (n + (s + z)));
    Assoc(y, m, d + (h + (n + (s + z))));
  }

  lemma EarlierClock(a: nat, b: nat)
    requires a < b < DAY_MS
    ensures ClockLess(ClockOf(a), ClockOf(b))
  {
    ClockBounds(a);
    ClockBounds(b);
    hide ClockOf;
    var c, e := ClockOf(a), ClockOf(b);
    if !ClockLess(c, e) { NotEarlier(c, e); }
  }

  /** In milliseconds. */
  lemma NotEarlier(c: Clock, e: Clock)
    requires c.mm < 60 && c.ss < 60 && c.ms < 1000 && e.mm < 60 && e.ss < 60 && e.ms < 1000 && !ClockLess(c, e)
    ensures ((c.hh * 60 + c.mm) * 60 + c.ss) * 1000 + c.ms >= ((e.hh * 60 + e.mm) * 60 + e.ss) * 1000 + e.ms
  {}

  lemma EarlierDate(a: int, b: int)
    requires a < b
    ensures DateLess(CivilFromDays(a), CivilFromDays(b))
  {
    CivilCorrect(a);
    CivilCorrect(b);
    hide CivilFromDays, DayNumber, Valid;
    var t, u := CivilFromDays(a), CivilFromDays(b);
    if DateLess(u, t) { DayNumberOrder(u, t); }
  }

  /** An earlier day, or an earlier time of the same day. */
  lemma EarlierFields(a: int, b: int)
    requires a < b
    ensures var t, u := CivilFromDays(a / DAY_MS), CivilFromDays(b / DAY_MS);
            DateLess(t, u) || (t == u && ClockLess(ClockOf(a % DAY_MS), ClockOf(b % DAY_MS)))
  {
    hide CivilFromDays, ClockOf, DateLess, ClockLess;
    if a / DAY_MS < b / DAY_MS {
      EarlierDate(a / DAY_MS, b / DAY_MS);
    } else {
      EarlierClock(a % DAY_MS, b % DAY_MS);
    }
  }

  lemma StampEarlier(a: int, b: int)
    requires 0 <= a < b < YEAR_10000
    ensures TextLess(Stamp(a), Stamp(b))
  {
    StampShape(a);
    StampShape(b);
    EarlierFields(a, b);
    hide CivilFromDays, ClockOf, Stamp, Fields, DateText, ClockText, TextLess;
    var t, c := CivilFromDays(a / DAY_MS), ClockOf(a % DAY_MS);
    var u, e := CivilFromDays(b / DAY_MS), ClockOf(b % DAY_MS);
    FieldsRight(t, c);
    FieldsRight(u, e);
    if t == u && !DateLess(t, u) { ClockTextOrder(c, e); }
    DateTextOrder(t, u, ClockText(c), ClockText(e));
  }

  /** Prefixes sort as the instants do. */
  lemma StampOrder(a: int, b: int)
    requires 0 <= a < YEAR_10000 && 0 <= b < YEAR_10000
    ensures TextLess(Stamp(a), Stamp(b)) <==> a < b
    ensures Stamp(a) == Stamp(b) <==> a == b
  {
    hide Stamp, TextLess;
    if a < b {
      StampEarlier(a, b);
      TextLessAsymmetric(Stamp(a), Stamp(b));
    } else if b < a {
      StampEarlier(b, a);
      TextLessAsymmetric(Stamp(b), Stamp(a));
    } else if TextLess(Stamp(a), Stamp(b)) {
      TextLessAsymmetric(Stamp(a), Stamp(b));
    }
  }

  /** One instant per text. */
  lemma StampInjective(a: int, b: int)
    requires 0 <= a < YEAR_10000 && 0 <= b < YEAR_10000 && Stamp(a) == Stamp(b)
    ensures a == b
  {
    StampOrder(a, b);
  }

  predicate FieldsOk(t: Date, c: Clock) {
    0 <= t.y < 10_000 && 0 <= t.m < 100 && 0 <= t.d < 100 && c.hh < 100 && c.mm < 100 && c.ss < 100 && c.ms < 1_000
  }

  function Fields(t: Date, c: Clock): string
    requires FieldsOk(t, c)
  {
    FixedDigits(t.y, 4) + ['-'] + (FixedDigits(t.m, 2) + ['-']) + (FixedDigits(t.d, 2) + ['T'])
    + (FixedDigits(c.hh, 2) + [':']) + (FixedDigits(c.mm, 2) + [':']) + (FixedDigits(c.ss, 2) + ['.'])
    + (FixedDigits(c.ms, 3) + ['Z'])
  }

  lemma FieldsAt(s: string, t: Date, c: Clock)
    requires FieldsOk(t, c) && s == Fields(t, c)
    ensures |s| == 24
    ensures s[0..4] == FixedDigits(t.y, 4) && s[5..7] == FixedDigits(t.m, 2) && s[8..10] == FixedDigits(t.d, 2)
    ensures s[11..13] == FixedDigits(c.hh, 2) && s[14..16] == FixedDigits(c.mm, 2)
    ensures s[17..19] == FixedDigits(c.ss, 2) && s[20..23] == FixedDigits(c.ms, 3)
    ensures s[4] == '-' && s[7] == '-' && s[10] == 'T' && s[13] == ':' && s[16] == ':' && s[19] == '.' && s[23] == 'Z'
  {
    hide FixedDigits;
  }
}
