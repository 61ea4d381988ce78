/** RRULE text: ParseRRULE (internal/product/recurrence.go) and buildRRULE (internal/web/handlers.go).
    White space and letter case are those of ASCII. */
module Rrule {
  import opened ByteStrings
  import opened Basics
  import opened Calendar
  import opened Recurrence

  // ----- Text -----

  predicate Space(c: byte)
  {
    c == ' ' || '\t' <= c <= '\r'
  }

  function TrimLeft(s: Bytes): Bytes
  {
    if s != [] && Space(s[0]) then TrimLeft(s[1..]) else s
  }

  function TrimRight(s: Bytes): Bytes
  {
    if s != [] && Space(s[|s| - 1]) then TrimRight(s[..|s| - 1]) else s
  }

  function TrimSpace(s: Bytes): Bytes
  {
    TrimRight(TrimLeft(s))
  }

  function UpperByte(c: byte): byte
  {
    if 'a' <= c <= 'z' then c - 'a' + 'A' else c
  }

  function LowerByte(c: byte): byte
  {
    if 'A' <= c <= 'Z' then c - 'A' + 'a' else c
  }

  function ToUpper(s: Bytes): Bytes
  {
    seq(|s|, i requires 0 <= i < |s| => UpperByte(s[i]))
  }

  function ToLower(s: Bytes): Bytes
  {
    seq(|s|, i requires 0 <= i < |s| => LowerByte(s[i]))
  }

  /** The pieces of `s` between occurrences of `sep`. */
  function Split(s: Bytes, sep: byte): (r: seq<Bytes>)
    ensures |r| > 0
  {
    if s == [] then [[]]
    else
      var rest := Split(s[1..], sep);
      if s[0] == sep then [[]] + rest else [[s[0]] + rest[0]] + rest[1..]
  }

  function Join(parts: seq<Bytes>, sep: byte): Bytes
  {
    if parts == [] then []
    else if |parts| == 1 then parts[0]
    else parts[0] + [sep] + Join(parts[1..], sep)
  }

  /** The text before and after the first `sep`, where there is one. */
  function SplitOnce(s: Bytes, sep: byte): Option<(Bytes, Bytes)>
  {
    if s == [] then None
    else if s[0] == sep then Some(([], s[1..]))
    else
      var rest := SplitOnce(s[1..], sep);
      if rest.Some? then Some(([s[0]] + rest.value.0, rest.value.1)) else None
  }

  // ----- Numbers -----

  const MAX_INT64 := 0x7fff_ffff_ffff_ffff
  const MAX_UINT64 := 0xffff_ffff_ffff_ffff

  predicate IsDigit(c: byte)
  {
    '0' <= c <= '9'
  }

  function DigitValue(c: byte): int
  {
    c as int - '0' as int
  }

  datatype Unsigned = Number(n: nat) | BadSyntax | TooLarge

  /** strconv.ParseUint: the first fault met from the left decides. */
  function ParseUint(s: Bytes): Unsigned
  {
    if s == [] then Number(0)
    else
      var before, c := ParseUint(s[..|s| - 1]), s[|s| - 1];
      if !before.Number? then before
      else if !IsDigit(c) then BadSyntax
      else if 10 * before.n + DigitValue(c) > MAX_UINT64 then TooLarge
      else Number(10 * before.n + DigitValue(c))
  }

  function Signed(negative: bool, n: nat): int
  {
    var m: int := n;
    if negative then -m else m
  }

  /** strconv.Atoi: the value, and whether there was no error. */
  function Atoi(s: Bytes): (int, bool)
  {
    var signed := s != [] && (s[0] == '+' || s[0] == '-');
    var negative := s != [] && s[0] == '-';
    var digits := if signed then s[1..] else s;
    var u := ParseUint(digits);
    if digits == [] || u.BadSyntax? then (0, false)
    else if !negative && (u.TooLarge? || u.n > MAX_INT64) then (MAX_INT64, false)
    else if negative && (u.TooLarge? || u.n > MAX_INT64 + 1) then (-MAX_INT64 - 1, false)
    else (Signed(negative, u.n), true)
  }

  predicate Digits(s: Bytes)
  {
    forall c <- s :: IsDigit(c)
  }

  lemma {:induction false} DecimalDigits(n: nat)
    ensures Digits(Decimal(n)) && Decimal(n) != []
  {
    if n >= 10 {
      DecimalDigits(n / 10);
    }
  }

  lemma {:induction false} ParseDecimal(n: nat)
    requires n <= MAX_UINT64
    ensures ParseUint(Decimal(n)) == Number(n)
  {
    if n >= 10 {
      ParseDecimal(n / 10);
      assert Decimal(n)[..|Decimal(n)| - 1] == Decimal(n / 10);
    } else {
      var c: byte := ('0' as int + n) as char;
      assert [c][..0] == [];
      assert ParseUint([]) == Number(0);
    }
  }

  /** A count is read back from its decimal form. */
  lemma AtoiOfItoa(n: nat)
    requires n <= MAX_INT64
    ensures Atoi(Decimal(n)) == (n, true)
  {
    DecimalDigits(n);
    ParseDecimal(n);
    assert IsDigit(Decimal(n)[0]) by {
      assert Decimal(n)[0] in Decimal(n);
    }
  }

  // ----- Dates -----

  function DigitsValue(s: Bytes): int
  {
    if s == [] then 0 else 10 * DigitsValue(s[..|s| - 1]) + DigitValue(s[|s| - 1])
  }

  function Checked(y: int, m: int, d: int): Option<Date>
  {
    if ValidDate(Date(y, m, d)) then Some(Date(y, m, d)) else None
  }

  /** The layout 2006-01-02. */
  function ParseDashed(s: Bytes): Option<Date>
  {
    if |s| == 10 && s[4] == '-' && s[7] == '-' && Digits(s[..4] + s[5..7] + s[8..]) then
      Checked(DigitsValue(s[..4]), DigitsValue(s[5..7]), DigitsValue(s[8..]))
    else None
  }

  /** The layout 20060102. */
  function ParseCompact(s: Bytes): Option<Date>
  {
    if |s| == 8 && Digits(s) then Checked(DigitsValue(s[..4]), DigitsValue(s[4..6]), DigitsValue(s[6..]))
    else None
  }

  function Padded(n: nat, width: nat): Bytes
  {
    if width == 0 then [] else Padded(n / 10, width - 1) + [('0' as int + n % 10) as char]
  }

  /** Format("20060102"), for the years of four digits. */
  function FormatCompact(d: Date): Bytes
    requires 0 <= d.year && 0 <= d.month && 0 <= d.day
  {
    Padded(d.year, 4) + Padded(d.month, 2) + Padded(d.day, 2)
  }

  function LeadingDigits(s: Bytes): nat
  {
    if s != [] && IsDigit(s[0]) then 1 + LeadingDigits(s[1..]) else 0
  }

  /** A fraction of a second, which time.Parse takes after the seconds of any layout: nine digits count. */
  function Fraction(s: Bytes): (int, Bytes)
  {
    if |s| >= 2 && (s[0] == '.' || s[0] == ',') && IsDigit(s[1]) then
      LeadingFits(s[1..]);
      var n := LeadingDigits(s[1..]);
      var nine := (s[1..][..n] + "000000000")[..9];
      (DigitsValue(nine), s[1..][n..])
    else (0, s)
  }

  lemma {:induction false} LeadingFits(s: Bytes)
    ensures LeadingDigits(s) <= |s| && Digits(s[..LeadingDigits(s)])
  {
    if s != [] && IsDigit(s[0]) {
      LeadingFits(s[1..]);
      assert s[..LeadingDigits(s)] == [s[0]] + s[1..][..LeadingDigits(s[1..])];
    }
  }

  /** The layouts 20060102T150405Z and 20060102T150405. */
  function ParseDateTime(s: Bytes, zulu: bool): Option<int>
  {
    if |s| < 15 || s[8] != 'T' || !Digits(s[9..15]) then None
    else
      var date := ParseCompact(s[..8]);
      var hour, minute, second := DigitsValue(s[9..11]), DigitsValue(s[11..13]), DigitsValue(s[13..15]);
      var (nanos, rest) := Fraction(s[15..]);
      if date.None? || hour >= 24 || minute >= 60 || second >= 60 then None
      else if rest != (if zulu then "Z" else "") then None
      else Some(At(DayNumber(date.value), (3600 * hour + 60 * minute + second) * SECOND + nanos))
  }

  /** parseICSDate. */
  function ParseICSDate(text: Bytes): Option<int>
  {
    var s := TrimSpace(text);
    var date := ParseCompact(s);
    if |s| == 8 && date.Some? then Some(At(DayNumber(date.value), 0))
    else if ParseDateTime(s, true).Some? then ParseDateTime(s, true)
    else ParseDateTime(s, false)
  }

  lemma {:induction false} PaddedDigits(n: nat, width: nat)
    ensures |Padded(n, width)| == width && Digits(Padded(n, width))
  {
    if width > 0 {
      PaddedDigits(n / 10, width - 1);
    }
  }

  lemma PaddedTwo(n: nat)
    requires n < 100
    ensures DigitsValue(Padded(n, 2)) == n
  {
    PaddedStep(n, 1);
    PaddedStep(n / 10, 0);
    assert DigitsValue([]) == 0;
  }

  lemma PaddedStep(n: nat, width: nat)
    ensures DigitsValue(Padded(n, width + 1)) == 10 * DigitsValue(Padded(n / 10, width)) + n % 10
  {
    var s := Padded(n, width + 1);
    assert s[..|s| - 1] == Padded(n / 10, width);
  }

  lemma PaddedFour(n: nat)
    requires n < 10000
    ensures DigitsValue(Padded(n, 4)) == n
  {
    PaddedStep(n, 3);
    PaddedStep(n / 10, 2);
    PaddedTwo(n / 100);
    assert n / 10 / 10 == n / 100;
  }

  /** A date of a four-digit year is read back from its compact form. */
  lemma CompactRoundTrip(d: Date)
    requires ValidDate(d) && 0 <= d.year < 10000
    ensures 0 <= d.month && 0 <= d.day
    ensures ParseCompact(FormatCompact(d)) == Some(d)
    ensures Digits(FormatCompact(d)) && |FormatCompact(d)| == 8
  {
    hide DigitsValue, Padded, Digits, ParseCompact, ValidDate;
    DateFits(d);
    var y, m, n := Padded(d.year, 4), Padded(d.month, 2), Padded(d.day, 2);
    PaddedDigits(d.year, 4);
    PaddedDigits(d.month, 2);
    PaddedDigits(d.day, 2);
    PaddedFour(d.year);
    PaddedTwo(d.month);
    PaddedTwo(d.day);
    ParseGlued(y, m, n);
  }

  lemma DateFits(d: Date)
    requires ValidDate(d)
    ensures 1 <= d.month <= 12 && 1 <= d.day <= 31
  {
    hide Leap;
  }

  lemma ParseGlued(y: Bytes, m: Bytes, n: Bytes)
    requires |y| == 4 && |m| == 2 && |n| == 2 && Digits(y) && Digits(m) && Digits(n)
    ensures |y + m + n| == 8 && Digits(y + m + n)
    ensures ParseCompact(y + m + n) == Checked(DigitsValue(y), DigitsValue(m), DigitsValue(n))
  {
    var s := y + m + n;
    assert s[..4] == y && s[4..6] == m && s[6..] == n;
    hide DigitsValue, Checked;
  }

  // ----- ParseRRULE -----

  datatype RuleError =
    | EmptyRule
    | UnsupportedFreq(text: Bytes)
    | InvalidCount(text: Bytes)
    | InvalidUntil(text: Bytes)
    | InvalidInterval(text: Bytes)
    | FreqRequired

  datatype Outcome = Parsed(p: Pattern) | Refused(error: RuleError)

  predicate KnownFreq(f: Bytes)
  {
    f == "DAILY" || f == "WEEKLY" || f == "MONTHLY"
  }

  predicate IsDayCode(d: Bytes)
  {
    d == "SU" || d == "MO" || d == "TU" || d == "WE" || d == "TH" || d == "FR" || d == "SA"
  }

  /** The day codes of a list, unknown ones skipped. */
  function DayCodes(items: seq<Bytes>): seq<Bytes>
  {
    if items == [] then []
    else
      var d := ToUpper(TrimSpace(items[|items| - 1]));
      DayCodes(items[..|items| - 1]) + (if IsDayCode(d) then [d] else [])
  }

  /** What one KEY=value part does to the pattern. */
  function ReadPart(p: Pattern, part: Bytes): Outcome
  {
    var kv := SplitOnce(part, '=');
    if kv.None? then Parsed(p)
    else
      var key, val := ToUpper(TrimSpace(kv.value.0)), TrimSpace(kv.value.1);
      if key == "FREQ" then
        if KnownFreq(ToUpper(val)) then Parsed(p.(freq := ToUpper(val))) else Refused(UnsupportedFreq(val))
      else if key == "COUNT" then
        var (n, ok) := Atoi(val);
        if !ok || n < 1 then Refused(InvalidCount(val)) else Parsed(p.(count := n))
      else if key == "UNTIL" then
        var t := ParseICSDate(val);
        if t.None? then Refused(InvalidUntil(val)) else Parsed(p.(until := t))
      else if key == "BYDAY" then
        Parsed(p.(byDay := p.byDay + DayCodes(Split(val, ','))))
      else if key == "INTERVAL" then
        var (n, ok) := Atoi(val);
        if !ok || n < 1 then Refused(InvalidInterval(val)) else Parsed(p.(interval := n))
      else Parsed(p)
  }

  const BLANK := Pattern("", 0, None, [], 1)

  /** The parts read from the left; the first error stops. */
  function ReadParts(parts: seq<Bytes>): Outcome
  {
    if parts == [] then Parsed(BLANK)
    else
      var before := ReadParts(parts[..|parts| - 1]);
      if before.Refused? then before else ReadPart(before.p, parts[|parts| - 1])
  }

  function ParseRule(text: Bytes): Outcome
  {
    var rule := TrimSpace(text);
    if rule == "" then Refused(EmptyRule)
    else
      var r := ReadParts(Split(rule, ';'));
      if r.Parsed? && r.p.freq == "" then Refused(FreqRequired) else r
  }

  method ReadDays(val: Bytes, have: seq<Bytes>) returns (days: seq<Bytes>)
    ensures days == have + DayCodes(Split(val, ','))
  {
    days := have;
    var items := Split(val, ',');
    assert items[..0] == [] && have + [] == have;
    for i := 0 to |items|
      invariant days == have + DayCodes(items[..i])
    {
      hide Split, TrimSpace, ToUpper, IsDayCode;
      var d := ToUpper(TrimSpace(items[i]));
      assert items[..i + 1][..i] == items[..i];
      if IsDayCode(d) {
        days := days + [d];
      }
    }
    assert items[..|items|] == items;
  }

  lemma {:induction false} FirstErrorStops(parts: seq<Bytes>, i: nat)
    requires i <= |parts| && ReadParts(parts[..i]).Refused?
    ensures ReadParts(parts) == ReadParts(parts[..i])
    decreases |parts| - i
  {
    if i == |parts| {
      assert parts[..i] == parts;
    } else {
      assert parts[..i + 1][..i] == parts[..i];
      FirstErrorStops(parts, i + 1);
    }
  }

  method ParseRRULE(text: Bytes) returns (r: Outcome)
    ensures r == ParseRule(text)
  {
    var rule := TrimSpace(text);
    if rule == "" {
      return Refused(EmptyRule);
    }
    var pattern := BLANK;
    var parts := Split(rule, ';');
    for i := 0 to |parts|
      invariant ReadParts(parts[..i]) == Parsed(pattern)
    {
      assert parts[..i + 1][..i] == parts[..i];
      var read := ParsePart(pattern, parts[i]);
      if read.Refused? {
        FirstErrorStops(parts, i + 1);
        return read;
      }
      pattern := read.p;
    }
    assert parts[..|parts|] == parts;
    if pattern.freq == "" {
      return Refused(FreqRequired);
    }
    return Parsed(pattern);
  }

  method ParsePart(p: Pattern, part: Bytes) returns (r: Outcome)
    ensures r == ReadPart(p, part)
  {
    var kv := SplitOnce(part, '=');
    if kv.None? {
      return Parsed(p);
    }
    var key, val := ToUpper(TrimSpace(kv.value.0)), TrimSpace(kv.value.1);
    if key == "FREQ" {
      if !KnownFreq(ToUpper(val)) {
        return Refused(UnsupportedFreq(val));
      }
      return Parsed(p.(freq := ToUpper(val)));
    } else if key == "COUNT" {
      var (n, ok) := Atoi(val);
      if !ok || n < 1 {
        return Refused(InvalidCount(val));
      }
      return Parsed(p.(count := n));
    } else if key == "UNTIL" {
      var t := ParseICSDate(val);
      if t.None? {
        return Refused(InvalidUntil(val));
      }
      return Parsed(p.(until := t));
    } else if key == "BYDAY" {
      var days := ReadDays(val, p.byDay);
      return Parsed(p.(byDay := days));
    } else if key == "INTERVAL" {
      var (n, ok) := Atoi(val);
      if !ok || n < 1 {
        return Refused(InvalidInterval(val));
      }
      return Parsed(p.(interval := n));
    }
    return Parsed(p);
  }

  predicate AllDayCodes(codes: seq<Bytes>)
  {
    forall d <- codes :: IsDayCode(d)
  }

  lemma {:induction false} DayCodesAreCodes(items: seq<Bytes>)
    ensures AllDayCodes(DayCodes(items))
  {
    hide ToUpper, TrimSpace, IsDayCode;
    if items != [] {
      DayCodesAreCodes(items[..|items| - 1]);
    }
  }

  /** A part never leaves the pattern with a frequency or day code the expansion does not know. */
  lemma PartKeepsUsable(p: Pattern, part: Bytes)
    requires (p.freq == "" || KnownFreq(p.freq)) && AllDayCodes(p.byDay) && ReadPart(p, part).Parsed?
    ensures var q := ReadPart(p, part).p; (q.freq == "" || KnownFreq(q.freq)) && AllDayCodes(q.byDay)
  {
    var kv := SplitOnce(part, '=');
    if kv.Some? {
      DayCodesAreCodes(Split(TrimSpace(kv.value.1), ','));
    }
    hide ToUpper, TrimSpace, IsDayCode, Split, SplitOnce, DayCodes, KnownFreq, Atoi, ParseICSDate;
  }

  lemma {:induction false} PartsKeepUsable(parts: seq<Bytes>)
    requires ReadParts(parts).Parsed?
    ensures var q := ReadParts(parts).p; (q.freq == "" || KnownFreq(q.freq)) && AllDayCodes(q.byDay)
  {
    hide ReadPart, KnownFreq, AllDayCodes;
    if parts == [] {
      NoDayCodes();
    } else {
      PartsKeepUsable(parts[..|parts| - 1]);
      PartKeepsUsable(ReadParts(parts[..|parts| - 1]).p, parts[|parts| - 1]);
    }
  }

  lemma NoDayCodes()
    ensures AllDayCodes([])
  {
  }

  /** Whatever text is accepted, the pattern has one of the three frequencies and only day codes of the
      table, so no code is read as Sunday by default. */
  lemma ParsedIsUsable(text: Bytes)
    requires ParseRule(text).Parsed?
    ensures KnownFreq(ParseRule(text).p.freq) && AllDayCodes(ParseRule(text).p.byDay)
  {
    hide ReadParts, KnownFreq, AllDayCodes, Split, TrimSpace;
    PartsKeepUsable(Split(TrimSpace(text), ';'));
  }

  // ----- buildRRULE -----

  function FreqOf(kind: Bytes): Bytes
  {
    var k := ToLower(kind);
    if k == "daily" then "DAILY" else if k == "weekly" then "WEEKLY" else if k == "monthly" then "MONTHLY" else ""
  }

  /** weekdayToDayCode. */
  function DayCode(weekday: int): (r: Bytes)
    ensures 0 <= weekday < 7 ==> IsDayCode(r) && DayIndex(r) == weekday
    ensures r == "" || IsDayCode(r)
  {
    if weekday == 0 then "SU"
    else if weekday == 1 then "MO"
    else if weekday == 2 then "TU"
    else if weekday == 3 then "WE"
    else if weekday == 4 then "TH"
    else if weekday == 5 then "FR"
    else if weekday == 6 then "SA"
    else ""
  }

  /** The count asked for; 0 when the text is not a number. */
  function CountOf(countStr: Bytes): int
  {
    if countStr == "" then 0 else Atoi(countStr).0
  }

  /** One KEY=value part. */
  function Field(key: Bytes, val: Bytes): Bytes
  {
    key + "=" + val
  }

  function DayParts(kind: Bytes, startsAt: int): seq<Bytes>
  {
    if FreqOf(kind) == "WEEKLY" then [Field("BYDAY", DayCode(Weekday(startsAt)))] else []
  }

  function LimitParts(countStr: Bytes, endDate: Bytes): seq<Bytes>
  {
    if CountOf(countStr) > 0 then [Field("COUNT", Decimal(CountOf(countStr)))]
    else if ParseDashed(endDate).Some? then
      DashedYear(endDate);
      [Field("UNTIL", FormatCompact(ParseDashed(endDate).value))]
    else []
  }

  function Pow10(k: nat): (p: nat)
    ensures p > 0
  {
    if k == 0 then 1 else 10 * Pow10(k - 1)
  }

  lemma {:induction false} DigitsRange(s: Bytes)
    requires Digits(s)
    ensures 0 <= DigitsValue(s) < Pow10(|s|)
  {
    if s != [] {
      DigitsRange(s[..|s| - 1]);
      assert s[|s| - 1] in s;
    }
  }

  lemma DashedYear(s: Bytes)
    requires ParseDashed(s).Some?
    ensures 0 <= ParseDashed(s).value.year < 10000 && ValidDate(ParseDashed(s).value)
  {
    assert Digits(s[..4]) by {
      forall c | c in s[..4] ensures IsDigit(c) {
        assert c in s[..4] + s[5..7] + s[8..];
      }
    }
    DigitsRange(s[..4]);
    assert Pow10(4) == 10000 by {
      assert Pow10(2) == 100;
    }
  }

  /** The parts of the rule; none for an unsupported type. */
  function RuleParts(kind: Bytes, startsAt: int, countStr: Bytes, endDate: Bytes): seq<Bytes>
  {
    if FreqOf(kind) == "" then []
    else [Field("FREQ", FreqOf(kind))] + DayParts(kind, startsAt) + LimitParts(countStr, endDate)
  }

  method BuildRRULE(kind: Bytes, startsAt: int, countStr: Bytes, endDate: Bytes) returns (rule: Bytes)
    ensures rule == Join(RuleParts(kind, startsAt, countStr, endDate), ';')
  {
    assert Join([], ';') == "" && ParseDashed("").None?;
    hide ToLower, Weekday, Atoi, Decimal, FormatCompact, ParseDashed, DayCode, Join;
    var freq: Bytes := "";
    var byDay: Bytes := "";
    var k := ToLower(kind);
    if k == "daily" {
      freq := "DAILY";
    } else if k == "weekly" {
      freq := "WEEKLY";
      byDay := DayCode(Weekday(startsAt));
    } else if k == "monthly" {
      freq := "MONTHLY";
    } else {
      return "";
    }
    var parts: seq<Bytes> := [Field("FREQ", freq)];
    if byDay != "" {
      parts := parts + [Field("BYDAY", byDay)];
    }
    assert parts == [Field("FREQ", FreqOf(kind))] + DayParts(kind, startsAt);
    ghost var front := parts;
    var count := 0;
    if countStr != "" {
      count := Atoi(countStr).0;
    }
    if count > 0 {
      parts := parts + [Field("COUNT", Decimal(count))];
    } else if endDate != "" {
      var t := ParseDashed(endDate);
      if t.Some? {
        DashedYear(endDate);
        parts := parts + [Field("UNTIL", FormatCompact(t.value))];
      }
    }
    assert parts == front + LimitParts(countStr, endDate);
    rule := Join(parts, ';');
  }

  // ----- The round trip -----

  predicate Lacks(s: Bytes, c: byte)
  {
    c !in s
  }

  /** Text the parser takes as it is. */
  predicate Plain(s: Bytes)
  {
    forall c <- s :: !Space(c) && !('a' <= c <= 'z')
  }

  lemma {:induction false} SplitPlain(s: Bytes, sep: byte)
    requires Lacks(s, sep)
    ensures Split(s, sep) == [s]
  {
    if s != [] {
      SplitPlain(s[1..], sep);
      assert s == [s[0]] + s[1..];
    }
  }

  lemma {:induction false} SplitFirst(s: Bytes, sep: byte, rest: Bytes)
    requires Lacks(s, sep)
    ensures Split(s + [sep] + rest, sep) == [s] + Split(rest, sep)
  {
    var whole := s + [sep] + rest;
    if s == [] {
      assert whole[1..] == rest;
    } else {
      SplitFirst(s[1..], sep, rest);
      assert whole[1..] == s[1..] + [sep] + rest;
      assert [whole[0]] + s[1..] == s;
    }
  }

  /** Joined parts are split again, when none holds the separator. */
  lemma {:induction false} SplitJoin(parts: seq<Bytes>, sep: byte)
    requires parts != [] && forall p <- parts :: Lacks(p, sep)
    ensures Split(Join(parts, sep), sep) == parts
  {
    if |parts| == 1 {
      SplitPlain(parts[0], sep);
    } else {
      SplitJoin(parts[1..], sep);
      SplitFirst(parts[0], sep, Join(parts[1..], sep));
      assert parts == [parts[0]] + parts[1..];
    }
  }

  lemma {:induction false} SplitOnceFinds(key: Bytes, sep: byte, val: Bytes)
    requires Lacks(key, sep)
    ensures SplitOnce(key + [sep] + val, sep) == Some((key, val))
  {
    var whole := key + [sep] + val;
    if key == [] {
      assert whole[1..] == val;
    } else {
      SplitOnceFinds(key[1..], sep, val);
      assert whole[1..] == key[1..] + [sep] + val;
      assert [whole[0]] + key[1..] == key;
    }
  }

  lemma TrimPlain(s: Bytes)
    requires s == [] || (!Space(s[0]) && !Space(s[|s| - 1]))
    ensures TrimSpace(s) == s
  {
  }

  lemma PlainStays(s: Bytes)
    requires Plain(s)
    ensures TrimSpace(s) == s && ToUpper(s) == s
  {
    if s != [] {
      assert s[0] in s && s[|s| - 1] in s;
    }
    TrimPlain(s);
    forall i | 0 <= i < |s| ensures ToUpper(s)[i] == s[i] {
      var c := s[i];
      assert c in s;
      assert UpperByte(c) == c;
    }
  }

  /** A part with plain key and value is read as that key and value. */
  lemma PartSplits(key: Bytes, val: Bytes)
    requires Plain(key) && Plain(val) && Lacks(key, '=')
    ensures var kv := SplitOnce(Field(key, val), '=');
            && kv == Some((key, val))
            && ToUpper(TrimSpace(key)) == key && TrimSpace(val) == val && ToUpper(val) == val
  {
    SplitOnceFinds(key, '=', val);
    PlainStays(key);
    PlainStays(val);
  }

  lemma PlainKeys()
    ensures Plain("FREQ") && Plain("BYDAY") && Plain("COUNT") && Plain("UNTIL")
    ensures Lacks("FREQ", ';') && Lacks("BYDAY", ';') && Lacks("COUNT", ';') && Lacks("UNTIL", ';')
    ensures Lacks("FREQ", '=') && Lacks("BYDAY", '=') && Lacks("COUNT", '=') && Lacks("UNTIL", '=')
  {
  }

  lemma FreqIsPlain(freq: Bytes)
    requires KnownFreq(freq)
    ensures Plain(freq)
  {
  }

  lemma ReadFreq(p: Pattern, freq: Bytes)
    requires KnownFreq(freq)
    ensures ReadPart(p, Field("FREQ", freq)) == Parsed(p.(freq := freq))
  {
    PlainKeys();
    FreqIsPlain(freq);
    hide Plain, Lacks, TrimSpace, ToUpper, SplitOnce;
    PartSplits("FREQ", freq);
  }

  lemma ReadDay(p: Pattern, code: Bytes)
    requires IsDayCode(code)
    ensures ReadPart(p, Field("BYDAY", code)) == Parsed(p.(byDay := p.byDay + [code]))
  {
    PlainKeys();
    OneCode(code);
    hide Plain, Lacks, TrimSpace, ToUpper, SplitOnce, Split, DayCodes, IsDayCode;
    PartSplits("BYDAY", code);
  }

  lemma OneCode(code: Bytes)
    requires IsDayCode(code)
    ensures Plain(code) && Split(code, ',') == [code] && DayCodes([code]) == [code]
  {
    SplitPlain(code, ',');
    PlainStays(code);
    hide TrimSpace, ToUpper, Split;
    assert [code][..0] == [] && DayCodes([]) == [];
  }

  lemma DigitsArePlain(s: Bytes)
    requires Digits(s)
    ensures Plain(s) && Lacks(s, ';')
  {
  }

  lemma ReadCount(p: Pattern, n: nat)
    requires 1 <= n <= MAX_INT64
    ensures ReadPart(p, Field("COUNT", Decimal(n))) == Parsed(p.(count := n))
  {
    DecimalDigits(n);
    DigitsArePlain(Decimal(n));
    AtoiOfItoa(n);
    PlainKeys();
    hide Decimal, Atoi, Plain, Lacks, TrimSpace, ToUpper, SplitOnce;
    PartSplits("COUNT", Decimal(n));
  }

  lemma ReadUntil(p: Pattern, d: Date)
    requires ValidDate(d) && 0 <= d.year < 10000
    ensures ReadPart(p, Field("UNTIL", FormatCompact(d))) == Parsed(p.(until := Some(At(DayNumber(d), 0))))
  {
    var s := FormatCompact(d);
    CompactRoundTrip(d);
    DigitsArePlain(s);
    PlainStays(s);
    UntilIs(s, d);
    PlainKeys();
    hide FormatCompact, ParseICSDate, ParseCompact, Plain, Lacks, TrimSpace, ToUpper, SplitOnce;
    PartSplits("UNTIL", s);
  }

  lemma UntilIs(s: Bytes, d: Date)
    requires TrimSpace(s) == s && |s| == 8 && ParseCompact(s) == Some(d)
    ensures ParseICSDate(s) == Some(At(DayNumber(d), 0))
  {
    hide TrimSpace, ParseCompact;
  }

  lemma ReadAppend(parts: seq<Bytes>, x: Bytes)
    ensures ReadParts(parts + [x])
         == if ReadParts(parts).Refused? then ReadParts(parts) else ReadPart(ReadParts(parts).p, x)
  {
    assert (parts + [x])[..|parts + [x]| - 1] == parts;
  }

  /** What the form asks for. */
  function Intended(kind: Bytes, startsAt: int, countStr: Bytes, endDate: Bytes): Pattern
  {
    var count := CountOf(countStr);
    var end := ParseDashed(endDate);
    Pattern(
      FreqOf(kind),
      if count > 0 then count else 0,
      if count <= 0 && end.Some? then Some(At(DayNumber(end.value), 0)) else None,
      if FreqOf(kind) == "WEEKLY" then [DayCode(Weekday(startsAt))] else [],
      1)
  }

  lemma CountFits(s: Bytes)
    ensures CountOf(s) <= MAX_INT64
  {
  }

  lemma FrontRead(kind: Bytes, startsAt: int)
    requires FreqOf(kind) != ""
    ensures ReadParts([Field("FREQ", FreqOf(kind))] + DayParts(kind, startsAt))
         == Parsed(BLANK.(freq := FreqOf(kind),
                          byDay := if FreqOf(kind) == "WEEKLY" then [DayCode(Weekday(startsAt))] else []))
  {
    var freq, code := FreqOf(kind), DayCode(Weekday(startsAt));
    KnownOrNone(kind);
    hide ReadPart, DayCode, FreqOf, IsDayCode, KnownFreq, Field, Weekday;
    OneRead(Field("FREQ", freq));
    ReadFreq(BLANK, freq);
    ReadAppend([Field("FREQ", freq)], Field("BYDAY", code));
    ReadDay(BLANK.(freq := freq), code);
    assert [] + [code] == [code];
    assert [Field("FREQ", freq)] + [] == [Field("FREQ", freq)];
  }

  lemma KnownOrNone(kind: Bytes)
    ensures FreqOf(kind) != "" ==> KnownFreq(FreqOf(kind))
  {
    hide ToLower;
  }

  lemma OneRead(x: Bytes)
    ensures ReadParts([x]) == ReadPart(BLANK, x)
  {
    hide ReadPart;
    assert [x][..0] == [];
    assert ReadParts([]) == Parsed(BLANK);
  }

  lemma PartsRead(kind: Bytes, startsAt: int, countStr: Bytes, endDate: Bytes)
    requires FreqOf(kind) != ""
    ensures ReadParts(RuleParts(kind, startsAt, countStr, endDate))
         == Parsed(Intended(kind, startsAt, countStr, endDate))
  {
    hide ReadParts, DayCode, FreqOf, DayParts, LimitParts, Field, CountOf, ParseDashed, Weekday;
    FrontRead(kind, startsAt);
    var q := BLANK.(freq := FreqOf(kind),
                    byDay := if FreqOf(kind) == "WEEKLY" then [DayCode(Weekday(startsAt))] else []);
    LimitRead([Field("FREQ", FreqOf(kind))] + DayParts(kind, startsAt), q, countStr, endDate);
  }

  lemma LimitRead(parts: seq<Bytes>, p: Pattern, countStr: Bytes, endDate: Bytes)
    requires ReadParts(parts) == Parsed(p) && p.count == 0 && p.until.None?
    ensures var count, end := CountOf(countStr), ParseDashed(endDate);
            ReadParts(parts + LimitParts(countStr, endDate))
            == Parsed(p.(count := if count > 0 then count else 0,
                         until := if count <= 0 && end.Some? then Some(At(DayNumber(end.value), 0)) else None))
  {
    CountFits(countStr);
    hide ReadPart, ReadParts, CountOf, ParseDashed, Decimal, FormatCompact;
    var count, end := CountOf(countStr), ParseDashed(endDate);
    if count > 0 {
      ReadAppend(parts, Field("COUNT", Decimal(count)));
      ReadCount(p, count);
    } else if end.Some? {
      DashedYear(endDate);
      ReadAppend(parts, Field("UNTIL", FormatCompact(end.value)));
      ReadUntil(p, end.value);
    } else {
      assert parts + [] == parts;
    }
  }

  predicate Clean(parts: seq<Bytes>)
  {
    forall p <- parts :: Lacks(p, ';') && Plain(p)
  }

  lemma CleanPart(key: Bytes, val: Bytes)
    requires Plain(key) && Plain(val) && Lacks(key, ';') && Lacks(val, ';')
    ensures Clean([Field(key, val)])
  {
  }

  lemma CleanBoth(a: seq<Bytes>, b: seq<Bytes>)
    requires Clean(a) && Clean(b)
    ensures Clean(a + b)
  {
  }

  lemma LimitIsClean(countStr: Bytes, endDate: Bytes)
    ensures Clean(LimitParts(countStr, endDate))
  {
    PlainKeys();
    hide Decimal, FormatCompact, ParseDashed, CountOf, Clean, Plain, Lacks, Field;
    var count, end := CountOf(countStr), ParseDashed(endDate);
    if count > 0 {
      DecimalDigits(count);
      DigitsArePlain(Decimal(count));
      CleanPart("COUNT", Decimal(count));
    } else if end.Some? {
      DashedYear(endDate);
      CompactRoundTrip(end.value);
      DigitsArePlain(FormatCompact(end.value));
      CleanPart("UNTIL", FormatCompact(end.value));
    } else {
      NoneIsClean();
    }
  }

  lemma NoneIsClean()
    ensures Clean([])
  {
  }

  lemma KindIsPlain(kind: Bytes, weekday: int)
    ensures Plain(FreqOf(kind)) && Lacks(FreqOf(kind), ';')
    ensures Plain(DayCode(weekday)) && Lacks(DayCode(weekday), ';')
  {
    hide ToLower;
  }

  lemma PartsAreClean(kind: Bytes, startsAt: int, countStr: Bytes, endDate: Bytes)
    ensures Clean(RuleParts(kind, startsAt, countStr, endDate))
  {
    var freq, code := FreqOf(kind), DayCode(Weekday(startsAt));
    NoneIsClean();
    PlainKeys();
    KindIsPlain(kind, Weekday(startsAt));
    hide Clean, LimitParts, FreqOf, DayCode, Plain, Lacks, Field;
    CleanPart("FREQ", freq);
    CleanPart("BYDAY", code);
    LimitIsClean(countStr, endDate);
    CleanBoth([Field("FREQ", freq)], DayParts(kind, startsAt));
    CleanBoth([Field("FREQ", freq)] + DayParts(kind, startsAt), LimitParts(countStr, endDate));
  }

  lemma {:induction false} JoinPlain(parts: seq<Bytes>)
    requires parts != [] && Clean(parts)
    ensures Plain(Join(parts, ';'))
  {
    if |parts| > 1 {
      JoinPlain(parts[1..]);
      assert parts[0] in parts;
    }
  }

  /** Round trip. The rule built for a supported type is parsed back to what the form asked for: its
      frequency, its count or else its end date, the weekday of the start exactly for weekly rules, and
      interval 1. An unsupported type gives the empty rule, which is refused. */
  lemma RuleRoundTrip(kind: Bytes, startsAt: int, countStr: Bytes, endDate: Bytes)
    ensures var rule := Join(RuleParts(kind, startsAt, countStr, endDate), ';');
            ParseRule(rule) == if FreqOf(kind) == "" then Refused(EmptyRule)
                               else Parsed(Intended(kind, startsAt, countStr, endDate))
  {
    var parts := RuleParts(kind, startsAt, countStr, endDate);
    var rule := Join(parts, ';');
    if FreqOf(kind) == "" {
      PlainStays("");
    } else {
      assert parts[0] == Field("FREQ", FreqOf(kind)) && parts[0] != "";
      hide RuleParts, ReadParts, Split, TrimSpace, Plain, Lacks, Join, FreqOf, Intended;
      PartsAreClean(kind, startsAt, countStr, endDate);
      JoinPlain(parts);
      PlainStays(rule);
      SplitJoin(parts, ';');
      PartsRead(kind, startsAt, countStr, endDate);
      JoinNotEmpty(parts);
    }
  }

  lemma JoinNotEmpty(parts: seq<Bytes>)
    requires parts != [] && parts[0] != ""
    ensures Join(parts, ';') != ""
  {
  }

  // ----- Every pattern has a text -----

  /** Hour, minute and second. */
  function FormatClock(seconds: nat): Bytes
  {
    Padded(seconds / 3600, 2) + Padded(seconds / 60 % 60, 2) + Padded(seconds % 60, 2)
  }

  function Seconds(t: int): nat
  {
    ClockRange(t);
    ClockOf(t) / SECOND
  }

  lemma DayFits(t: int)
    ensures ValidDate(CivilOf(t)) && DayNumber(CivilOf(t)) == DayOf(t)
    ensures 1 <= CivilOf(t).month && 1 <= CivilOf(t).day
  {
    CivilIsDate(DayOf(t));
    hide Civil, DayNumber, DayOf;
    DateFits(CivilOf(t));
  }

  /** The layout 20060102T150405Z. */
  function FormatStamp(t: int): Bytes
    requires 0 <= CivilOf(t).year < 10000
  {
    DayFits(t);
    FormatCompact(CivilOf(t)) + "T" + FormatClock(Seconds(t)) + "Z"
  }

  /** A pattern the parser can give: known codes, machine integers, an end of four-digit year without a fraction
      of a second. */
  predicate Printable(p: Pattern)
  {
    && KnownFreq(p.freq) && AllDayCodes(p.byDay) && p.count <= MAX_INT64 && p.interval <= MAX_INT64
    && (p.until.Some? ==> 0 <= CivilOf(p.until.value).year < 10000 && Whole(p.until.value) == p.until.value)
  }

  function CountPart(p: Pattern): seq<Bytes>
  {
    if p.count > 0 then [Field("COUNT", Decimal(p.count))] else []
  }

  function UntilPart(p: Pattern): seq<Bytes>
    requires Printable(p)
  {
    if p.until.Some? then [Field("UNTIL", FormatStamp(p.until.value))] else []
  }

  function ByDayPart(p: Pattern): seq<Bytes>
  {
    if p.byDay != [] then [Field("BYDAY", Join(p.byDay, ','))] else []
  }

  /** The text of a pattern, as RFC 5545 writes it. */
  function PatternParts(p: Pattern): seq<Bytes>
    requires Printable(p)
  {
    [Field("FREQ", p.freq)] + [Field("INTERVAL", Decimal(p.interval))] + CountPart(p) + UntilPart(p) + ByDayPart(p)
  }

  lemma ClockParts(t: int)
    ensures var c := Seconds(t);
            && c / 3600 < 24 && c / 60 % 60 < 60 && c % 60 < 60
            && (3600 * (c / 3600) + 60 * (c / 60 % 60) + c % 60) * SECOND == ClockOf(t)
  {
    ClockRange(t);
    var x := ClockOf(t);
    hide ClockOf;
    assert x == x / SECOND * SECOND;
    ByUnits(x / SECOND);
  }

  lemma ByUnits(c: int)
    ensures 3600 * (c / 3600) + 60 * (c / 60 % 60) + c % 60 == c
  {
  }

  lemma StampPieces(date: Bytes, h: Bytes, m: Bytes, n: Bytes)
    requires |date| == 8 && |h| == 2 && |m| == 2 && |n| == 2
    ensures var s := date + "T" + (h + m + n) + "Z";
            && |s| == 16 && s[..8] == date && s[8] == 'T' && s[9..15] == h + m + n
            && s[9..11] == h && s[11..13] == m && s[13..15] == n && s[15..] == "Z"
  {
  }

  lemma NoFraction()
    ensures Fraction("Z") == (0, "Z")
  {
  }

  /** The clock after the date: hour, minute and second. */
  lemma StampParses(date: Bytes, h: Bytes, m: Bytes, n: Bytes, d: Date)
    requires |date| == 8 && ParseCompact(date) == Some(d)
    requires |h| == 2 && |m| == 2 && |n| == 2 && Digits(h + m + n)
    requires DigitsValue(h) < 24 && DigitsValue(m) < 60 && DigitsValue(n) < 60
    ensures ParseDateTime(date + "T" + (h + m + n) + "Z", true)
            == Some(At(DayNumber(d), (3600 * DigitsValue(h) + 60 * DigitsValue(m) + DigitsValue(n)) * SECOND))
  {
    hide ParseCompact, DigitsValue, At, DayNumber, Fraction, Digits;
    StampPieces(date, h, m, n);
    NoFraction();
  }

  lemma StampIsPlain(date: Bytes, clock: Bytes)
    requires Digits(date) && Digits(clock)
    ensures var s := date + "T" + clock + "Z"; Plain(s) && Lacks(s, ';')
  {
  }

  lemma ClockRoundTrip(t: int)
    ensures var c := Seconds(t);
            var h, m, n := Padded(c / 3600, 2), Padded(c / 60 % 60, 2), Padded(c % 60, 2);
            && FormatClock(c) == h + m + n && |h| == 2 && |m| == 2 && |n| == 2 && Digits(h + m + n)
            && DigitsValue(h) < 24 && DigitsValue(m) < 60 && DigitsValue(n) < 60
            && (3600 * DigitsValue(h) + 60 * DigitsValue(m) + DigitsValue(n)) * SECOND == ClockOf(t)
  {
    ClockParts(t);
    var c := Seconds(t);
    hide Seconds, ClockOf, Padded, DigitsValue, Digits;
    PaddedDigits(c / 3600, 2);
    PaddedDigits(c / 60 % 60, 2);
    PaddedDigits(c % 60, 2);
    PaddedTwo(c / 3600);
    PaddedTwo(c / 60 % 60);
    PaddedTwo(c % 60);
    ClockDigits(Padded(c / 3600, 2), Padded(c / 60 % 60, 2), Padded(c % 60, 2));
  }

  /** An instant of a four-digit year without a fraction of a second is read back from its text. */
  lemma StampRoundTrip(t: int)
    requires 0 <= CivilOf(t).year < 10000 && Whole(t) == t
    ensures Plain(FormatStamp(t)) && Lacks(FormatStamp(t), ';')
    ensures ParseICSDate(FormatStamp(t)) == Some(t)
  {
    hide *;
    var d, c, s := CivilOf(t), Seconds(t), FormatStamp(t);
    DayFits(t);
    CompactRoundTrip(d);
    StampIs(t);
    ClockRoundTrip(t);
    ClockRange(t);
    StampIsPlain(FormatCompact(d), FormatClock(c));
    PlainStays(s);
    StampParses(FormatCompact(d), Padded(c / 3600, 2), Padded(c / 60 % 60, 2), Padded(c % 60, 2), d);
    ZuluIs(s);
  }

  lemma StampIs(t: int)
    requires 0 <= CivilOf(t).year < 10000 && 0 <= CivilOf(t).month && 0 <= CivilOf(t).day
    ensures FormatStamp(t) == FormatCompact(CivilOf(t)) + "T" + FormatClock(Seconds(t)) + "Z"
    ensures |FormatStamp(t)| > 8
  {
    hide CivilOf, FormatClock, Seconds;
    PaddedDigits(CivilOf(t).year, 4);
    PaddedDigits(CivilOf(t).month, 2);
    PaddedDigits(CivilOf(t).day, 2);
    hide Padded;
  }

  lemma ClockDigits(h: Bytes, m: Bytes, n: Bytes)
    requires Digits(h) && Digits(m) && Digits(n)
    ensures Digits(h + m + n)
  {
  }

  lemma ZuluIs(s: Bytes)
    requires TrimSpace(s) == s && |s| != 8 && ParseDateTime(s, true).Some?
    ensures ParseICSDate(s) == ParseDateTime(s, true)
  {
    hide TrimSpace, ParseCompact, ParseDateTime;
  }

  lemma ReadInterval(p: Pattern, n: nat)
    requires 1 <= n <= MAX_INT64
    ensures ReadPart(p, Field("INTERVAL", Decimal(n))) == Parsed(p.(interval := n))
  {
    DecimalDigits(n);
    DigitsArePlain(Decimal(n));
    AtoiOfItoa(n);
    IntervalKey();
    hide Decimal, Atoi, Plain, Lacks, TrimSpace, ToUpper, SplitOnce;
    PartSplits("INTERVAL", Decimal(n));
  }

  lemma IntervalKey()
    ensures Plain("INTERVAL") && Lacks("INTERVAL", ';') && Lacks("INTERVAL", '=')
  {
  }

  lemma ReadUntilStamp(p: Pattern, t: int)
    requires 0 <= CivilOf(t).year < 10000 && Whole(t) == t
    ensures ReadPart(p, Field("UNTIL", FormatStamp(t))) == Parsed(p.(until := Some(t)))
  {
    StampRoundTrip(t);
    PlainKeys();
    hide FormatStamp, ParseICSDate, Plain, Lacks, TrimSpace, ToUpper, SplitOnce;
    PartSplits("UNTIL", FormatStamp(t));
  }

  lemma {:induction false} CodesJoined(codes: seq<Bytes>)
    requires codes != [] && AllDayCodes(codes)
    ensures Plain(Join(codes, ',')) && Lacks(Join(codes, ','), ';')
  {
    assert IsDayCode(codes[0]);
    if |codes| > 1 {
      CodesJoined(codes[1..]);
    }
  }

  lemma {:induction false} DayCodesStay(codes: seq<Bytes>)
    requires AllDayCodes(codes)
    ensures DayCodes(codes) == codes
  {
    hide *;
    if codes == [] {
      NoCodes();
    } else {
      var n := |codes| - 1;
      LastCode(codes);
      DayCodesStay(codes[..n]);
      assert codes == codes[..n] + [codes[n]];
    }
  }

  lemma NoCodes()
    ensures DayCodes([]) == []
  {
  }

  lemma LastCode(codes: seq<Bytes>)
    requires codes != [] && AllDayCodes(codes)
    ensures var n := |codes| - 1;
            AllDayCodes(codes[..n]) && DayCodes(codes) == DayCodes(codes[..n]) + [codes[n]]
  {
    var n := |codes| - 1;
    assert codes[n] in codes;
    OneCode(codes[n]);
    PlainStays(codes[n]);
    hide TrimSpace, ToUpper, IsDayCode, Plain;
  }

  lemma CodesLackCommas(codes: seq<Bytes>)
    requires AllDayCodes(codes)
    ensures forall c <- codes :: Lacks(c, ',')
  {
  }

  lemma ListSplits(codes: seq<Bytes>)
    requires codes != [] && AllDayCodes(codes)
    ensures Plain(Join(codes, ',')) && DayCodes(Split(Join(codes, ','), ',')) == codes
  {
    CodesLackCommas(codes);
    hide *;
    CodesJoined(codes);
    DayCodesStay(codes);
    SplitJoin(codes, ',');
  }

  /** A list of day codes is read as that list. */
  lemma ReadDayList(p: Pattern, codes: seq<Bytes>)
    requires codes != [] && AllDayCodes(codes)
    ensures ReadPart(p, Field("BYDAY", Join(codes, ','))) == Parsed(p.(byDay := p.byDay + codes))
  {
    ByDayKey();
    ListSplits(codes);
    hide AllDayCodes, Plain, Lacks, TrimSpace, ToUpper, SplitOnce, Split, DayCodes, Join, Atoi, ParseICSDate, KnownFreq;
    PartSplits("BYDAY", Join(codes, ','));
  }

  lemma ByDayKey()
    ensures Plain("BYDAY") && Lacks("BYDAY", '=')
  {
  }

  lemma PatternPartsRead(p: Pattern)
    requires Printable(p)
    ensures ReadParts(PatternParts(p)) == Parsed(p)
  {
    hide ReadPart, ReadParts, Field, Decimal, FormatStamp, Join, CivilOf, Whole, AllDayCodes, KnownFreq;
    var freq, interval := Field("FREQ", p.freq), Field("INTERVAL", Decimal(p.interval));
    var head := [freq] + [interval];
    var q := BLANK.(freq := p.freq, interval := p.interval);
    OneRead(freq);
    ReadFreq(BLANK, p.freq);
    ReadAppend([freq], interval);
    ReadInterval(BLANK.(freq := p.freq), p.interval);
    assert ReadParts(head) == Parsed(q);
    var counted := q.(count := p.count);
    if p.count > 0 {
      ReadAppend(head, Field("COUNT", Decimal(p.count)));
      ReadCount(q, p.count);
    } else {
      assert head + [] == head;
    }
    var head2 := head + CountPart(p);
    assert ReadParts(head2) == Parsed(counted);
    var ended := counted.(until := p.until);
    if p.until.Some? {
      ReadAppend(head2, Field("UNTIL", FormatStamp(p.until.value)));
      ReadUntilStamp(counted, p.until.value);
    } else {
      assert head2 + [] == head2;
    }
    var head3 := head2 + UntilPart(p);
    assert ReadParts(head3) == Parsed(ended);
    if p.byDay != [] {
      ReadAppend(head3, Field("BYDAY", Join(p.byDay, ',')));
      ReadDayList(ended, p.byDay);
      assert [] + p.byDay == p.byDay;
    } else {
      assert head3 + [] == head3;
    }
  }

  lemma PatternIsClean(p: Pattern)
    requires Printable(p)
    ensures Clean(PatternParts(p))
  {
    HeadIsClean(p);
    CountIsClean(p);
    UntilIsClean(p);
    ByDayIsClean(p);
    hide Clean, Field, Decimal, CountPart, UntilPart, ByDayPart, Printable;
    var head := [Field("FREQ", p.freq)] + [Field("INTERVAL", Decimal(p.interval))];
    CleanBoth(head, CountPart(p));
    CleanBoth(head + CountPart(p), UntilPart(p));
    CleanBoth(head + CountPart(p) + UntilPart(p), ByDayPart(p));
  }

  lemma HeadIsClean(p: Pattern)
    requires KnownFreq(p.freq)
    ensures Clean([Field("FREQ", p.freq)] + [Field("INTERVAL", Decimal(p.interval))])
  {
    PlainKeys();
    IntervalKey();
    FreqIsPlain(p.freq);
    assert Lacks(p.freq, ';');
    hide *;
    DecimalDigits(p.interval);
    DigitsArePlain(Decimal(p.interval));
    CleanPart("FREQ", p.freq);
    CleanPart("INTERVAL", Decimal(p.interval));
    CleanBoth([Field("FREQ", p.freq)], [Field("INTERVAL", Decimal(p.interval))]);
  }

  lemma CountIsClean(p: Pattern)
    ensures Clean(CountPart(p))
  {
    NoneIsClean();
    PlainKeys();
    hide Clean, Plain, Lacks, Field, Decimal, Digits;
    DecimalDigits(p.count);
    DigitsArePlain(Decimal(p.count));
    CleanPart("COUNT", Decimal(p.count));
  }

  lemma UntilIsClean(p: Pattern)
    requires Printable(p)
    ensures Clean(UntilPart(p))
  {
    NoneIsClean();
    PlainKeys();
    hide Clean, Plain, Lacks, Field, FormatStamp, CivilOf, Whole, AllDayCodes, KnownFreq;
    if p.until.Some? {
      StampRoundTrip(p.until.value);
      CleanPart("UNTIL", FormatStamp(p.until.value));
    }
  }

  lemma ByDayIsClean(p: Pattern)
    requires AllDayCodes(p.byDay)
    ensures Clean(ByDayPart(p))
  {
    NoneIsClean();
    PlainKeys();
    hide Clean, Plain, Lacks, Field, Join, AllDayCodes;
    if p.byDay != [] {
      CodesJoined(p.byDay);
      CleanPart("BYDAY", Join(p.byDay, ','));
    }
  }

  /** Every pattern the parser can give is the reading of a text: its frequency, interval, count, end to the
      second and day list, all together. */
  lemma PatternRoundTrip(p: Pattern)
    requires Printable(p)
    ensures ParseRule(Join(PatternParts(p), ';')) == Parsed(p)
  {
    var parts := PatternParts(p);
    var text := Join(parts, ';');
    assert parts[0] == Field("FREQ", p.freq) && parts[0] != "" && p.freq != "";
    hide PatternParts, ReadParts, Split, TrimSpace, Plain, Lacks, Join, Printable;
    PatternIsClean(p);
    JoinPlain(parts);
    PlainStays(text);
    SplitJoin(parts, ';');
    PatternPartsRead(p);
    JoinNotEmpty(parts);
  }

  // ----- Which numbers are accepted -----

  lemma {:induction false} ParseUintExactly(s: Bytes)
    ensures ParseUint(s).Number? <==> Digits(s) && DigitsValue(s) <= MAX_UINT64
    ensures ParseUint(s).Number? ==> ParseUint(s).n == DigitsValue(s)
  {
    if s != [] {
      var n := |s| - 1;
      ParseUintExactly(s[..n]);
      assert s == s[..n] + [s[n]];
      assert Digits(s) <==> Digits(s[..n]) && IsDigit(s[n]) by {
        DigitsSnoc(s[..n], s[n]);
      }
      if Digits(s) {
        DigitsRange(s[..n]);
      }
      hide Digits;
    }
  }

  lemma DigitsSnoc(s: Bytes, c: byte)
    ensures Digits(s + [c]) <==> Digits(s) && IsDigit(c)
  {
    assert c in s + [c];
  }

  /** The text of a positive number of 63 bits: digits, after a plus sign if there is one. */
  predicate IsCount(s: Bytes)
  {
    var digits := Unsign(s);
    digits != [] && Digits(digits) && 1 <= DigitsValue(digits) <= 0x7fff_ffff_ffff_ffff
  }

  function Unsign(s: Bytes): Bytes
  {
    if s != [] && s[0] == '+' then s[1..] else s
  }

  lemma AtoiExactly(s: Bytes)
    ensures Atoi(s).1 && Atoi(s).0 >= 1 <==> IsCount(s)
    ensures IsCount(s) ==> Atoi(s).0 == DigitsValue(Unsign(s))
  {
    var digits := if s != [] && (s[0] == '+' || s[0] == '-') then s[1..] else s;
    ParseUintExactly(digits);
    if s != [] && s[0] == '-' {
      assert s[0] in s;
    }
    hide DigitsValue;
  }

  /** COUNT and INTERVAL are accepted exactly with such a number, whatever text they carry. */
  lemma NumbersExactly(p: Pattern, val: Bytes)
    ensures var v := TrimSpace(val);
            && ReadPart(p, Field("COUNT", val))
               == (if IsCount(v) then Parsed(p.(count := DigitsValue(Unsign(v)))) else Refused(InvalidCount(v)))
            && ReadPart(p, Field("INTERVAL", val))
               == (if IsCount(v) then Parsed(p.(interval := DigitsValue(Unsign(v)))) else Refused(InvalidInterval(v)))
  {
    AtoiExactly(TrimSpace(val));
    PlainKeys();
    IntervalKey();
    hide Plain, Lacks, TrimSpace, ToUpper, SplitOnce, Atoi, DigitsValue, Split, DayCodes, ParseICSDate, Unsign;
    SplitOnceFinds("COUNT", '=', val);
    PlainStays("COUNT");
    SplitOnceFinds("INTERVAL", '=', val);
    PlainStays("INTERVAL");
    assert IsCount(TrimSpace(val)) ==> DigitsValue(Unsign(TrimSpace(val))) >= 1;
  }

  // ----- From the form to the instants -----

  /** The series a weekly form expands to starts with the start, whenever that is a whole second not
      after the end, and every instant of it falls on the start's weekday at the start's clock. */
  lemma WeeklyFormStartsAtStart(kind: Bytes, startsAt: int, countStr: Bytes, endDate: Bytes, until: int, r: seq<int>)
    requires FreqOf(kind) == "WEEKLY"
    requires var p := Intended(kind, startsAt, countStr, endDate); Expansion(p, startsAt, until, r)
    ensures (r != [] && r[0] == startsAt) <==>
            startsAt <= EffectiveEnd(Intended(kind, startsAt, countStr, endDate), until) && Whole(startsAt) == startsAt
    ensures forall t <- r :: Weekday(t) == Weekday(startsAt) && ClockOf(t) == ClockOf(startsAt)
  {
    var p, code := Intended(kind, startsAt, countStr, endDate), DayCode(Weekday(startsAt));
    hide Weekday, Whole, ClockOf, Expansion, ParseDashed, CountOf, FreqOf;
    assert p.byDay[0] == code;
    assert OnDays(p.byDay, Weekday(startsAt));
    if Whole(startsAt) == startsAt {
      SortedDaysLead(p.byDay, startsAt, EffectiveEnd(p, until));
    }
    StartComesFirst(p, startsAt, until, r);
    forall t | t in r ensures Weekday(t) == Weekday(startsAt) && ClockOf(t) == ClockOf(startsAt) {
      OneDay(p, startsAt, until, r, t);
    }
  }

  lemma OneDay(p: Pattern, start: int, until: int, r: seq<int>, t: int)
    requires p.freq == "WEEKLY" && |p.byDay| == 1 && Expansion(p, start, until, r) && t in r
    ensures Weekday(t) == DayIndex(p.byDay[0]) && ClockOf(t) == ClockOf(start)
  {
    hide Weekday, Whole, ClockOf, DayIndex, Kept, Sunday;
    KeptExactly(p.byDay, p.interval, start, EffectiveEnd(p, until), t);
  }

  /** The end date bounds the series at its midnight: of that day itself an instance remains only at
      00:00:00. */
  lemma EndDateEndsAtMidnight(kind: Bytes, startsAt: int, countStr: Bytes, endDate: Bytes, until: int, r: seq<int>)
    requires FreqOf(kind) != "" && CountOf(countStr) <= 0 && ParseDashed(endDate).Some?
    requires Expansion(Intended(kind, startsAt, countStr, endDate), startsAt, until, r)
    ensures forall t <- r :: t <= At(DayNumber(ParseDashed(endDate).value), 0)
  {
    var p := Intended(kind, startsAt, countStr, endDate);
    OneDaySorted(kind, startsAt, countStr, endDate);
    hide Expansion, Intended, FreqOf, ParseDashed, CountOf;
    ExpansionIsOrdered(p, startsAt, until, r);
  }

  lemma OneDaySorted(kind: Bytes, startsAt: int, countStr: Bytes, endDate: Bytes)
    requires FreqOf(kind) != ""
    ensures Supported(Intended(kind, startsAt, countStr, endDate))
  {
    hide ParseDashed, CountOf, DayCode;
  }
}
