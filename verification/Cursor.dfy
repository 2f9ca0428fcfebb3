/** The opaque page cursor: unpadded URL-safe base64 (RFC 4648 section 5) of an RFC 3339 timestamp
    (section 5.6), a bar and a ULID; printing and reading, and what reading recovers. */
module Cursor {
  import opened Base
  import opened Decimals

  // ----- Base64, URL alphabet, no padding -----

  type Sextet = n: nat | n < 64

  function Alphabet(n: Sextet): char {
    if n < 26 then ('A' as int + n) as char
    else if n < 52 then ('a' as int + (n - 26)) as char
    else if n < 62 then ('0' as int + (n - 52)) as char
    else if n == 62 then '-' else '_'
  }

  function SextetOf(c: char): (r: Option<nat>)
    ensures r.Some? ==> r.value < 64
  {
    if 'A' <= c <= 'Z' then Some(c as int - 'A' as int)
    else if 'a' <= c <= 'z' then Some(c as int - 'a' as int + 26)
    else if '0' <= c <= '9' then Some(c as int - '0' as int + 52)
    else if c == '-' then Some(62)
    else if c == '_' then Some(63) else None
  }

  lemma {:induction false} AlphabetReadsBack(n: Sextet)
    ensures SextetOf(Alphabet(n)) == Some(n)
    ensures Alphabet(n) != '\n' && Alphabet(n) != '\r'
  {
  }

  /** Text whose characters are bytes. */
  type Octets = s: string | forall i :: 0 <= i < |s| ==> (s[i] as int) < 256

  function Three(a: byte, b: byte, c: byte): (r: string)
    ensures |r| == 4
  {
    [Alphabet(a / 4), Alphabet(a % 4 * 16 + b / 16), Alphabet(b % 16 * 4 + c / 64), Alphabet(c % 64)]
  }

  function Encode(s: Octets): string {
    if s == "" then ""
    else
      var a := s[0] as int;
      if |s| == 1 then [Alphabet(a / 4), Alphabet(a % 4 * 16)]
      else
        var b := s[1] as int;
        if |s| == 2 then [Alphabet(a / 4), Alphabet(a % 4 * 16 + b / 16), Alphabet(b % 16 * 4)]
        else Three(a, b, s[2] as int) + Encode(s[3..])
  }

  function Byte(n: nat): char
    requires n < 256
  {
    n as char
  }

  /** Groups of four characters, the last of two or three; spare bits of the last are ignored. */
  function DecodeGroups(t: string): (r: Option<string>)
    ensures r.Some? ==> forall i :: 0 <= i < |r.value| ==> (r.value[i] as int) < 256
    decreases |t|, 1
  {
    if t == "" then Some("")
    else if |t| == 1 then None
    else
      match (SextetOf(t[0]), SextetOf(t[1]))
      case (Some(p), Some(q)) =>
        var first := Byte(p * 4 + q / 16);
        if |t| == 2 then Some([first]) else DecodeRest(t, first, q)
      case _ => None
  }

  function DecodeRest(t: string, first: char, q: nat): (r: Option<string>)
    requires q < 64 && |t| > 2 && (first as int) < 256
    ensures r.Some? ==> forall i :: 0 <= i < |r.value| ==> (r.value[i] as int) < 256
    decreases |t|, 0
  {
    match SextetOf(t[2])
    case None => None
    case Some(u) =>
      var second := Byte(q % 16 * 16 + u / 4);
      if |t| == 3 then Some([first, second])
      else
        match SextetOf(t[3])
        case None => None
        case Some(v) =>
          match DecodeGroups(t[4..])
          case None => None
          case Some(rest) => Some([first, second, Byte(u % 4 * 64 + v)] + rest)
  }

  /** Go's decoder skips line breaks. */
  function WithoutBreaks(t: string): string {
    if t == "" then "" else if t[0] == '\n' || t[0] == '\r' then WithoutBreaks(t[1..])
    else [t[0]] + WithoutBreaks(t[1..])
  }

  function Decode(t: string): Option<string> {
    DecodeGroups(WithoutBreaks(t))
  }

  lemma {:induction false} GroupReadsBack(a: byte, b: byte, c: byte)
    ensures a / 4 * 4 + (a % 4 * 16 + b / 16) / 16 == a
    ensures (a % 4 * 16 + b / 16) % 16 * 16 + (b % 16 * 4 + c / 64) / 4 == b
    ensures (b % 16 * 4 + c / 64) % 4 * 64 + c % 64 == c
  {
  }

  lemma {:induction false} ThreeReadBack(a: byte, b: byte, c: byte, rest: string)
    ensures DecodeGroups(Three(a, b, c) + rest)
         == (match DecodeGroups(rest) case None => None case Some(r) => Some([a as char, b as char, c as char] + r))
  {
    var t := Three(a, b, c) + rest;
    AlphabetReadsBack(a / 4);
    AlphabetReadsBack(a % 4 * 16 + b / 16);
    AlphabetReadsBack(b % 16 * 4 + c / 64);
    AlphabetReadsBack(c % 64);
    GroupReadsBack(a, b, c);
    assert t[4..] == rest;
  }

  lemma {:induction false} OneReadsBack(a: byte)
    ensures DecodeGroups([Alphabet(a / 4), Alphabet(a % 4 * 16)]) == Some([a as char])
  {
    AlphabetReadsBack(a / 4);
    AlphabetReadsBack(a % 4 * 16);
  }

  lemma {:induction false} TwoReadBack(a: byte, b: byte)
    ensures DecodeGroups([Alphabet(a / 4), Alphabet(a % 4 * 16 + b / 16), Alphabet(b % 16 * 4)])
       == Some([a as char, b as char])
  {
    AlphabetReadsBack(a / 4);
    AlphabetReadsBack(a % 4 * 16 + b / 16);
    AlphabetReadsBack(b % 16 * 4);
  }

  lemma {:induction false} ShortReadsBack(s: Octets)
    requires 1 <= |s| <= 2
    ensures DecodeGroups(Encode(s)) == Some(s)
  {
    if |s| == 1 {
      OneReadsBack(s[0] as int);
      assert s == [s[0]];
    } else {
      TwoReadBack(s[0] as int, s[1] as int);
      assert s == [s[0], s[1]];
    }
  }

  lemma {:induction false} GroupsReadBack(s: Octets)
    ensures DecodeGroups(Encode(s)) == Some(s)
  {
    if 1 <= |s| <= 2 {
      ShortReadsBack(s);
    } else if |s| > 2 {
      GroupsReadBack(s[3..]);
      ThreeReadBack(s[0] as int, s[1] as int, s[2] as int, Encode(s[3..]));
      assert Encode(s) == Three(s[0] as int, s[1] as int, s[2] as int) + Encode(s[3..]);
      assert s == [s[0], s[1], s[2]] + s[3..];
    }
  }

  predicate NoBreaks(t: string) {
    forall i :: 0 <= i < |t| ==> t[i] != '\n' && t[i] != '\r'
  }

  lemma {:induction false} EncodedHasNoBreaks(s: Octets)
    ensures NoBreaks(Encode(s))
  {
    if |s| == 1 {
      AlphabetReadsBack(s[0] as int / 4);
    } else if |s| == 2 {
    } else if |s| > 2 {
      EncodedHasNoBreaks(s[3..]);
    }
  }

  lemma {:induction false} NothingToSkip(t: string)
    requires NoBreaks(t)
    ensures WithoutBreaks(t) == t
  {
    if t != "" {
      NothingToSkip(t[1..]);
    }
  }

  /** Decoding what was encoded gives the bytes back, for every byte string. */
  lemma {:induction false} Base64ReadsBack(s: Octets)
    ensures Decode(Encode(s)) == Some(s)
  {
    EncodedHasNoBreaks(s);
    NothingToSkip(Encode(s));
    GroupsReadBack(s);
  }

  predicate EndsIn(t: string, unit: nat)
    requires unit > 0
  {
    t != "" && SextetOf(t[|t| - 1]).Some? && SextetOf(t[|t| - 1]).value % unit == 0
  }

  /** `t` is as short as a text of `n` bytes can be, without padding, and the bits of its last character that
      belong to no byte are zero. */
  predicate IsCanonical(t: string, n: nat) {
    && 3 * |t| <= 4 * n + 2 < 3 * |t| + 3
    && (n % 3 == 1 ==> EndsIn(t, 16))
    && (n % 3 == 2 ==> EndsIn(t, 4))
  }

  lemma {:induction false} LongerIsCanonical(front: string, t: string, n: nat)
    requires |front| == 4 && IsCanonical(t, n)
    ensures IsCanonical(front + t, n + 3)
  {
    assert (n + 3) % 3 == n % 3;
    assert t != "" ==> (front + t)[|front + t| - 1] == t[|t| - 1];
  }

  lemma {:induction false} OneIsCanonical(a: byte)
    ensures IsCanonical([Alphabet(a / 4), Alphabet(a % 4 * 16)], 1)
  {
    AlphabetReadsBack(a % 4 * 16);
  }

  lemma {:induction false} TwoAreCanonical(a: byte, b: byte)
    ensures IsCanonical([Alphabet(a / 4), Alphabet(a % 4 * 16 + b / 16), Alphabet(b % 16 * 4)], 2)
  {
    AlphabetReadsBack(b % 16 * 4);
  }

  lemma {:induction false} EncodingIsCanonical(s: Octets)
    ensures IsCanonical(Encode(s), |s|)
  {
    if |s| == 1 {
      OneIsCanonical(s[0] as int);
    } else if |s| == 2 {
      TwoAreCanonical(s[0] as int, s[1] as int);
    } else if |s| > 2 {
      EncodingIsCanonical(s[3..]);
      LongerIsCanonical(Three(s[0] as int, s[1] as int, s[2] as int), Encode(s[3..]), |s| - 3);
    }
  }

  // ----- Fixed-width fields -----

  /** A number of `width` digits at position `at`, within bounds. */
  function Field(s: string, at: nat, width: nat, low: nat, high: nat): Option<nat>
    requires at + width <= |s|
  {
    if !AllDigits(s[at..at + width]) then None
    else
      var n := Number(s[at..at + width]);
      if low <= n <= high then Some(n) else None
  }

  lemma {:induction false} FieldReadsBack(pre: string, value: nat, width: nat, post: string, low: nat, high: nat)
    requires low <= value <= high && value < Power10(width)
    ensures |pre| + width <= |pre + Digits(value, width) + post|
    ensures Field(pre + Digits(value, width) + post, |pre|, width, low, high) == Some(value)
  {
    var s := pre + Digits(value, width) + post;
    assert s[|pre|..|pre| + width] == Digits(value, width);
    DigitsReadBack(value, width);
  }

  // ----- Timestamps -----

  /** A Go time as its calendar fields in its own zone; `offset` is seconds east of UTC. */
  datatype Stamp = Stamp(year: nat, month: nat, day: nat, hour: nat, minute: nat, second: nat, nano: nat, offset: int)

  predicate LeapYear(y: nat) {
    y % 4 == 0 && (y % 100 != 0 || y % 400 == 0)
  }

  function DaysIn(month: nat, year: nat): nat {
    if month == 2 then (if LeapYear(year) then 29 else 28)
    else if month == 4 || month == 6 || month == 9 || month == 11 then 30 else 31
  }

  /** Fields a four-digit timestamp can carry. */
  predicate Printable(t: Stamp) {
    && t.year <= 9999 && 1 <= t.month <= 12 && 1 <= t.day <= DaysIn(t.month, t.year)
    && t.hour <= 23 && t.minute <= 59 && t.second <= 59 && t.nano < 1_000_000_000
    && -86400 < t.offset < 86400
  }

  /** Days before a month of a common year. */
  function DaysBefore(month: nat): nat {
    if month <= 1 then 0 else if month == 2 then 31 else if month == 3 then 59 else if month == 4 then 90
    else if month == 5 then 120 else if month == 6 then 151 else if month == 7 then 181 else if month == 8 then 212
    else if month == 9 then 243 else if month == 10 then 273 else if month == 11 then 304 else 334
  }

  /** Days since 1970-01-01 in the proleptic Gregorian calendar. */
  function DayNumber(year: nat, month: nat, day: nat): int {
    var y := year - 1;
    365 * y + y / 4 - y / 100 + y / 400 - 719162
    + DaysBefore(month) + (if month > 2 && LeapYear(year) then 1 else 0) + day - 1
  }

  function InstantOf(t: Stamp): Time {
    (DayNumber(t.year, t.month, t.day) * 86400 + t.hour * 3600 + t.minute * 60 + t.second - t.offset) * 1_000_000_000
    + t.nano
  }

  const ZERO_INSTANT: Time := -62135596800 * 1_000_000_000

  /** The day after, as a calendar shows it. */
  function NextDay(t: Stamp): Stamp {
    if t.day < DaysIn(t.month, t.year) then t.(day := t.day + 1)
    else if t.month < 12 then t.(month := t.month + 1, day := 1)
    else t.(year := t.year + 1, month := 1, day := 1)
  }

  /** The second after, as a clock shows it. */
  function NextSecond(t: Stamp): Stamp {
    if t.second < 59 then t.(second := t.second + 1)
    else if t.minute < 59 then t.(minute := t.minute + 1, second := 0)
    else if t.hour < 23 then t.(hour := t.hour + 1, minute := 0, second := 0)
    else NextDay(t).(hour := 0, minute := 0, second := 0)
  }

  lemma {:induction false} MonthsAddUp(month: nat, year: nat)
    requires 1 <= month < 12
    ensures DaysBefore(month + 1) + (if month + 1 > 2 && LeapYear(year) then 1 else 0)
         == DaysBefore(month) + (if month > 2 && LeapYear(year) then 1 else 0) + DaysIn(month, year)
  {
  }

  lemma {:induction false} Quotients(n: int)
    ensures n / 4 == (n - 1) / 4 + (if n % 4 == 0 then 1 else 0)
    ensures n / 100 == (n - 1) / 100 + (if n % 100 == 0 then 1 else 0)
    ensures n / 400 == (n - 1) / 400 + (if n % 400 == 0 then 1 else 0)
  {
  }

  lemma {:induction false} CenturiesDivide(n: int)
    ensures n % 400 == 0 ==> n % 100 == 0
    ensures n % 100 == 0 ==> n % 4 == 0
  {
    if n % 400 == 0 {
      var k := 4 * (n / 400);
      assert n == 100 * k;
    }
    if n % 100 == 0 {
      var k := 25 * (n / 100);
      assert n == 4 * k;
    }
  }

  lemma {:induction false} YearsAddUp(year: nat)
    ensures DayNumber(year + 1, 1, 1) == DayNumber(year, 12, 31) + 1
  {
    Quotients(year);
    CenturiesDivide(year);
    var y: int := year;
    var before := (y - 1) / 4 - (y - 1) / 100 + (y - 1) / 400;
    assert y / 4 - y / 100 + y / 400 == before + (if LeapYear(year) then 1 else 0);
    assert DayNumber(year, 12, 31) == 365 * (y - 1) + before - 719162 + 334 + (if LeapYear(year) then 1 else 0) + 30;
  }

  lemma {:induction false} DaysCount(t: Stamp)
    requires Printable(t)
    ensures var n := NextDay(t); DayNumber(n.year, n.month, n.day) == DayNumber(t.year, t.month, t.day) + 1
  {
    if t.month < 12 {
      MonthsAddUp(t.month, t.year);
    } else {
      YearsAddUp(t.year);
    }
  }

  function SecondOfDay(t: Stamp): nat {
    t.hour * 3600 + t.minute * 60 + t.second
  }

  lemma {:induction false} InstantIs(t: Stamp, day: int)
    requires day == DayNumber(t.year, t.month, t.day)
    ensures InstantOf(t) == (day * 86400 + SecondOfDay(t) - t.offset) * 1_000_000_000 + t.nano
  {
  }

  lemma {:induction false} SecondsAddUp(t: Stamp)
    requires t.hour <= 23 && t.minute <= 59 && t.second <= 59
    ensures SecondOfDay(t) < 86399 ==>
      var n := NextSecond(t);
      SecondOfDay(n) == SecondOfDay(t) + 1 && n == t.(hour := n.hour, minute := n.minute, second := n.second)
    ensures SecondOfDay(t) == 86399 ==> NextSecond(t) == NextDay(t).(hour := 0, minute := 0, second := 0)
    ensures SecondOfDay(t) <= 86399
  {
  }

  /** Instants count what the clock ticks off, leap years and all: a second more for the next one it shows. */
  lemma {:induction false} InstantsCount(t: Stamp)
    requires Printable(t)
    ensures InstantOf(NextSecond(t)) == InstantOf(t) + 1_000_000_000
  {
    var n := NextSecond(t);
    DaysCount(t);
    SecondsAddUp(t);
    InstantIs(t, DayNumber(t.year, t.month, t.day));
    InstantIs(n, DayNumber(n.year, n.month, n.day));
  }

  lemma {:induction false} YearStarts(t: Stamp, quarters: int, centuries: int, rounds: int)
    requires t.year >= 1 && t == Stamp(t.year, 1, 1, 0, 0, 0, 0, 0)
    requires 0 <= t.year - 1 - 4 * quarters < 4 && 0 <= t.year - 1 - 100 * centuries < 100
    requires 0 <= t.year - 1 - 400 * rounds < 400
    ensures InstantOf(t)
         == (365 * (t.year - 1) + quarters - centuries + rounds - 719162) * 86400 * 1_000_000_000
  {
    assert quarters == (t.year - 1) / 4 && centuries == (t.year - 1) / 100 && rounds == (t.year - 1) / 400;
    InstantIs(t, DayNumber(t.year, t.month, t.day));
  }

  /** Counting starts in 1970; the zero time is the first of January of year one. */
  lemma {:induction false} InstantsStart(t: Stamp)
    requires t == Stamp(t.year, 1, 1, 0, 0, 0, 0, 0) && (t.year == 1970 || t.year == 1)
    ensures InstantOf(t) == if t.year == 1970 then 0 else ZERO_INSTANT
  {
    if t.year == 1970 {
      YearStarts(t, 492, 19, 4);
    } else {
      YearStarts(t, 0, 0, 0);
    }
  }

  function Trim(s: string): string {
    if s != "" && s[|s| - 1] == '0' then Trim(s[..|s| - 1]) else s
  }

  /** Nine digits with trailing zeros dropped; nothing at all for a whole second. */
  function PrintFraction(nano: nat): string {
    var digits := Trim(Digits(nano, 9));
    if digits == "" then "" else "." + digits
  }

  /** Whole minutes: Go divides the offset by 60 towards zero. */
  function ZoneMinutes(offset: int): int {
    if offset < 0 then -(-offset / 60) else offset / 60
  }

  function PrintZone(offset: int): string {
    if offset == 0 then "Z"
    else
      var m := ZoneMinutes(offset);
      var a := if m < 0 then -m else m;
      [if m < 0 then '-' else '+'] + Digits(a / 60, 2) + ":" + Digits(a % 60, 2)
  }

  function PrintDay(t: Stamp): (r: string)
    ensures |r| == 10
  {
    Digits(t.year, 4) + "-" + Digits(t.month, 2) + "-" + Digits(t.day, 2)
  }

  function PrintClock(t: Stamp): (r: string)
    ensures |r| == 8
  {
    Digits(t.hour, 2) + ":" + Digits(t.minute, 2) + ":" + Digits(t.second, 2)
  }

  function PrintDate(t: Stamp): (r: string)
    ensures |r| == 19
  {
    PrintDay(t) + "T" + PrintClock(t)
  }

  function PrintTime(t: Stamp): string {
    PrintDate(t) + PrintFraction(t.nano) + PrintZone(t.offset)
  }

  /** The length of the run of digits that begins `s`. */
  function DigitRun(s: string): (n: nat)
    ensures n <= |s| && AllDigits(s[..n])
    ensures n < |s| ==> !IsDigit(s[n])
  {
    if s == "" || !IsDigit(s[0]) then 0 else 1 + DigitRun(s[1..])
  }

  function Zeros(n: nat): (r: string)
    ensures |r| == n && AllDigits(r)
  {
    if n == 0 then "" else Zeros(n - 1) + "0"
  }

  /** Nanoseconds from a run of fraction digits: padded to nine, or the first nine. */
  function FractionValue(digits: string): nat
    requires AllDigits(digits)
  {
    if |digits| <= 9 then Number(digits + Zeros(9 - |digits|)) else Number(digits[..9])
  }

  /** A fraction is a point followed by at least one digit. */
  function SplitFraction(s: string): (nat, string) {
    if |s| >= 2 && s[0] == '.' && IsDigit(s[1]) then
      var n := DigitRun(s[1..]);
      (FractionValue(s[1..][..n]), s[1..][n..])
    else (0, s)
  }

  function ReadZone(s: string): Option<int> {
    if s == "Z" then Some(0)
    else if |s| != 6 || (s[0] != '+' && s[0] != '-') || s[3] != ':' then None
    else
      match (Field(s, 1, 2, 0, 23), Field(s, 4, 2, 0, 59))
      case (Some(h), Some(m)) =>
        var seconds: int := (h * 60 + m) * 60;
        Some(if s[0] == '-' then -seconds else seconds)
      case _ => None
  }

  /** The first nineteen characters: the date and time of day. */
  function ReadDate(s: string): Option<Stamp>
    requires |s| >= 19
  {
    if s[4] != '-' || s[7] != '-' || s[10] != 'T' || s[13] != ':' || s[16] != ':' then None
    else
      match (Field(s, 0, 4, 0, 9999), Field(s, 5, 2, 1, 12), Field(s, 11, 2, 0, 23), Field(s, 14, 2, 0, 59),
             Field(s, 17, 2, 0, 59))
      case (Some(y), Some(mo), Some(h), Some(mi), Some(sec)) =>
        (match Field(s, 8, 2, 1, DaysIn(mo, y))
         case Some(d) => Some(Stamp(y, mo, d, h, mi, sec, 0, 0))
         case None => None)
      case _ => None
  }

  function ReadTime(s: string): Option<Stamp> {
    if |s| < 19 then None
    else
      match ReadDate(s)
      case None => None
      case Some(date) =>
        var (nano, zone) := SplitFraction(s[19..]);
        match ReadZone(zone)
        case None => None
        case Some(offset) => Some(date.(nano := nano, offset := offset))
  }

  lemma {:induction false} SmallPowers()
    ensures Power10(2) == 100 && Power10(4) == 10000
  {
    assert Power10(1) == 10 && Power10(3) == 1000;
  }

  lemma {:induction false} DayReadsBack(t: Stamp, s: string)
    requires Printable(t) && |s| >= 10 && s[..10] == PrintDay(t)
    ensures s[4] == '-' && s[7] == '-'
    ensures Field(s, 0, 4, 0, 9999) == Some(t.year) && Field(s, 5, 2, 1, 12) == Some(t.month)
    ensures Field(s, 8, 2, 1, DaysIn(t.month, t.year)) == Some(t.day)
  {
    SmallPowers();
    var p5 := Digits(t.year, 4) + "-";
    var p8 := p5 + Digits(t.month, 2) + "-";
    assert s == s[..10] + s[10..];
    assert s[4] == s[..10][4] && s[7] == s[..10][7];
    DatePart(s, "", t.year, 4, s[4..], 0, 9999);
    DatePart(s, p5, t.month, 2, s[7..], 1, 12);
    DatePart(s, p8, t.day, 2, s[10..], 1, DaysIn(t.month, t.year));
  }

  lemma {:induction false} ClockReadsBack(t: Stamp, s: string)
    requires Printable(t) && |s| >= 19 && s[11..19] == PrintClock(t)
    ensures s[13] == ':' && s[16] == ':'
    ensures Field(s, 11, 2, 0, 23) == Some(t.hour) && Field(s, 14, 2, 0, 59) == Some(t.minute)
    ensures Field(s, 17, 2, 0, 59) == Some(t.second)
  {
    SmallPowers();
    var p14 := s[..11] + Digits(t.hour, 2) + ":";
    var p17 := p14 + Digits(t.minute, 2) + ":";
    assert s == s[..11] + s[11..19] + s[19..];
    assert s[13] == s[11..19][2] && s[16] == s[11..19][5];
    DatePart(s, s[..11], t.hour, 2, s[13..], 0, 23);
    DatePart(s, p14, t.minute, 2, s[16..], 0, 59);
    DatePart(s, p17, t.second, 2, s[19..], 0, 59);
  }

  lemma {:induction false} DateReadsBack(t: Stamp, rest: string)
    requires Printable(t)
    ensures ReadDate(PrintDate(t) + rest) == Some(t.(nano := 0, offset := 0))
  {
    var s := PrintDate(t) + rest;
    assert s[..10] == PrintDay(t) && s[10] == 'T' && s[11..19] == PrintClock(t);
    DayReadsBack(t, s);
    ClockReadsBack(t, s);
  }

  lemma {:induction false} DatePart(s: string, pre: string, value: nat, width: nat, post: string, low: nat, high: nat)
    requires s == pre + Digits(value, width) + post
    requires low <= value <= high && value < Power10(width)
    ensures |pre| + width <= |s| && Field(s, |pre|, width, low, high) == Some(value)
  {
    FieldReadsBack(pre, value, width, post, low, high);
  }

  lemma {:induction false} TrimPads(s: string)
    ensures |Trim(s)| <= |s| && Trim(s) + Zeros(|s| - |Trim(s)|) == s
    ensures AllDigits(s) ==> AllDigits(Trim(s))
  {
    if s != "" && s[|s| - 1] == '0' {
      var f := s[..|s| - 1];
      TrimPads(f);
      assert s == f + "0";
      assert Zeros(|s| - |Trim(s)|) == Zeros(|f| - |Trim(f)|) + "0";
    }
  }

  lemma {:induction false} RunEnds(digits: string, rest: string)
    requires AllDigits(digits) && (rest == "" || !IsDigit(rest[0]))
    ensures DigitRun(digits + rest) == |digits|
  {
    if digits != "" {
      assert (digits + rest)[1..] == digits[1..] + rest;
      RunEnds(digits[1..], rest);
    }
  }

  lemma {:induction false} SplitPrinted(digits: string, zone: string)
    requires digits != "" && AllDigits(digits) && (zone == "" || !IsDigit(zone[0]))
    ensures SplitFraction("." + digits + zone) == (FractionValue(digits), zone)
  {
    var s := "." + digits + zone;
    assert s[1..] == digits + zone;
    RunEnds(digits, zone);
    DropPrefix(digits, zone);
    assert s[1] == digits[0];
  }

  /** Trailing zeros carry no value. */
  lemma {:induction false} TrimmedValue(nano: nat)
    requires nano < 1_000_000_000
    ensures AllDigits(Trim(Digits(nano, 9))) && FractionValue(Trim(Digits(nano, 9))) == nano
  {
    TrimPads(Digits(nano, 9));
    NinePower();
    DigitsReadBack(nano, 9);
  }

  lemma {:induction false} FractionReadsBack(nano: nat, zone: string)
    requires nano < 1_000_000_000 && zone != "" && !IsDigit(zone[0]) && zone[0] != '.'
    ensures SplitFraction(PrintFraction(nano) + zone) == (nano, zone)
  {
    var digits := Trim(Digits(nano, 9));
    TrimmedValue(nano);
    if digits == "" {
      assert PrintFraction(nano) + zone == zone;
      AllZeros(9);
      assert "" + Zeros(9) == Zeros(9);
    } else {
      SplitPrinted(digits, zone);
    }
  }

  lemma {:induction false} NinePower()
    ensures Power10(9) == 1_000_000_000
  {
    assert Power10(3) == 1000;
    assert Power10(6) == 1_000_000;
  }

  lemma {:induction false} AllZeros(n: nat)
    ensures Number(Zeros(n)) == 0
  {
    if n > 0 {
      AllZeros(n - 1);
      assert Zeros(n)[..n - 1] == Zeros(n - 1);
    }
  }

  lemma {:induction false} SignedZoneReadsBack(sign: char, h: nat, m: nat)
    requires (sign == '+' || sign == '-') && h <= 23 && m <= 59
    ensures ReadZone([sign] + Digits(h, 2) + ":" + Digits(m, 2))
         == Some(if sign == '-' then -((h * 60 + m) * 60) else (h * 60 + m) * 60)
  {
    SmallPowers();
    var s := [sign] + Digits(h, 2) + ":" + Digits(m, 2);
    DatePart(s, [sign], h, 2, s[3..], 0, 23);
    DatePart(s, [sign] + Digits(h, 2) + ":", m, 2, "", 0, 59);
  }

  lemma {:induction false} ZoneReadsBack(offset: int)
    requires -86400 < offset < 86400
    ensures ReadZone(PrintZone(offset)) == Some(ZoneMinutes(offset) * 60)
    ensures PrintZone(offset) != "" && !IsDigit(PrintZone(offset)[0]) && PrintZone(offset)[0] != '.'
  {
    if offset != 0 {
      var m := ZoneMinutes(offset);
      var a: nat := if m < 0 then -m else m;
      SignedZoneReadsBack(if m < 0 then '-' else '+', a / 60, a % 60);
      assert a == a / 60 * 60 + a % 60;
    }
  }

  /** Reading a printed time gives every field back, except that an offset loses its odd seconds. */
  lemma {:induction false} TimeReadsBack(t: Stamp)
    requires Printable(t)
    ensures ReadTime(PrintTime(t)) == Some(t.(offset := ZoneMinutes(t.offset) * 60))
  {
    var tail := PrintFraction(t.nano) + PrintZone(t.offset);
    var s := PrintTime(t);
    assert s == PrintDate(t) + tail && s[19..] == tail;
    DateReadsBack(t, tail);
    ZoneReadsBack(t.offset);
    FractionReadsBack(t.nano, PrintZone(t.offset));
  }

  /** So the instant survives exactly when the zone's offset is a whole number of minutes. */
  lemma {:induction false} InstantSurvives(t: Stamp)
    requires Printable(t)
    ensures ReadTime(PrintTime(t)).Some?
    ensures InstantOf(ReadTime(PrintTime(t)).value) == InstantOf(t) <==> t.offset % 60 == 0
  {
    TimeReadsBack(t);
    OffsetShifts(t, ZoneMinutes(t.offset) * 60);
    WholeMinutes(t.offset);
  }

  lemma {:induction false} OffsetShifts(t: Stamp, offset: int)
    ensures InstantOf(t.(offset := offset)) == InstantOf(t) + (t.offset - offset) * 1_000_000_000
  {
    var day := DayNumber(t.year, t.month, t.day) * 86400;
    assert InstantOf(t) == (day + t.hour * 3600 + t.minute * 60 + t.second - t.offset) * 1_000_000_000 + t.nano;
  }

  lemma {:induction false} WholeMinutes(offset: int)
    ensures ZoneMinutes(offset) * 60 == offset <==> offset % 60 == 0
  {
  }

  // ----- ULIDs -----

  /** Crockford's base 32, in either case. */
  predicate IsCrockford(c: char) {
    IsDigit(c) || (('A' <= c <= 'Z' || 'a' <= c <= 'z') && c !in "ILOUilou")
  }

  /** What ParseStrict accepts: 26 characters that do not overflow 128 bits. */
  predicate IsUlid(s: string) {
    |s| == 26 && (forall i :: 0 <= i < 26 ==> IsCrockford(s[i])) && '0' <= s[0] <= '7'
  }

  // ----- The cursor -----

  datatype Position = Position(at: Time, id: Id)

  /** The position of `bar` when it occurs exactly once. */
  function SplitOnce(s: string, bar: char): Option<(string, string)> {
    if s == "" then None
    else if s[0] == bar then (if bar in s[1..] then None else Some(("", s[1..])))
    else match SplitOnce(s[1..], bar)
         case None => None
         case Some((l, r)) => Some(([s[0]] + l, r))
  }

  lemma {:induction false} SplitJoined(l: string, r: string, bar: char)
    requires bar !in l && bar !in r
    ensures SplitOnce(l + [bar] + r, bar) == Some((l, r))
  {
    var s := l + [bar] + r;
    if l == "" {
      assert s[1..] == r;
    } else {
      assert s[1..] == l[1..] + [bar] + r;
      SplitJoined(l[1..], r, bar);
      assert l == [l[0]] + l[1..];
    }
  }

  predicate Plain(s: string) {
    forall i :: 0 <= i < |s| ==> (s[i] as int) < 128 && s[i] != '|'
  }

  lemma {:induction false} DigitsPlain(s: string)
    requires AllDigits(s)
    ensures Plain(s)
  {
    forall i | 0 <= i < |s| ensures (s[i] as int) < 128 && s[i] != '|' {
      assert IsDigit(s[i]);
    }
  }

  lemma {:induction false} DatePlain(t: Stamp)
    ensures Plain(PrintDate(t))
  {
    DigitsPlain(Digits(t.year, 4));
    DigitsPlain(Digits(t.month, 2));
    DigitsPlain(Digits(t.day, 2));
    DigitsPlain(Digits(t.hour, 2));
    DigitsPlain(Digits(t.minute, 2));
    DigitsPlain(Digits(t.second, 2));
  }

  lemma {:induction false} TimePlain(t: Stamp)
    ensures Plain(PrintTime(t))
  {
    DatePlain(t);
    TrimPads(Digits(t.nano, 9));
    DigitsPlain(Trim(Digits(t.nano, 9)));
    assert Plain(PrintFraction(t.nano));
    ZonePlain(t.offset);
  }

  lemma {:induction false} ZonePlain(offset: int)
    ensures Plain(PrintZone(offset))
  {
    if offset != 0 {
      var m := ZoneMinutes(offset);
      var a := if m < 0 then -m else m;
      DigitsPlain(Digits(a / 60, 2));
      DigitsPlain(Digits(a % 60, 2));
    }
  }

  lemma {:induction false} UlidPlain(id: Id)
    requires IsUlid(id)
    ensures Plain(id)
  {
    forall i | 0 <= i < |id| ensures (id[i] as int) < 128 && id[i] != '|' {
      assert IsCrockford(id[i]);
    }
  }

  function PrintCursor(t: Stamp, id: Id): string
    requires Plain(id)
  {
    TimePlain(t);
    assert Plain("|"[..0]);
    var text := PrintTime(t) + "|" + id;
    assert forall i :: 0 <= i < |text| ==> (text[i] as int) < 256;
    Encode(text)
  }

  /** The checks of List, in their order; the value is where the page starts. */
  function ReadCursor(cursor: string): Option<Position> {
    match Decode(cursor)
    case None => None
    case Some(text) =>
      match SplitOnce(text, '|')
      case None => None
      case Some((time, id)) =>
        match ReadTime(time)
        case None => None
        case Some(t) => if IsUlid(id) then Some(Position(InstantOf(t), id)) else None
  }

  /** A cursor handed out is accepted, and points at the very row it was made from if and only if the
      time was printed in a zone of whole minutes. */
  lemma {:induction false} CursorReadsBack(t: Stamp, id: Id)
    requires Printable(t) && IsUlid(id)
    ensures Plain(id) && ReadCursor(PrintCursor(t, id)).Some?
    ensures ReadCursor(PrintCursor(t, id)).value.id == id
    ensures ReadCursor(PrintCursor(t, id)) == Some(Position(InstantOf(t), id)) <==> t.offset % 60 == 0
  {
    UlidPlain(id);
    TimePlain(t);
    var text := PrintTime(t) + "|" + id;
    assert forall i :: 0 <= i < |text| ==> (text[i] as int) < 256;
    Base64ReadsBack(text);
    SplitJoined(PrintTime(t), id, '|');
    InstantSurvives(t);
  }
}
