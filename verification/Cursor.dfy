/** `models.rs`: the cursor text, `created_at` in RFC 3339 form, a comma, the id. */
module Cursor {
  import opened Core

  const DEFAULT_PAGE_LIMIT: int := 50
  const MAX_PAGE_LIMIT: int := 200

  // ------------------------------------------------------------------- numbers

  /** A digit of base 10 or 16, lower case. */
  function DigitChar(d: nat): char
    requires d < 16
  {
    "0123456789abcdef"[d]
  }

  function DigitValue(c: char): Option<nat> {
    if '0' <= c <= '9' then Some((c - '0') as nat)
    else if 'a' <= c <= 'f' then Some((c - 'a') as nat + 10)
    else None
  }

  function Power(base: nat, width: nat): nat {
    if width == 0 then 1 else base * Power(base, width - 1)
  }

  /** n in exactly `width` digits. */
  function Pad(n: nat, width: nat, base: nat): (s: string)
    requires 2 <= base <= 16
    ensures |s| == width
  {
    if width == 0 then "" else Pad(n / base, width - 1, base) + [DigitChar(n % base)]
  }

  function ParseNumber(s: string, base: nat): Option<nat> {
    if s == "" then Some(0)
    else
      var rest := ParseNumber(s[..|s| - 1], base);
      var digit := DigitValue(s[|s| - 1]);
      if rest.Some? && digit.Some? && digit.value < base then Some(rest.value * base + digit.value) else None
  }

  lemma DivideOut(n: nat, base: nat, p: nat)
    requires base > 0 && n < base * p
    ensures n / base < p && n == (n / base) * base + n % base
  {
    if n / base >= p {
      ProductGrows(n / base, p, base);
    }
  }

  lemma ProductGrows(a: nat, b: nat, k: nat)
    requires a >= b
    ensures a * k >= k * b
  {
  }

  lemma DigitParses(d: nat)
    requires d < 16
    ensures DigitValue(DigitChar(d)) == Some(d)
  {
  }

  lemma ParseOneMore(s: string, d: nat, base: nat, n: nat)
    requires d < base <= 16 && ParseNumber(s, base) == Some(n)
    ensures ParseNumber(s + [DigitChar(d)], base) == Some(n * base + d)
  {
    DigitParses(d);
    hide DigitChar, DigitValue;
    var s' := s + [DigitChar(d)];
    assert s'[..|s'| - 1] == s;
  }

  lemma {:induction false} ParsePad(n: nat, width: nat, base: nat)
    requires 2 <= base <= 16 && n < Power(base, width)
    ensures ParseNumber(Pad(n, width, base), base) == Some(n)
  {
    if width > 0 {
      DivideOut(n, base, Power(base, width - 1));
      ParsePad(n / base, width - 1, base);
      hide ParseNumber, DigitChar, Power;
      ParseOneMore(Pad(n / base, width - 1, base), n % base, base, n / base);
    }
  }

  lemma {:induction false} PadHasNoComma(n: nat, width: nat, base: nat)
    requires 2 <= base <= 16
    ensures ',' !in Pad(n, width, base)
  {
    if width > 0 {
      PadHasNoComma(n / base, width - 1, base);
    }
  }

  // ---------------------------------------------------------------------- dates

  predicate IsLeap(year: nat) {
    year % 4 == 0 && (year % 100 != 0 || year % 400 == 0)
  }

  function DaysIn(year: nat, month: nat): nat {
    if month == 2 then if IsLeap(year) then 29 else 28
    else if month in {4, 6, 9, 11} then 30
    else 31
  }

  datatype Date = Date(year: nat, month: nat, day: nat)

  predicate ValidDate(d: Date) {
    d.year <= 9999 && 1 <= d.month <= 12 && 1 <= d.day <= DaysIn(d.year, d.month)
  }

  datatype Time = Time(hour: nat, minute: nat, second: nat, micros: nat)

  predicate ValidTime(t: Time) {
    t.hour < 24 && t.minute < 60 && t.second < 60 && t.micros < 1_000_000
  }

  /** A timestamptz: UTC, to the microsecond. */
  datatype Timestamp = Timestamp(date: Date, time: Time)

  predicate ValidTimestamp(at: Timestamp) {
    ValidDate(at.date) && ValidTime(at.time)
  }

  function FormatDate(d: Date): (s: string)
    ensures |s| == 10
  {
    Pad(d.year, 4, 10) + "-" + Pad(d.month, 2, 10) + "-" + Pad(d.day, 2, 10)
  }

  function ParseDate(s: string): Option<Date>
    requires |s| == 10
  {
    var year, month, day := ParseNumber(s[..4], 10), ParseNumber(s[5..7], 10), ParseNumber(s[8..], 10);
    if s[4] == '-' && s[7] == '-' && year.Some? && month.Some? && day.Some? then
      var d := Date(year.value, month.value, day.value);
      if ValidDate(d) then Some(d) else None
    else None
  }

  /** The fraction is left out, or has three digits, or six. */
  function FormatFraction(micros: nat): string {
    if micros == 0 then ""
    else if micros % 1000 == 0 then "." + Pad(micros / 1000, 3, 10)
    else "." + Pad(micros, 6, 10)
  }

  function ParseFraction(s: string): Option<nat> {
    if s == "" then Some(0)
    else
      var n := ParseNumber(s[1..], 10);
      if s[0] != '.' || n.None? then None
      else if |s| == 4 then Some(n.value * 1000)
      else if |s| == 7 then n
      else None
  }

  function FormatTime(t: Time): string {
    Pad(t.hour, 2, 10) + ":" + Pad(t.minute, 2, 10) + ":" + Pad(t.second, 2, 10) + FormatFraction(t.micros)
  }

  function ParseTime(s: string): Option<Time>
    requires |s| >= 8
  {
    var hour, minute, second := ParseNumber(s[..2], 10), ParseNumber(s[3..5], 10), ParseNumber(s[6..8], 10);
    var micros := ParseFraction(s[8..]);
    if s[2] == ':' && s[5] == ':' && hour.Some? && minute.Some? && second.Some? && micros.Some? then
      var t := Time(hour.value, minute.value, second.value, micros.value);
      if ValidTime(t) then Some(t) else None
    else None
  }

  /** `to_rfc3339`. */
  function FormatTimestamp(at: Timestamp): string {
    FormatDate(at.date) + "T" + FormatTime(at.time) + "+00:00"
  }

  function ParseTimestamp(s: string): Option<Timestamp> {
    if |s| < 25 || s[10] != 'T' || s[|s| - 6..] != "+00:00" then None
    else
      var date, time := ParseDate(s[..10]), ParseTime(s[11..|s| - 6]);
      if date.Some? && time.Some? then Some(Timestamp(date.value, time.value)) else None
  }

  lemma DateRoundTrip(d: Date)
    requires ValidDate(d)
    ensures ParseDate(FormatDate(d)) == Some(d) && ',' !in FormatDate(d)
  {
    var s := FormatDate(d);
    assert Power(10, 2) == 100 && Power(10, 4) == 10000;
    ParsePad(d.year, 4, 10);
    ParsePad(d.month, 2, 10);
    ParsePad(d.day, 2, 10);
    PadHasNoComma(d.year, 4, 10);
    PadHasNoComma(d.month, 2, 10);
    PadHasNoComma(d.day, 2, 10);
    hide Pad, ParseNumber, Power;
    assert s[..4] == Pad(d.year, 4, 10) && s[5..7] == Pad(d.month, 2, 10) && s[8..] == Pad(d.day, 2, 10);
  }

  lemma FractionRoundTrip(micros: nat)
    requires micros < 1_000_000
    ensures ParseFraction(FormatFraction(micros)) == Some(micros) && ',' !in FormatFraction(micros)
  {
    if micros != 0 {
      assert Power(10, 3) == 1000 && Power(10, 6) == 1_000_000;
      var n, width := if micros % 1000 == 0 then micros / 1000 else micros, if micros % 1000 == 0 then 3 else 6;
      ParsePad(n, width, 10);
      PadHasNoComma(n, width, 10);
      hide Pad, ParseNumber, Power;
      assert ("." + Pad(n, width, 10))[1..] == Pad(n, width, 10);
    }
  }

  lemma TimeRoundTrip(t: Time)
    requires ValidTime(t)
    ensures |FormatTime(t)| >= 8 && ParseTime(FormatTime(t)) == Some(t) && ',' !in FormatTime(t)
  {
    var s := FormatTime(t);
    assert Power(10, 2) == 100;
    ParsePad(t.hour, 2, 10);
    ParsePad(t.minute, 2, 10);
    ParsePad(t.second, 2, 10);
    PadHasNoComma(t.hour, 2, 10);
    PadHasNoComma(t.minute, 2, 10);
    PadHasNoComma(t.second, 2, 10);
    FractionRoundTrip(t.micros);
    hide Pad, ParseNumber, Power, FormatFraction, ParseFraction;
    assert s[..2] == Pad(t.hour, 2, 10) && s[3..5] == Pad(t.minute, 2, 10) && s[6..8] == Pad(t.second, 2, 10);
    assert s[8..] == FormatFraction(t.micros);
  }

  lemma TimestampRoundTrip(at: Timestamp)
    requires ValidTimestamp(at)
    ensures ParseTimestamp(FormatTimestamp(at)) == Some(at) && ',' !in FormatTimestamp(at)
  {
    var s := FormatTimestamp(at);
    DateRoundTrip(at.date);
    TimeRoundTrip(at.time);
    hide FormatDate, ParseDate, FormatTime, ParseTime;
    assert s[..10] == FormatDate(at.date) && s[11..|s| - 6] == FormatTime(at.time);
    assert s[|s| - 6..] == "+00:00";
  }

  // ------------------------------------------------------------------------ ids

  /** A UUID as the five numbers of its text. */
  datatype Uuid = Uuid(a: nat, b: nat, c: nat, d: nat, e: nat)

  predicate ValidUuid(id: Uuid) {
    && id.a < 0x1_0000_0000 && id.b < 0x1_0000 && id.c < 0x1_0000 && id.d < 0x1_0000
    && id.e < 0x1_0000_0000_0000
  }

  function FormatUuid(id: Uuid): (s: string)
    ensures |s| == 36
  {
    Pad(id.a, 8, 16) + "-" + Pad(id.b, 4, 16) + "-" + Pad(id.c, 4, 16) + "-" + Pad(id.d, 4, 16)
    + "-" + Pad(id.e, 12, 16)
  }

  function ParseUuid(s: string): Option<Uuid> {
    if |s| != 36 || s[8] != '-' || s[13] != '-' || s[18] != '-' || s[23] != '-' then None
    else
      var a, b, c := ParseNumber(s[..8], 16), ParseNumber(s[9..13], 16), ParseNumber(s[14..18], 16);
      var d, e := ParseNumber(s[19..23], 16), ParseNumber(s[24..], 16);
      if a.Some? && b.Some? && c.Some? && d.Some? && e.Some?
      then Some(Uuid(a.value, b.value, c.value, d.value, e.value)) else None
  }

  lemma UuidRoundTrip(id: Uuid)
    requires ValidUuid(id)
    ensures ParseUuid(FormatUuid(id)) == Some(id)
  {
    var s := FormatUuid(id);
    HexPowers();
    ParsePad(id.a, 8, 16);
    ParsePad(id.b, 4, 16);
    ParsePad(id.c, 4, 16);
    ParsePad(id.d, 4, 16);
    ParsePad(id.e, 12, 16);
    hide Pad, ParseNumber, Power;
    assert s[..8] == Pad(id.a, 8, 16) && s[9..13] == Pad(id.b, 4, 16) && s[14..18] == Pad(id.c, 4, 16);
    assert s[19..23] == Pad(id.d, 4, 16) && s[24..] == Pad(id.e, 12, 16);
  }

  lemma HexPowers()
    ensures Power(16, 4) == 0x1_0000 && Power(16, 8) == 0x1_0000_0000 && Power(16, 12) == 0x1_0000_0000_0000
  {
    assert Power(16, 4) == 16 * Power(16, 3) && Power(16, 3) == 16 * Power(16, 2);
    assert Power(16, 8) == 16 * Power(16, 7) && Power(16, 7) == 16 * Power(16, 6);
    assert Power(16, 6) == 16 * Power(16, 5) && Power(16, 5) == 16 * Power(16, 4);
    assert Power(16, 12) == 16 * Power(16, 11) && Power(16, 11) == 16 * Power(16, 10);
    assert Power(16, 10) == 16 * Power(16, 9) && Power(16, 9) == 16 * Power(16, 8);
  }

  // --------------------------------------------------------------------- cursors

  datatype Key = Key(at: Timestamp, id: Uuid)

  predicate ValidKey(k: Key) {
    ValidTimestamp(k.at) && ValidUuid(k.id)
  }

  datatype PaginationParams = PaginationParams(limit: Option<int>, cursor: Option<string>)

  /** `effective_limit`: the default, clamped to 1..MAX_PAGE_LIMIT. */
  function EffectiveLimit(params: PaginationParams): (n: int)
    ensures 1 <= n <= 200
    ensures params.limit.None? ==> n == 50
    ensures params.limit.Some? && 1 <= params.limit.value <= 200 ==> n == params.limit.value
    ensures params.limit.Some? && params.limit.value < 1 ==> n == 1
    ensures params.limit.Some? && params.limit.value > 200 ==> n == 200
  {
    var n := params.limit.GetOr(DEFAULT_PAGE_LIMIT);
    if n < 1 then 1 else if n > MAX_PAGE_LIMIT then MAX_PAGE_LIMIT else n
  }

  /** `encode_cursor`. */
  function EncodeCursor(k: Key): string {
    FormatTimestamp(k.at) + "," + FormatUuid(k.id)
  }

  /** Where the first comma is, or the length of the text. */
  function CommaAt(s: string): (i: nat)
    ensures i <= |s| && ',' !in s[..i] && (i < |s| ==> s[i] == ',')
  {
    if s == "" || s[0] == ',' then 0 else CommaAt(s[1..]) + 1
  }

  /** `decode_cursor`: splitn(2, ','), then both parts must parse. */
  function DecodeCursor(params: PaginationParams): Result<Option<Key>> {
    if params.cursor.None? then Success(None)
    else
      var s := params.cursor.value;
      var i := CommaAt(s);
      if i == |s| then Failure(Validation)
      else
        var at, id := ParseTimestamp(s[..i]), ParseUuid(s[i + 1..]);
        if at.Some? && id.Some? then Success(Some(Key(at.value, id.value))) else Failure(Validation)
  }

  /** Decoding inverts encoding: the timestamp has no comma, so the first one is ours. */
  lemma CursorRoundTrip(k: Key, limit: Option<int>)
    requires ValidKey(k)
    ensures DecodeCursor(PaginationParams(limit, Some(EncodeCursor(k)))) == Success(Some(k))
  {
    TimestampRoundTrip(k.at);
    UuidRoundTrip(k.id);
    hide FormatTimestamp, ParseTimestamp, FormatUuid, ParseUuid, CommaAt, DecodeCursor;
    DecodesParts(FormatTimestamp(k.at), FormatUuid(k.id), limit);
  }

  lemma DecodesParts(at: string, id: string, limit: Option<int>)
    requires ',' !in at && ParseTimestamp(at).Some? && ParseUuid(id).Some?
    ensures DecodeCursor(PaginationParams(limit, Some(at + "," + id)))
            == Success(Some(Key(ParseTimestamp(at).value, ParseUuid(id).value)))
  {
    hide ParseTimestamp, ParseUuid, CommaAt;
    FirstComma(at, id);
    var s := at + "," + id;
    assert s[..|at|] == at && s[|at| + 1..] == id;
  }

  lemma {:induction false} FirstComma(a: string, b: string)
    requires ',' !in a
    ensures CommaAt(a + "," + b) == |a|
  {
    if a != "" {
      assert (a + "," + b)[1..] == a[1..] + "," + b;
      FirstComma(a[1..], b);
    }
  }

  /** So two rows never share a cursor. */
  lemma CursorsAreDistinct(k: Key, l: Key)
    requires ValidKey(k) && ValidKey(l) && EncodeCursor(k) == EncodeCursor(l)
    ensures k == l
  {
    CursorRoundTrip(k, None);
    CursorRoundTrip(l, None);
  }

  // ------------------------------------------------------- the text, by position

  /** n stands at s[at..at + width], its lowest digit last. */
  ghost predicate Digits(s: string, at: nat, width: nat, base: nat, n: nat)
    requires 2 <= base <= 16
  {
    && at + width <= |s|
    && forall i: nat | i < width :: s[at + width - 1 - i] == "0123456789abcdef"[Digit(n, base, i)]
  }

  /** The digit that counts for base to the i. */
  function Digit(n: nat, base: nat, i: nat): (d: nat)
    requires 2 <= base
    ensures d < base
  {
    if i == 0 then n % base else Digit(n / base, base, i - 1)
  }

  lemma {:induction false} PadDigits(n: nat, width: nat, base: nat)
    requires 2 <= base <= 16
    ensures Digits(Pad(n, width, base), 0, width, base, n)
  {
    if width > 0 {
      PadDigits(n / base, width - 1, base);
      var s, rest := Pad(n, width, base), Pad(n / base, width - 1, base);
      forall i: nat | i < width ensures s[width - 1 - i] == "0123456789abcdef"[Digit(n, base, i)] {
        if i > 0 {
          assert s[width - 1 - i] == rest[width - 1 - 1 - (i - 1)];
        }
      }
    }
  }

  lemma DigitsWithin(s: string, part: string, at: nat, width: nat, base: nat, n: nat)
    requires 2 <= base <= 16 && part == Pad(n, width, base)
    requires at + width <= |s| && s[at..at + width] == part
    ensures Digits(s, at, width, base, n)
  {
    PadDigits(n, width, base);
    hide Pad, Digit;
    forall i: nat | i < width ensures s[at + width - 1 - i] == "0123456789abcdef"[Digit(n, base, i)] {
      assert s[at..at + width][width - 1 - i] == s[at + width - 1 - i];
    }
  }

  lemma Subslice(s: string, from: nat, to: nat, i: nat, j: nat)
    requires from <= to <= |s| && i <= j <= to - from
    ensures s[from..to][i..j] == s[from + i..from + j]
  {
    var a, b := s[from..to][i..j], s[from + i..from + j];
    assert |a| == |b| && forall k | 0 <= k < |a| :: a[k] == b[k];
  }

  lemma DateText(s: string, d: Date)
    requires |s| >= 10 && s[0..10] == FormatDate(d)
    ensures Digits(s, 0, 4, 10, d.year) && s[4] == '-' && Digits(s, 5, 2, 10, d.month)
    ensures s[7] == '-' && Digits(s, 8, 2, 10, d.day)
  {
    DateGroups(d);
    assert s[4] == s[0..10][4] && s[7] == s[0..10][7];
    hide Pad, Digits, FormatDate;
    Subslice(s, 0, 10, 0, 4);
    Subslice(s, 0, 10, 5, 7);
    Subslice(s, 0, 10, 8, 10);
    DigitsWithin(s, s[0..4], 0, 4, 10, d.year);
    DigitsWithin(s, s[5..7], 5, 2, 10, d.month);
    DigitsWithin(s, s[8..10], 8, 2, 10, d.day);
  }

  lemma DateGroups(d: Date)
    ensures var s := FormatDate(d);
            && s[0..4] == Pad(d.year, 4, 10) && s[5..7] == Pad(d.month, 2, 10) && s[8..10] == Pad(d.day, 2, 10)
            && s[4] == '-' && s[7] == '-'
  {
    hide Pad;
    var s, month, day := FormatDate(d), Pad(d.month, 2, 10), Pad(d.day, 2, 10);
    assert s == Pad(d.year, 4, 10) + ("-" + month + "-" + day);
    assert s[5..7] == month && s[8..10] == day;
  }

  /** The length of the fraction: none, or a point and three or six digits. */
  ghost function FractionWidth(micros: nat): nat {
    if micros == 0 then 0 else if micros % 1000 == 0 then 4 else 7
  }

  lemma FractionText(s: string, micros: nat)
    requires |s| >= 19 + FractionWidth(micros) && s[19..19 + FractionWidth(micros)] == FormatFraction(micros)
    ensures micros != 0 ==> s[19] == '.'
    ensures micros != 0 && micros % 1000 == 0 ==> Digits(s, 20, 3, 10, micros / 1000)
    ensures micros % 1000 != 0 ==> Digits(s, 20, 6, 10, micros)
  {
    hide Pad, Digits;
    if micros != 0 {
      var width := FractionWidth(micros);
      var fraction := s[19..19 + width];
      var n := if micros % 1000 == 0 then micros / 1000 else micros;
      assert fraction == "." + Pad(n, width - 1, 10) && fraction[1..width] == Pad(n, width - 1, 10);
      assert s[19] == fraction[0];
      Subslice(s, 19, 19 + width, 1, width);
      DigitsWithin(s, s[20..19 + width], 20, width - 1, 10, n);
    }
  }

  lemma TimeGroups(t: Time)
    ensures var s := FormatTime(t);
            && |s| == 8 + FractionWidth(t.micros)
            && s[0..2] == Pad(t.hour, 2, 10) && s[3..5] == Pad(t.minute, 2, 10) && s[6..8] == Pad(t.second, 2, 10)
            && s[2] == ':' && s[5] == ':' && s[8..|s|] == FormatFraction(t.micros)
  {
    hide Pad;
  }

  lemma TimeText(s: string, t: Time)
    requires var n := 19 + FractionWidth(t.micros); |s| >= n && s[11..n] == FormatTime(t)
    ensures Digits(s, 11, 2, 10, t.hour) && s[13] == ':' && Digits(s, 14, 2, 10, t.minute)
    ensures s[16] == ':' && Digits(s, 17, 2, 10, t.second)
    ensures t.micros != 0 ==> s[19] == '.'
    ensures t.micros != 0 && t.micros % 1000 == 0 ==> Digits(s, 20, 3, 10, t.micros / 1000)
    ensures t.micros % 1000 != 0 ==> Digits(s, 20, 6, 10, t.micros)
  {
    TimeGroups(t);
    hide Pad, Digits, FormatTime, FormatFraction;
    var n := 19 + FractionWidth(t.micros);
    assert s[13] == s[11..n][2] && s[16] == s[11..n][5];
    hide FractionWidth;
    Subslice(s, 11, n, 0, 2);
    Subslice(s, 11, n, 3, 5);
    Subslice(s, 11, n, 6, 8);
    Subslice(s, 11, n, 8, n - 11);
    DigitsWithin(s, s[11..13], 11, 2, 10, t.hour);
    DigitsWithin(s, s[14..16], 14, 2, 10, t.minute);
    DigitsWithin(s, s[17..19], 17, 2, 10, t.second);
    FractionText(s, t.micros);
  }

  lemma UuidGroups(id: Uuid)
    ensures var s := FormatUuid(id);
            && s[0..8] == Pad(id.a, 8, 16) && s[9..13] == Pad(id.b, 4, 16) && s[14..18] == Pad(id.c, 4, 16)
            && s[19..23] == Pad(id.d, 4, 16) && s[24..36] == Pad(id.e, 12, 16)
            && s[8] == '-' && s[13] == '-' && s[18] == '-' && s[23] == '-'
  {
    hide Pad;
  }

  lemma UuidText(s: string, u: nat, id: Uuid)
    requires |s| == u + 36 && s[u..] == FormatUuid(id)
    ensures Digits(s, u, 8, 16, id.a) && s[u + 8] == '-' && Digits(s, u + 9, 4, 16, id.b) && s[u + 13] == '-'
    ensures Digits(s, u + 14, 4, 16, id.c) && s[u + 18] == '-' && Digits(s, u + 19, 4, 16, id.d)
    ensures s[u + 23] == '-' && Digits(s, u + 24, 12, 16, id.e)
  {
    hide Pad, Digits;
    UuidGroups(id);
    hide FormatUuid;
    Subslice(s, u, u + 36, 0, 8);
    Subslice(s, u, u + 36, 9, 13);
    Subslice(s, u, u + 36, 14, 18);
    Subslice(s, u, u + 36, 19, 23);
    Subslice(s, u, u + 36, 24, 36);
    DigitsWithin(s, s[u..u + 8], u, 8, 16, id.a);
    DigitsWithin(s, s[u + 9..u + 13], u + 9, 4, 16, id.b);
    DigitsWithin(s, s[u + 14..u + 18], u + 14, 4, 16, id.c);
    DigitsWithin(s, s[u + 19..u + 23], u + 19, 4, 16, id.d);
    DigitsWithin(s, s[u + 24..u + 36], u + 24, 12, 16, id.e);
  }

  /** The cursor, character by character: date, T, time, fraction if there is one,
      the UTC offset, a comma, and the id in five groups of hexadecimal digits. */
  lemma CursorText(k: Key)
    ensures var s, at, id := EncodeCursor(k), k.at, k.id;
            var u := 26 + FractionWidth(at.time.micros);
            && |s| == u + 36
            && Digits(s, 0, 4, 10, at.date.year) && s[4] == '-' && Digits(s, 5, 2, 10, at.date.month)
            && s[7] == '-' && Digits(s, 8, 2, 10, at.date.day) && s[10] == 'T'
            && Digits(s, 11, 2, 10, at.time.hour) && s[13] == ':' && Digits(s, 14, 2, 10, at.time.minute)
            && s[16] == ':' && Digits(s, 17, 2, 10, at.time.second)
            && (at.time.micros != 0 ==> s[19] == '.')
            && (at.time.micros != 0 && at.time.micros % 1000 == 0 ==> Digits(s, 20, 3, 10, at.time.micros / 1000))
            && (at.time.micros % 1000 != 0 ==> Digits(s, 20, 6, 10, at.time.micros))
            && s[u - 7..u] == "+00:00,"
            && Digits(s, u, 8, 16, id.a) && s[u + 8] == '-' && Digits(s, u + 9, 4, 16, id.b) && s[u + 13] == '-'
            && Digits(s, u + 14, 4, 16, id.c) && s[u + 18] == '-' && Digits(s, u + 19, 4, 16, id.d)
            && s[u + 23] == '-' && Digits(s, u + 24, 12, 16, id.e)
  {
    var s := EncodeCursor(k);
    CursorParts(k);
    hide Digits, FormatDate, FormatTime, FormatUuid, EncodeCursor, FractionWidth;
    DateText(s, k.at.date);
    TimeText(s, k.at.time);
    UuidText(s, 26 + FractionWidth(k.at.time.micros), k.id);
  }

  lemma CursorParts(k: Key)
    ensures var s := EncodeCursor(k);
            var u := 26 + FractionWidth(k.at.time.micros);
            && |s| == u + 36 && s[0..10] == FormatDate(k.at.date) && s[10] == 'T'
            && s[11..u - 7] == FormatTime(k.at.time) && s[u - 7..u] == "+00:00," && s[u..] == FormatUuid(k.id)
  {
    hide Pad, FormatDate, FormatUuid;
    var s := EncodeCursor(k);
    var at := FormatTimestamp(k.at);
    var u := 26 + FractionWidth(k.at.time.micros);
    assert |FormatTime(k.at.time)| == 8 + FractionWidth(k.at.time.micros);
    hide FormatTime, FractionWidth;
    assert s == at + "," + FormatUuid(k.id) && |at| == u - 1;
    assert at[..10] == FormatDate(k.at.date) && at[11..u - 7] == FormatTime(k.at.time) && at[u - 7..] == "+00:00";
    assert s[0..10] == at[..10] && s[11..u - 7] == at[11..u - 7] && s[u - 7..u] == at[u - 7..] + ",";
  }

  /** A text without a comma is refused. */
  lemma NoCommaIsRefused(s: string, limit: Option<int>)
    requires ',' !in s
    ensures DecodeCursor(PaginationParams(limit, Some(s))) == Failure(Validation)
  {
  }
}
