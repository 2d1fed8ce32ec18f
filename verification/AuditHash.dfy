/**
 What one audit row's hash covers: shoreguard/services/audit.py,
 `compute_entry_hash`. SHA-256 is a parameter `sha` that is only known to
 return 64 characters; nothing here assumes it is free of collisions.
 */
module AuditHash {
  import opened Wrappers
  import Json

  // ----- Timestamps ------------------------------------------------------

  /** Calendar fields of a naive UTC datetime. */
  datatype Civil = Civil(year: nat, month: nat, day: nat, hour: nat, minute: nat, second: nat, micro: nat) {
    predicate Valid() {
      && 1 <= year <= 9999 && 1 <= month <= 12 && 1 <= day <= 31
      && hour < 24 && minute < 60 && second < 60 && micro < 1_000_000
    }
  }

  type Moment = c: Civil | c.Valid() witness Civil(1970, 1, 1, 0, 0, 0, 0)

  /** A stored timestamp; an aware one is held by its UTC calendar fields. */
  datatype Stamp = Naive(utc: Moment) | Aware(utc: Moment)

  /** Position of a stamp on the time line: compares as the datetimes do. */
  function Instant(t: Stamp): int
  {
    var c := t.utc;
    (((((c.year * 12 + c.month) * 32 + c.day) * 24 + c.hour) * 60 + c.minute) * 60 + c.second) * 1_000_000 + c.micro
  }

  /** The order of two moments, field by field. */
  predicate Earlier(c: Moment, d: Moment)
  {
    || c.year < d.year
    || (c.year == d.year && c.month < d.month)
    || ((c.year, c.month) == (d.year, d.month) && c.day < d.day)
    || ((c.year, c.month, c.day) == (d.year, d.month, d.day) && SoonerInDay(c, d))
  }

  predicate SoonerInDay(c: Moment, d: Moment)
  {
    || c.hour < d.hour
    || (c.hour == d.hour && c.minute < d.minute)
    || ((c.hour, c.minute) == (d.hour, d.minute) && c.second < d.second)
    || ((c.hour, c.minute, c.second) == (d.hour, d.minute, d.second) && c.micro < d.micro)
  }

  /** Stamps compare as their calendar fields do, and are equal only if all of them are. */
  lemma InstantOrders(s: Stamp, t: Stamp)
    ensures Instant(s) < Instant(t) <==> Earlier(s.utc, t.utc)
    ensures Instant(s) == Instant(t) <==> s.utc == t.utc
  {
  }

  function Digit(n: nat): char
    requires n < 10
  {
    ('0' as int + n) as char
  }

  function Digits2(n: nat): (r: string)
    requires n < 100
    ensures |r| == 2
  {
    [Digit(n / 10), Digit(n % 10)]
  }

  function Digits4(n: nat): (r: string)
    requires n < 10_000
    ensures |r| == 4
  {
    Digits2(n / 100) + Digits2(n % 100)
  }

  function Digits6(n: nat): (r: string)
    requires n < 1_000_000
    ensures |r| == 6
  {
    Digits4(n / 100) + Digits2(n % 100)
  }

  function IsoDate(c: Moment): (r: string)
    ensures |r| == 10
  {
    Digits4(c.year) + "-" + Digits2(c.month) + "-" + Digits2(c.day)
  }

  function IsoTime(c: Moment): (r: string)
    ensures |r| == 8
  {
    Digits2(c.hour) + ":" + Digits2(c.minute) + ":" + Digits2(c.second)
  }

  /** `datetime.isoformat()` of a naive datetime: no fraction when it is zero. */
  function IsoFormat(c: Moment): string
  {
    IsoDate(c) + "T" + IsoTime(c) + (if c.micro == 0 then "" else "." + Digits6(c.micro))
  }

  lemma Digits2Injective(m: nat, n: nat)
    requires m < 100 && n < 100 && Digits2(m) == Digits2(n)
    ensures m == n
  {
  }

  lemma Digits4Injective(m: nat, n: nat)
    requires m < 10_000 && n < 10_000 && Digits4(m) == Digits4(n)
    ensures m == n
  {
    assert Digits4(m)[..2] == Digits2(m / 100) && Digits4(m)[2..] == Digits2(m % 100);
    assert Digits4(n)[..2] == Digits2(n / 100) && Digits4(n)[2..] == Digits2(n % 100);
    Digits2Injective(m / 100, n / 100);
    Digits2Injective(m % 100, n % 100);
  }

  lemma Digits6Injective(m: nat, n: nat)
    requires m < 1_000_000 && n < 1_000_000 && Digits6(m) == Digits6(n)
    ensures m == n
  {
    assert Digits6(m)[..4] == Digits4(m / 100) && Digits6(m)[4..] == Digits2(m % 100);
    assert Digits6(n)[..4] == Digits4(n / 100) && Digits6(n)[4..] == Digits2(n % 100);
    Digits4Injective(m / 100, n / 100);
    Digits2Injective(m % 100, n % 100);
  }

  lemma IsoDateInjective(c: Moment, d: Moment)
    requires IsoDate(c) == IsoDate(d)
    ensures c.year == d.year && c.month == d.month && c.day == d.day
  {
    assert IsoDate(c)[..4] == Digits4(c.year) && IsoDate(d)[..4] == Digits4(d.year);
    assert IsoDate(c)[5..7] == Digits2(c.month) && IsoDate(d)[5..7] == Digits2(d.month);
    assert IsoDate(c)[8..] == Digits2(c.day) && IsoDate(d)[8..] == Digits2(d.day);
    Digits4Injective(c.year, d.year);
    Digits2Injective(c.month, d.month);
    Digits2Injective(c.day, d.day);
  }

  lemma IsoTimeInjective(c: Moment, d: Moment)
    requires IsoTime(c) == IsoTime(d)
    ensures c.hour == d.hour && c.minute == d.minute && c.second == d.second
  {
    assert IsoTime(c)[..2] == Digits2(c.hour) && IsoTime(d)[..2] == Digits2(d.hour);
    assert IsoTime(c)[3..5] == Digits2(c.minute) && IsoTime(d)[3..5] == Digits2(d.minute);
    assert IsoTime(c)[6..] == Digits2(c.second) && IsoTime(d)[6..] == Digits2(d.second);
    Digits2Injective(c.hour, d.hour);
    Digits2Injective(c.minute, d.minute);
    Digits2Injective(c.second, d.second);
  }

  /** The ISO text determines the moment, although the fraction may be left out. */
  lemma IsoFormatInjective(c: Moment, d: Moment)
    requires IsoFormat(c) == IsoFormat(d)
    ensures c == d
  {
    var s, t := IsoFormat(c), IsoFormat(d);
    assert s[..10] == IsoDate(c) && t[..10] == IsoDate(d);
    assert s[11..19] == IsoTime(c) && t[11..19] == IsoTime(d);
    IsoDateInjective(c, d);
    IsoTimeInjective(c, d);
    assert c.micro == 0 <==> |s| == 19;
    assert d.micro == 0 <==> |t| == 19;
    if c.micro != 0 {
      assert s[20..] == Digits6(c.micro) && t[20..] == Digits6(d.micro);
      Digits6Injective(c.micro, d.micro);
    }
  }

  predicate AllDigits(s: string)
  {
    forall i :: 0 <= i < |s| ==> '0' <= s[i] <= '9'
  }

  function Number(s: string): nat
    requires AllDigits(s)
  {
    if s == "" then 0 else 10 * Number(s[..|s| - 1]) + (s[|s| - 1] as int - '0' as int)
  }

  /** A decimal numeral of a number. */
  predicate Writes(s: string, n: nat)
  {
    AllDigits(s) && Number(s) == n
  }

  lemma Digits2Reads(n: nat)
    requires n < 100
    ensures Writes(Digits2(n), n)
  {
    var s := Digits2(n);
    assert s[..1][..0] == "" && Number("") == 0;
    assert Number(s[..1]) == n / 10;
  }

  lemma {:induction false} NumberConcat(s: string, m: nat, t: string, n: nat)
    requires |t| == 2 && Writes(s, m) && Writes(t, n)
    ensures Writes(s + t, 100 * m + n)
  {
    var st := s + t;
    assert st[..|s| + 1] == s + t[..1] && st[..|s| + 1][..|s|] == s;
    assert t[..1][..0] == "" && Number("") == 0;
    assert Number(t[..1]) == t[0] as int - '0' as int;
    assert Number(st) == 10 * Number(st[..|s| + 1]) + (t[1] as int - '0' as int);
    assert Number(st[..|s| + 1]) == 10 * Number(s) + (t[0] as int - '0' as int);
  }

  lemma Digits4Reads(n: nat)
    requires n < 10_000
    ensures Writes(Digits4(n), n)
  {
    Digits2Reads(n / 100);
    Digits2Reads(n % 100);
    NumberConcat(Digits2(n / 100), n / 100, Digits2(n % 100), n % 100);
  }

  lemma Digits6Reads(n: nat)
    requires n < 1_000_000
    ensures Writes(Digits6(n), n)
  {
    Digits4Reads(n / 100);
    Digits2Reads(n % 100);
    NumberConcat(Digits4(n / 100), n / 100, Digits2(n % 100), n % 100);
  }

  lemma IsoDateReads(c: Moment)
    ensures var s := IsoDate(c);
      && Writes(s[..4], c.year) && s[4] == '-' && Writes(s[5..7], c.month) && s[7] == '-' && Writes(s[8..10], c.day)
  {
    Digits4Reads(c.year);
    Digits2Reads(c.month);
    Digits2Reads(c.day);
    var s := IsoDate(c);
    assert s[..4] == Digits4(c.year) && s[5..7] == Digits2(c.month) && s[8..10] == Digits2(c.day);
  }

  lemma IsoTimeReads(c: Moment)
    ensures var s := IsoTime(c);
      && Writes(s[..2], c.hour) && s[2] == ':' && Writes(s[3..5], c.minute) && s[5] == ':' && Writes(s[6..8], c.second)
  {
    Digits2Reads(c.hour);
    Digits2Reads(c.minute);
    Digits2Reads(c.second);
    var s := IsoTime(c);
    assert s[..2] == Digits2(c.hour) && s[3..5] == Digits2(c.minute) && s[6..8] == Digits2(c.second);
  }

  /** `YYYY-MM-DDTHH:MM:SS`, and six more digits after a point unless they are all zero. */
  lemma IsoFormatReads(c: Moment)
    ensures var s := IsoFormat(c);
      && |s| == (if c.micro == 0 then 19 else 26)
      && Writes(s[..4], c.year) && s[4] == '-' && Writes(s[5..7], c.month) && s[7] == '-' && Writes(s[8..10], c.day)
      && s[10] == 'T'
      && Writes(s[11..13], c.hour) && s[13] == ':' && Writes(s[14..16], c.minute) && s[16] == ':'
      && Writes(s[17..19], c.second)
      && (c.micro != 0 ==> s[19] == '.' && Writes(s[20..], c.micro))
  {
    var s, date, time := IsoFormat(c), IsoDate(c), IsoTime(c);
    IsoDateReads(c);
    IsoTimeReads(c);
    assert s[..10] == date && s[11..19] == time;
    assert s[..4] == date[..4] && s[5..7] == date[5..7] && s[8..10] == date[8..10];
    assert s[11..13] == time[..2] && s[14..16] == time[3..5] && s[17..19] == time[6..8];
    assert s[4] == date[4] && s[7] == date[7] && s[13] == time[2] && s[16] == time[5];
    if c.micro != 0 {
      Digits6Reads(c.micro);
      assert s[20..] == Digits6(c.micro);
    }
  }

  // ----- The hashed payload ----------------------------------------------

  /** The operator-meaningful fields of a row. */
  datatype Entry = Entry(
    timestamp: Stamp,
    actor: string,
    actorRole: string,
    action: string,
    resourceType: string,
    resourceId: string,
    gatewayName: Option<string>,
    detail: Option<string>,
    clientIp: Option<string>)

  /** Python's `value or ""`. */
  function OrEmpty(s: Option<string>): string
  {
    if s.Some? then s.value else ""
  }

  /** Python's `value or None`. */
  function OrNone(s: string): Option<string>
  {
    if s == "" then None else Some(s)
  }

  function Payload(prev: string, e: Entry): string
  {
    Json.EncodeArray([
      prev, IsoFormat(e.timestamp.utc), e.actor, e.actorRole, e.action, e.resourceType, e.resourceId,
      OrEmpty(e.gatewayName), OrEmpty(e.detail), OrEmpty(e.clientIp)])
  }

  function ComputeEntryHash(sha: string -> string, prev: string, e: Entry): string
  {
    sha(Payload(prev, e))
  }

  ghost predicate HexDigest(sha: string -> string)
  {
    forall text :: |sha(text)| == 64
  }

  /** The ten normalised fields: time zone dropped, missing text read as empty. */
  datatype View = View(
    prev: string,
    moment: Moment,
    actor: string,
    actorRole: string,
    action: string,
    resourceType: string,
    resourceId: string,
    gatewayName: string,
    detail: string,
    clientIp: string)

  function ViewOf(prev: string, e: Entry): View
  {
    View(prev, e.timestamp.utc, e.actor, e.actorRole, e.action, e.resourceType, e.resourceId,
         OrEmpty(e.gatewayName), OrEmpty(e.detail), OrEmpty(e.clientIp))
  }

  /** The hashed text determines the ten normalised fields, and nothing more. */
  lemma PayloadDeterminesView(p: string, e: Entry, q: string, f: Entry)
    ensures Payload(p, e) == Payload(q, f) <==> ViewOf(p, e) == ViewOf(q, f)
  {
    var a := [p, IsoFormat(e.timestamp.utc), e.actor, e.actorRole, e.action, e.resourceType, e.resourceId,
              OrEmpty(e.gatewayName), OrEmpty(e.detail), OrEmpty(e.clientIp)];
    var b := [q, IsoFormat(f.timestamp.utc), f.actor, f.actorRole, f.action, f.resourceType, f.resourceId,
              OrEmpty(f.gatewayName), OrEmpty(f.detail), OrEmpty(f.clientIp)];
    if Payload(p, e) == Payload(q, f) {
      Json.EncodeInjective(a, b);
      assert a[0] == b[0] && a[1] == b[1] && a[2] == b[2] && a[3] == b[3] && a[4] == b[4];
      assert a[5] == b[5] && a[6] == b[6] && a[7] == b[7] && a[8] == b[8] && a[9] == b[9];
      IsoFormatInjective(e.timestamp.utc, f.timestamp.utc);
    }
  }

  /** Read as compact JSON, the hashed text is the ten fields in their documented order. */
  lemma PayloadReadsBack(p: string, e: Entry)
    ensures Json.DecodeArray(Payload(p, e)) == Some([
      p, IsoFormat(e.timestamp.utc), e.actor, e.actorRole, e.action, e.resourceType, e.resourceId,
      OrEmpty(e.gatewayName), OrEmpty(e.detail), OrEmpty(e.clientIp)])
  {
    Json.DecodeEncode([
      p, IsoFormat(e.timestamp.utc), e.actor, e.actorRole, e.action, e.resourceType, e.resourceId,
      OrEmpty(e.gatewayName), OrEmpty(e.detail), OrEmpty(e.clientIp)]);
  }
}
