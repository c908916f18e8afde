/** The pagination cursor: a JSON object in URL-safe base64 without padding (sections 4 and 5 of RFC 4648).
    JSON reading is a parameter; bytes are numbers below 256. */
module Cursors {

  import opened Wrappers
  import opened Text

  type Byte = x: int | 0 <= x < 256
  type Sextet = x: int | 0 <= x < 64

  datatype Failure = ValueError | OverflowError | RecursionError | DriverError

  // -- base64 --------------------------------------------------------------------------------------

  function CharOf(v: Sextet): char {
    if v < 26 then (('A' as int) + v) as char
    else if v < 52 then (('a' as int) + (v - 26)) as char
    else if v < 62 then (('0' as int) + (v - 52)) as char
    else if v == 62 then '-'
    else '_'
  }

  /** What a character stands for, if anything: the URL-safe digits are translated to the standard ones
      before decoding, so the decoder takes both. */
  function ValueOf(c: char): Option<Sextet> {
    if 'A' <= c <= 'Z' then Some((c as int) - ('A' as int))
    else if 'a' <= c <= 'z' then Some((c as int) - ('a' as int) + 26)
    else if '0' <= c <= '9' then Some((c as int) - ('0' as int) + 52)
    else if c == '-' || c == '+' then Some(62)
    else if c == '_' || c == '/' then Some(63)
    else None
  }

  function Quad(a: Byte, b: Byte, c: Byte): string {
    [CharOf(a / 4), CharOf(a % 4 * 16 + b / 16), CharOf(b % 16 * 4 + c / 64), CharOf(c % 64)]
  }

  /** `base64.urlsafe_b64encode`. */
  function Encode(raw: seq<Byte>): string {
    if raw == [] then []
    else if |raw| == 1 then Quad(raw[0], 0, 0)[..2] + "=="
    else if |raw| == 2 then Quad(raw[0], raw[1], 0)[..3] + "="
    else Quad(raw[0], raw[1], raw[2]) + Encode(raw[3..])
  }

  /** After `quad` digits of a group these many bits are not given out yet: six, four, two or none. */
  predicate MidGroup(quad: nat, left: nat) {
    quad < 4 && (quad == 1 ==> left < 64) && (quad == 2 ==> left < 16) && (quad == 3 ==> left < 4)
  }

  /** `binascii.a2b_base64` as the lenient decoder scans: `quad` digits of the current group were read, their
      bits not given out yet are `left`, and `pads` padding characters came since the last digit. Any other
      character is skipped, and a completed padding ends the scan. */
  function Scan(s: string, quad: nat, left: nat, pads: nat): Option<seq<Byte>>
    requires MidGroup(quad, left)
    decreases |s|
  {
    if s == [] then if quad == 0 then Some([]) else None
    else if s[0] == '=' then
      if quad >= 2 && quad + pads + 1 >= 4 then Some([])
      else Scan(s[1..], quad, left, if quad >= 2 then pads + 1 else pads)
    else match ValueOf(s[0])
      case None => Scan(s[1..], quad, left, pads)
      case Some(v) =>
        if quad == 0 then Scan(s[1..], 1, v, 0)
        else if quad == 1 then Emit(left * 4 + v / 16, Scan(s[1..], 2, v % 16, 0))
        else if quad == 2 then Emit(left * 16 + v / 4, Scan(s[1..], 3, v % 4, 0))
        else Emit(left * 64 + v, Scan(s[1..], 0, 0, 0))
  }

  function Emit(b: Byte, rest: Option<seq<Byte>>): Option<seq<Byte>> {
    match rest
    case None => None
    case Some(bytes) => Some([b] + bytes)
  }

  /** `base64.urlsafe_b64decode`; None is binascii.Error. */
  function Decode(s: string): Option<seq<Byte>> { Scan(s, 0, 0, 0) }

  function Equals(n: nat): string { if n == 0 then [] else Equals(n - 1) + "=" }

  /** `s.rstrip("=")`. */
  function StripPadding(s: string): string {
    if s != [] && s[|s| - 1] == '=' then StripPadding(s[..|s| - 1]) else s
  }

  /** `s + "=" * (-len(s) % 4)`. */
  function Pad(s: string): string { s + Equals((-|s|) % 4) }

  lemma CharRoundTrip(v: Sextet)
    ensures ValueOf(CharOf(v)) == Some(v) && CharOf(v) != '='
  {
  }

  lemma ScanDigit(v: Sextet, rest: string, quad: nat, left: nat, pads: nat)
    requires MidGroup(quad, left)
    ensures Scan([CharOf(v)] + rest, quad, left, pads)
         == if quad == 0 then Scan(rest, 1, v, 0)
            else if quad == 1 then Emit(left * 4 + v / 16, Scan(rest, 2, v % 16, 0))
            else if quad == 2 then Emit(left * 16 + v / 4, Scan(rest, 3, v % 4, 0))
            else Emit(left * 64 + v, Scan(rest, 0, 0, 0))
  {
    CharRoundTrip(v);
    var s := [CharOf(v)] + rest;
    assert s[0] == CharOf(v) && s[1..] == rest;
  }

  /** The first two digits of a group give its first byte. */
  lemma ScanTwo(a: Byte, w: Sextet, rest: string)
    requires w / 16 == a % 4
    ensures Scan([CharOf(a / 4), CharOf(w)] + rest, 0, 0, 0) == Emit(a, Scan(rest, 2, w % 16, 0))
  {
    var tail := [CharOf(w)] + rest;
    assert [CharOf(a / 4), CharOf(w)] + rest == [CharOf(a / 4)] + tail;
    ScanDigit(a / 4, tail, 0, 0, 0);
    ScanDigit(w, rest, 1, a / 4, 0);
    assert a / 4 * 4 + w / 16 == a;
  }

  lemma ScanGroup(a: Byte, b: Byte, c: Byte, rest: string)
    ensures Scan(Quad(a, b, c) + rest, 0, 0, 0) == Emit(a, Emit(b, Emit(c, Scan(rest, 0, 0, 0))))
  {
    var d2, d3 := [CharOf(b % 16 * 4 + c / 64)], [CharOf(c % 64)];
    var w := a % 4 * 16 + b / 16;
    assert Quad(a, b, c) + rest == [CharOf(a / 4), CharOf(w)] + (d2 + (d3 + rest));
    ScanTwo(a, w, d2 + (d3 + rest));
    ScanLastTwo(b, c, b % 16 * 4 + c / 64, rest);
  }

  lemma ScanLastTwo(b: Byte, c: Byte, w: Sextet, rest: string)
    requires w == b % 16 * 4 + c / 64
    ensures Scan([CharOf(w)] + ([CharOf(c % 64)] + rest), 2, b / 16, 0) == Emit(b, Emit(c, Scan(rest, 0, 0, 0)))
  {
    ScanDigit(w, [CharOf(c % 64)] + rest, 2, b / 16, 0);
    ScanDigit(c % 64, rest, 3, c / 64, 0);
    assert b / 16 * 16 + w / 4 == b && w % 4 * 64 + c % 64 == c;
  }

  lemma ScanPadding()
    ensures Scan("==", 2, 0, 0) == Some([]) && Scan("=", 3, 0, 0) == Some([])
  {
    assert "=="[1..] == "=";
  }

  /** Base64 round trip, for every byte string. */
  lemma {:induction false} DecodeEncode(raw: seq<Byte>)
    ensures Decode(Encode(raw)) == Some(raw)
  {
    if |raw| == 1 {
      DecodeOne(raw[0]);
      assert raw == [raw[0]];
    } else if |raw| == 2 {
      DecodeTwo(raw[0], raw[1]);
      assert raw == [raw[0], raw[1]];
    } else if |raw| > 2 {
      DecodeEncode(raw[3..]);
      ScanGroup(raw[0], raw[1], raw[2], Encode(raw[3..]));
      assert [raw[0]] + ([raw[1]] + ([raw[2]] + raw[3..])) == raw;
    }
  }

  lemma DecodeOne(a: Byte)
    ensures Decode(Encode([a])) == Some([a])
  {
    ScanPadding();
    assert Encode([a]) == [CharOf(a / 4), CharOf(a % 4 * 16)] + "==";
    ScanTwo(a, a % 4 * 16, "==");
    assert [a] + [] == [a];
  }

  lemma DecodeTwo(a: Byte, b: Byte)
    ensures Decode(Encode([a, b])) == Some([a, b])
  {
    ScanPadding();
    var w := a % 4 * 16 + b / 16;
    assert Encode([a, b]) == [CharOf(a / 4), CharOf(w)] + ([CharOf(b % 16 * 4)] + "=");
    ScanTwo(a, w, [CharOf(b % 16 * 4)] + "=");
    ScanDigit(b % 16 * 4, "=", 2, b / 16, 0);
    assert [a] + ([b] + []) == [a, b];
  }

  // -- Dropping the padding and putting it back -------------------------------------------------

  predicate UrlSafe(c: char) { 'A' <= c <= 'Z' || 'a' <= c <= 'z' || '0' <= c <= '9' || c == '-' || c == '_' }

  predicate AllSafe(s: string) { forall i | 0 <= i < |s| :: UrlSafe(s[i]) }

  lemma CharSafe(v: Sextet)
    ensures UrlSafe(CharOf(v))
  {
  }

  lemma QuadSafe(a: Byte, b: Byte, c: Byte)
    ensures AllSafe(Quad(a, b, c))
  {
    CharSafe(a / 4);
    CharSafe(a % 4 * 16 + b / 16);
    CharSafe(b % 16 * 4 + c / 64);
    CharSafe(c % 64);
  }

  /** URL-safe digits, then the padding that fills the last group of four. */
  ghost predicate Shaped(s: string, digits: string, n: nat) {
    s == digits + Equals(n) && AllSafe(digits) && n < 3 && (|digits| + n) % 4 == 0
  }

  lemma PrefixShaped(quad: string, n: nat)
    requires |quad| == 4 && AllSafe(quad) && n < 3
    ensures Shaped(quad[..4 - n] + Equals(n), quad[..4 - n], n)
  {
  }

  lemma GroupShaped(quad: string, s: string, digits: string, n: nat)
    requires |quad| == 4 && AllSafe(quad) && Shaped(s, digits, n)
    ensures Shaped(quad + s, quad + digits, n)
  {
    assert quad + (digits + Equals(n)) == (quad + digits) + Equals(n);
  }

  lemma {:induction false} EncodeShape(raw: seq<Byte>) returns (digits: string, n: nat)
    ensures Shaped(Encode(raw), digits, n) && (digits == [] <==> raw == [])
  {
    EqualsText();
    if raw == [] {
      digits, n := [], 0;
    } else if |raw| == 1 {
      QuadSafe(raw[0], 0, 0);
      PrefixShaped(Quad(raw[0], 0, 0), 2);
      digits, n := Quad(raw[0], 0, 0)[..2], 2;
    } else if |raw| == 2 {
      QuadSafe(raw[0], raw[1], 0);
      PrefixShaped(Quad(raw[0], raw[1], 0), 1);
      digits, n := Quad(raw[0], raw[1], 0)[..3], 1;
    } else {
      digits, n := EncodeShape(raw[3..]);
      var quad := Quad(raw[0], raw[1], raw[2]);
      QuadSafe(raw[0], raw[1], raw[2]);
      GroupShaped(quad, Encode(raw[3..]), digits, n);
      digits := quad + digits;
    }
  }

  lemma EqualsText()
    ensures Equals(0) == [] && Equals(1) == "=" && Equals(2) == "=="
  {
  }

  lemma StripOne(s: string)
    ensures StripPadding(s + "=") == StripPadding(s)
  {
    var t := s + "=";
    assert t[..|t| - 1] == s;
  }

  lemma {:induction false} StripEquals(s: string, n: nat)
    requires s == [] || s[|s| - 1] != '='
    ensures StripPadding(s + Equals(n)) == s
  {
    if n == 0 {
      assert s + Equals(0) == s;
    } else {
      assert s + Equals(n) == (s + Equals(n - 1)) + "=";
      StripOne(s + Equals(n - 1));
      StripEquals(s, n - 1);
    }
  }

  lemma PadFills(len: int, n: int)
    requires 0 <= n < 4 && (len + n) % 4 == 0
    ensures (-len) % 4 == n
  {
  }

  /** `rstrip("=")` loses nothing: the cursor's length alone tells how much padding to put back. */
  lemma PaddingRestored(raw: seq<Byte>)
    ensures Pad(StripPadding(Encode(raw))) == Encode(raw)
    ensures StripPadding(Encode(raw)) == [] <==> raw == []
    ensures AllSafe(StripPadding(Encode(raw)))
  {
    var digits, n := EncodeShape(raw);
    ShapedPadding(Encode(raw), digits, n);
  }

  lemma ShapedPadding(s: string, digits: string, n: nat)
    requires Shaped(s, digits, n)
    ensures StripPadding(s) == digits && Pad(digits) == s
  {
    assert digits != [] ==> UrlSafe(digits[|digits| - 1]);
    StripEquals(digits, n);
    PadFills(|digits|, n);
  }

  // -- What else the lenient decoder takes -------------------------------------------------------

  /** A digit of either alphabet. */
  predicate IsDigit64(c: char) { UrlSafe(c) || c == '+' || c == '/' }

  /** Any character that is neither a digit nor padding may stand anywhere and changes nothing. */
  lemma JunkIsSkipped(a: string, c: char, b: string)
    requires !IsDigit64(c) && c != '='
    ensures Decode(a + [c] + b) == Decode(a + b)
  {
    SkipsIn(a, c, b, 0, 0, 0);
  }

  /** The bits a digit leaves over. */
  function LeftOver(quad: nat, v: Sextet): nat {
    if quad == 0 then v else if quad == 1 then v % 16 else if quad == 2 then v % 4 else 0
  }

  /** One character of the scan: a digit goes on in the group, anything else but padding does nothing. */
  lemma ScanFirst(c: char, rest: string, quad: nat, left: nat, pads: nat)
    requires MidGroup(quad, left) && c != '='
    ensures match ValueOf(c)
            case None => Scan([c] + rest, quad, left, pads) == Scan(rest, quad, left, pads)
            case Some(v) =>
              && MidGroup((quad + 1) % 4, LeftOver(quad, v))
              && Scan([c] + rest, quad, left, pads)
                 == Given(quad, left, v, Scan(rest, (quad + 1) % 4, LeftOver(quad, v), 0))
  {
    assert ([c] + rest)[1..] == rest;
  }

  /** What a digit gives out: the byte it completes, if any. */
  function Given(quad: nat, left: nat, v: Sextet, rest: Option<seq<Byte>>): Option<seq<Byte>>
    requires MidGroup(quad, left)
  {
    if quad == 0 then rest
    else Emit(if quad == 1 then left * 4 + v / 16 else if quad == 2 then left * 16 + v / 4 else left * 64 + v, rest)
  }

  lemma ScanPad(rest: string, quad: nat, left: nat, pads: nat)
    requires MidGroup(quad, left)
    ensures Scan("=" + rest, quad, left, pads)
         == if quad >= 2 && quad + pads + 1 >= 4 then Some([])
            else Scan(rest, quad, left, if quad >= 2 then pads + 1 else pads)
  {
    assert ("=" + rest)[1..] == rest;
  }

  lemma {:induction false} SkipsIn(a: string, c: char, b: string, quad: nat, left: nat, pads: nat)
    requires MidGroup(quad, left) && !IsDigit64(c) && c != '='
    ensures Scan(a + [c] + b, quad, left, pads) == Scan(a + b, quad, left, pads)
    decreases |a|
  {
    if a == [] {
      assert a + [c] + b == [c] + b && a + b == b;
      ScanFirst(c, b, quad, left, pads);
    } else {
      var d, a1 := a[0], a[1..];
      assert a + [c] + b == [d] + (a1 + [c] + b) && a + b == [d] + (a1 + b);
      if d == '=' {
        ScanPad(a1 + [c] + b, quad, left, pads);
        ScanPad(a1 + b, quad, left, pads);
        SkipsIn(a1, c, b, quad, left, if quad >= 2 then pads + 1 else pads);
      } else {
        ScanFirst(d, a1 + [c] + b, quad, left, pads);
        ScanFirst(d, a1 + b, quad, left, pads);
        if ValueOf(d).None? {
          SkipsIn(a1, c, b, quad, left, pads);
        } else {
          SkipsIn(a1, c, b, (quad + 1) % 4, LeftOver(quad, ValueOf(d).value), 0);
        }
      }
    }
  }

  predicate AllDigits(s: string) { forall i | 0 <= i < |s| :: IsDigit64(s[i]) }

  lemma FirstDigit(s: string, tail: string)
    requires AllDigits(s) && s != []
    ensures ValueOf(s[0]).Some? && s[0] != '=' && AllDigits(s[1..]) && s + tail == [s[0]] + (s[1..] + tail)
  {
    assert IsDigit64(s[0]);
  }

  /** Text of digits alone decodes, once padded, unless one digit is left over. */
  lemma DigitsDecodeExactly(s: string)
    requires AllDigits(s)
    ensures Decode(Pad(s)).Some? <==> |s| % 4 != 1
  {
    ScanDigits(s, 0, 0, (-|s|) % 4);
  }

  lemma EqualsAre()
    ensures Equals(0) == "" && Equals(1) == "=" + "" && Equals(2) == "=" + Equals(1) && Equals(3) == "=" + Equals(2)
  {
    assert Equals(1) == [] + "=";
  }

  /** The rest of a padding of two or three. */
  lemma ScanTail(quad: nat, left: nat, n: nat)
    requires MidGroup(quad, left) && 1 <= n < 3 && (quad + n) % 4 == 3
    ensures Scan(Equals(n), quad, left, if quad >= 2 then 1 else 0).Some? <==> n == 1
  {
    EqualsAre();
    if n == 1 {
      ScanPad("", quad, left, 1);
    } else {
      ScanPad(Equals(1), quad, left, 0);
      ScanPad("", quad, left, 0);
    }
  }

  lemma ScanEquals(quad: nat, left: nat, n: nat)
    requires MidGroup(quad, left)
    requires n < 4 && (quad + n) % 4 == 0
    ensures Scan(Equals(n), quad, left, 0).Some? <==> n != 3
  {
    EqualsAre();
    if n == 1 {
      ScanPad("", quad, left, 0);
    } else if n > 1 {
      ScanPad(Equals(n - 1), quad, left, 0);
      ScanTail(quad, left, n - 1);
    }
  }

  lemma {:induction false} ScanDigits(s: string, quad: nat, left: nat, n: nat)
    requires MidGroup(quad, left) && n < 4 && (quad + |s| + n) % 4 == 0
    requires AllDigits(s)
    ensures Scan(s + Equals(n), quad, left, 0).Some? <==> n != 3
    decreases |s|
  {
    if s == [] {
      assert s + Equals(n) == Equals(n);
      ScanEquals(quad, left, n);
    } else {
      var c, rest := s[0], s[1..];
      FirstDigit(s, Equals(n));
      ScanFirst(c, rest + Equals(n), quad, left, 0);
      NextInGroup(quad, |rest|, n);
      ScanDigits(rest, (quad + 1) % 4, LeftOver(quad, ValueOf(c).value), n);
    }
  }

  lemma NextInGroup(quad: nat, k: nat, n: nat)
    requires quad < 4
    ensures ((quad + 1) % 4 + k + n) % 4 == (quad + (k + 1) + n) % 4
  {
  }

  /** The digits of the standard alphabet stand for those of the URL-safe one. */
  function Translated(c: char): char { if c == '+' then '-' else if c == '/' then '_' else c }

  lemma {:induction false} StandardDigits(s: string, t: string, quad: nat, left: nat, pads: nat)
    requires MidGroup(quad, left) && |s| == |t| && forall i | 0 <= i < |s| :: t[i] == Translated(s[i])
    ensures Scan(s, quad, left, pads) == Scan(t, quad, left, pads)
    decreases |s|
  {
    if s != [] {
      var c, d, s1, t1 := s[0], t[0], s[1..], t[1..];
      assert s == [c] + s1 && t == [d] + t1 && d == Translated(c) && ValueOf(d) == ValueOf(c);
      if c == '=' {
        ScanPad(s1, quad, left, pads);
        ScanPad(t1, quad, left, pads);
        StandardDigits(s1, t1, quad, left, if quad >= 2 then pads + 1 else pads);
      } else {
        ScanFirst(c, s1, quad, left, pads);
        ScanFirst(d, t1, quad, left, pads);
        if ValueOf(c).None? {
          StandardDigits(s1, t1, quad, left, pads);
        } else {
          StandardDigits(s1, t1, (quad + 1) % 4, LeftOver(quad, ValueOf(c).value), 0);
        }
      }
    }
  }

  // -- Cursors ---------------------------------------------------------------------------------------

  datatype Json =
    | Null
    | Boolean(truth: bool)
    | Number(int)
    | Fraction(real)
    | NaN
    | Infinite(negative: bool)
    | Str(string)
    | List(seq<Json>)
    | Object(members: map<string, Json>)

  /** What `json.loads` makes of bytes: a value, one of the errors `decode_cursor` turns into ValueError, or a
      RecursionError, which it lets through. */
  datatype Loaded = Parsed(json: Json) | NotJson | TooDeep

  type Loads = seq<Byte> -> Loaded

  /** `encode_cursor`, on the dumped payload. */
  function EncodeCursor(raw: seq<Byte>): string { StripPadding(Encode(raw)) }

  /** `decode_cursor`. */
  function DecodeCursor(cursor: string, loads: Loads): Result<map<string, Json>, Failure> {
    match Decode(Pad(cursor))
    case None => Err(ValueError)
    case Some(raw) =>
      match loads(raw)
      case Parsed(Object(members)) => Ok(members)
      case TooDeep => Err(RecursionError)
      case _ => Err(ValueError)
  }

  /** For every byte string: decoding the re-padded cursor gives it back, no two byte strings share a cursor,
      only the empty one has the empty cursor, and a cursor needs no escaping in a URL. */
  lemma CursorRoundTrip(raw: seq<Byte>)
    ensures Decode(Pad(EncodeCursor(raw))) == Some(raw)
    ensures EncodeCursor(raw) == "" <==> raw == []
    ensures AllSafe(EncodeCursor(raw))
    ensures forall other: seq<Byte> :: EncodeCursor(other) == EncodeCursor(raw) ==> other == raw
  {
    PaddingRestored(raw);
    DecodeEncode(raw);
    forall other: seq<Byte> | EncodeCursor(other) == EncodeCursor(raw) ensures other == raw {
      PaddingRestored(other);
      DecodeEncode(other);
    }
  }

  // -- Integer keys ----------------------------------------------------------------------------------

  function Ascii(s: string): seq<Byte>
    requires forall i | 0 <= i < |s| :: (s[i] as int) < 128
  {
    seq(|s|, i requires 0 <= i < |s| => (s[i] as int) as Byte)
  }

  lemma {:induction false} DecimalIsAscii(n: int)
    ensures forall i | 0 <= i < |Decimal(n)| :: (Decimal(n)[i] as int) < 128
  {
    var digits := Digits(if n < 0 then -n else n);
    assert forall i | 0 <= i < |digits| :: IsDigit(digits[i]);
  }

  /** `json.dumps({"k": str(key)}, separators=(",", ":"))`. */
  function KeyText(key: int): (s: string)
    ensures forall i | 0 <= i < |s| :: (s[i] as int) < 128
  {
    DecimalIsAscii(key);
    "{\"k\":\"" + Decimal(key) + "\"}"
  }

  function KeyCursor(key: int): string { EncodeCursor(Ascii(KeyText(key))) }

  function Truncate(x: real): int { if x >= 0.0 then x.Floor else -((-x).Floor) }

  /** `_coerce_key` for an integer column: bool is an int, `int(inf)` is an OverflowError. */
  function CoerceInt(raw: Json): Result<int, Failure> {
    match raw
    case Number(n) => Ok(n)
    case Boolean(truth) => Ok(if truth then 1 else 0)
    case Fraction(x) => Ok(Truncate(x))
    case Infinite(_) => Err(OverflowError)
    case Str(s) =>
      (match ParseInt(s)
       case Some(n) => Ok(n)
       case None => Err(ValueError))
    case _ => Err(ValueError)
  }

  /** A JSON number that is no integer counts as the integer next to it on the side of zero, true as 1 and
      false as 0. */
  lemma CoercesTowardsZero(x: real)
    ensures CoerceInt(Fraction(x)).Ok?
    ensures var key := CoerceInt(Fraction(x)).value as real;
            (x >= 0.0 ==> key <= x < key + 1.0) && (x <= 0.0 ==> key - 1.0 < x <= key)
    ensures CoerceInt(Boolean(true)) == Ok(1) && CoerceInt(Boolean(false)) == Ok(0)
  {
  }

  /** The key a cursor stands for, as `paginate_cursor` reads it. */
  function KeyOf(cursor: string, loads: Loads): Result<int, Failure> {
    match DecodeCursor(cursor, loads)
    case Err(e) => Err(e)
    case Ok(members) => if "k" in members then CoerceInt(members["k"]) else Err(ValueError)
  }

  /** JSON reads back what `encode_cursor` was given for an integer key. */
  ghost predicate ReadsKeys(loads: Loads) {
    forall key: int :: loads(Ascii(KeyText(key))) == Parsed(Object(map["k" := Str(Decimal(key))]))
  }

  /** Every int key survives str, JSON, base64 and back, and its cursor is never the empty string, which
      `if cursor` would take for no cursor. */
  lemma KeySurvives(key: int, loads: Loads)
    requires ReadsKeys(loads)
    ensures KeyOf(KeyCursor(key), loads) == Ok(key) && KeyCursor(key) != ""
  {
    assert loads(Ascii(KeyText(key))) == Parsed(Object(map["k" := Str(Decimal(key))]));
    KeyRead(Ascii(KeyText(key)), key, loads);
  }

  lemma KeyRead(raw: seq<Byte>, key: int, loads: Loads)
    requires raw != [] && loads(raw) == Parsed(Object(map["k" := Str(Decimal(key))]))
    ensures KeyOf(EncodeCursor(raw), loads) == Ok(key) && EncodeCursor(raw) != ""
  {
    KeyOfPayload(raw, loads);
    DecimalRoundTrip(key);
    PaddingRestored(raw);
  }

  /** What reading the cursor of a payload comes to. */
  lemma KeyOfPayload(raw: seq<Byte>, loads: Loads)
    ensures KeyOf(EncodeCursor(raw), loads) == match loads(raw)
              case Parsed(Object(members)) => if "k" in members then CoerceInt(members["k"]) else Err(ValueError)
              case TooDeep => Err(RecursionError)
              case _ => Err(ValueError)
  {
    PaddingRestored(raw);
    DecodeEncode(raw);
  }

  /** What makes a payload fail otherwise than with the documented ValueError: nesting too deep for the JSON
      reader, or a key that is JSON's infinity. */
  predicate Overreaches(payload: Loaded) {
    || payload.TooDeep?
    || (payload.Parsed? && payload.json.Object? && "k" in payload.json.members && payload.json.members["k"].Infinite?)
  }

  /** Of all texts a client may send as cursor, exactly those fail otherwise that decode to such a payload. */
  lemma EscapesExactly(cursor: string, loads: Loads)
    ensures KeyOf(cursor, loads).Err? && KeyOf(cursor, loads).error != ValueError <==>
              Decode(Pad(cursor)).Some? && Overreaches(loads(Decode(Pad(cursor)).value))
  {
  }

  /** So of the cursors made of a payload, any byte string at all, exactly those of such a payload do. */
  lemma PayloadEscapesExactly(raw: seq<Byte>, loads: Loads)
    ensures var key := KeyOf(EncodeCursor(raw), loads);
            && (key == Err(RecursionError) <==> loads(raw).TooDeep?)
            && (key.Err? && key.error != ValueError <==> Overreaches(loads(raw)))
  {
    KeyOfPayload(raw, loads);
  }

  /** Both causes have inputs: the infinity. */
  lemma InfinityEscapes(loads: Loads)
    requires loads(Ascii("{\"k\":Infinity}")) == Parsed(Object(map["k" := Infinite(false)]))
    ensures KeyOf(EncodeCursor(Ascii("{\"k\":Infinity}")), loads) == Err(OverflowError)
  {
    InfinityRead(Ascii("{\"k\":Infinity}"), loads);
  }

  lemma InfinityRead(raw: seq<Byte>, loads: Loads)
    requires loads(raw) == Parsed(Object(map["k" := Infinite(false)]))
    ensures KeyOf(EncodeCursor(raw), loads) == Err(OverflowError)
  {
    KeyOfPayload(raw, loads);
  }

  function Repeated(c: char, n: nat): (s: string)
    ensures |s| == n && forall i | 0 <= i < n :: s[i] == c
  {
    seq(n, _ => c)
  }

  /** And n opening brackets, for any n the JSON reader finds too deep. */
  lemma NestingEscapes(n: nat, loads: Loads)
    requires loads(Ascii(Repeated('[', n))).TooDeep?
    ensures KeyOf(EncodeCursor(Ascii(Repeated('[', n))), loads) == Err(RecursionError)
  {
    KeyOfPayload(Ascii(Repeated('[', n)), loads);
  }
}
