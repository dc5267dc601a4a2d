/**
 * What the front end's `fetch` handlers have in common: JavaScript values
 * that may be `undefined` or `null`, the three ways a request completes, the
 * error message derived from a failed response, `String.prototype.trim`'s
 * notion of whitespace, and `encodeURIComponent`.
 */
module Fetching {
  import opened Wrappers
  import opened Text

  /** A JSON field as JavaScript sees it: missing (`undefined`), `null`, or a value. */
  datatype JsValue<+T> = Undefined | Null | Value(v: T)

  /** Truthiness of a string field: present and not empty. */
  predicate TruthyText(x: JsValue<string>) {
    x.Value? && x.v != ""
  }

  /**
   * How an awaited request ends: a 2xx response whose body parsed; a response
   * that is not ok, with the `detail` field of its body (`Undefined` when the
   * body did not parse or has no `detail`); or an exception (network failure,
   * a body that did not parse after an ok status) with its message.
   */
  datatype Completion<+T> = Ok(body: T) | NotOk(status: nat, detail: JsValue<string>) | Thrown(message: string)

  /** `data.detail || \`Error: ${resp.status}\``. */
  function FailureMessage(status: nat, detail: JsValue<string>): (msg: string)
    ensures TruthyText(detail) ==> msg == detail.v
    ensures !TruthyText(detail) ==> msg == "Error: " + DecimalString(status)
    ensures msg != ""
  {
    if TruthyText(detail) then detail.v else "Error: " + DecimalString(status)
  }

  /** The message a failed completion leaves in the error cell, or `None` for success. */
  function ErrorOf<T>(c: Completion<T>): (r: Option<string>)
    ensures r.None? <==> c.Ok?
  {
    match c
    case Ok(_) => None
    case NotOk(status, detail) => Some(FailureMessage(status, detail))
    case Thrown(message) => Some(message)
  }

  // ---------------------------------------------------------------------------
  // trim

  /** ECMAScript WhiteSpace and LineTerminator, what `trim` removes. */
  predicate IsJsSpace(c: char) {
    '\t' <= c <= '\r' || c == ' ' || c == '\U{A0}' || c == '\U{1680}' || '\U{2000}' <= c <= '\U{200A}' ||
    c == '\U{2028}' || c == '\U{2029}' || c == '\U{202F}' || c == '\U{205F}' || c == '\U{3000}' || c == '\U{FEFF}'
  }

  /** `s.trim()`. */
  function Trim(s: string): (r: string)
    ensures |r| <= |s|
    ensures r == [] || (!IsJsSpace(r[0]) && !IsJsSpace(r[|r| - 1]))
    ensures r == [] <==> forall i :: 0 <= i < |s| ==> IsJsSpace(s[i])
    decreases |s|
  {
    if s == [] then []
    else if IsJsSpace(s[0]) then
      var r := Trim(s[1..]);
      assert forall i :: 1 <= i < |s| ==> s[i] == s[1..][i - 1];
      r
    else if IsJsSpace(s[|s| - 1]) then
      var r := Trim(s[..|s| - 1]);
      assert !IsJsSpace(s[..|s| - 1][0]);
      r
    else
      s
  }

  // ---------------------------------------------------------------------------
  // encodeURIComponent

  /** The characters `encodeURIComponent` leaves as they are. */
  predicate IsUnreserved(c: char) {
    'A' <= c <= 'Z' || 'a' <= c <= 'z' || '0' <= c <= '9' ||
    c == '-' || c == '_' || c == '.' || c == '!' || c == '~' || c == '*' || c == '\'' || c == '(' || c == ')'
  }

  /** The UTF-8 bytes of one character. */
  function Utf8(c: char): (r: seq<nat>)
    ensures 1 <= |r| <= 4
    ensures forall i :: 0 <= i < |r| ==> r[i] < 256
  {
    var n := c as int;
    if n < 0x80 then [n]
    else if n < 0x800 then [0xC0 + n / 64, 0x80 + n % 64]
    else if n < 0x10000 then [0xE0 + n / 4096, 0x80 + (n / 64) % 64, 0x80 + n % 64]
    else [0xF0 + n / 262144, 0x80 + (n / 4096) % 64, 0x80 + (n / 64) % 64, 0x80 + n % 64]
  }

  function HexDigit(d: nat): char
    requires d < 16
  {
    if d < 10 then ('0' as int + d) as char else ('A' as int + d - 10) as char
  }

  /** `%XY` for one byte, upper-case hexadecimal. */
  function Percent(b: nat): string
    requires b < 256
  {
    ['%', HexDigit(b / 16), HexDigit(b % 16)]
  }

  function PercentAll(bytes: seq<nat>): (r: string)
    requires forall i :: 0 <= i < |bytes| ==> bytes[i] < 256
    ensures |r| == 3 * |bytes|
  {
    if bytes == [] then [] else Percent(bytes[0]) + PercentAll(bytes[1..])
  }

  function EncodeChar(c: char): string {
    if IsUnreserved(c) then [c] else PercentAll(Utf8(c))
  }

  /** `encodeURIComponent(s)`. */
  function EncodeUriComponent(s: string): (r: string)
    ensures forall i :: 0 <= i < |r| ==> IsUnreserved(r[i]) || r[i] == '%' || IsHexUpper(r[i])
  {
    if s == [] then []
    else
      var e := EncodeChar(s[0]);
      EncodeCharShape(s[0]);
      e + EncodeUriComponent(s[1..])
  }

  predicate IsHexUpper(c: char) {
    '0' <= c <= '9' || 'A' <= c <= 'F'
  }

  lemma {:induction false} EncodeCharShape(c: char)
    ensures forall i :: 0 <= i < |EncodeChar(c)| ==>
      IsUnreserved(EncodeChar(c)[i]) || EncodeChar(c)[i] == '%' || IsHexUpper(EncodeChar(c)[i])
  {
    if !IsUnreserved(c) {
      PercentAllShape(Utf8(c));
    }
  }

  lemma {:induction false} PercentAllShape(bytes: seq<nat>)
    requires forall i :: 0 <= i < |bytes| ==> bytes[i] < 256
    ensures forall i :: 0 <= i < |PercentAll(bytes)| ==> PercentAll(bytes)[i] == '%' || IsHexUpper(PercentAll(bytes)[i])
  {
    if bytes != [] {
      PercentAllShape(bytes[1..]);
    }
  }

  /** A string made only of unreserved characters is sent as it is. */
  lemma {:induction false} EncodeUnreserved(s: string)
    requires forall i :: 0 <= i < |s| ==> IsUnreserved(s[i])
    ensures EncodeUriComponent(s) == s
  {
    if s != [] {
      EncodeUnreserved(s[1..]);
      assert s == [s[0]] + s[1..];
    }
  }

  // ---------------------------------------------------------------------------
  // Its inverse: percent-decoding followed by UTF-8 decoding

  /** The value of one hexadecimal digit, either case. */
  function HexValue(c: char): Option<nat> {
    if '0' <= c <= '9' then Some(c as int - '0' as int)
    else if 'A' <= c <= 'F' then Some(c as int - 'A' as int + 10)
    else if 'a' <= c <= 'f' then Some(c as int - 'a' as int + 10)
    else None
  }

  /** The byte written as `%XY` at index `i`, if there is one. */
  function ByteAt(s: string, i: nat): (r: Option<nat>)
    ensures r.Some? ==> r.value < 256
  {
    if i + 3 <= |s| && s[i] == '%' && HexValue(s[i + 1]).Some? && HexValue(s[i + 2]).Some? then
      Some(16 * HexValue(s[i + 1]).value + HexValue(s[i + 2]).value)
    else None
  }

  /** The number of bytes of the UTF-8 sequence that lead byte `b` opens, 0 for a byte that opens none. */
  function SequenceLength(b: nat): nat {
    if b < 0x80 then 1
    else if 0xC2 <= b < 0xE0 then 2
    else if 0xE0 <= b < 0xF0 then 3
    else if 0xF0 <= b < 0xF5 then 4
    else 0
  }

  /** The low six bits of continuation byte `j` of the sequence starting at index 0. */
  function Continuation(s: string, j: nat): Option<nat> {
    var b := ByteAt(s, 3 * j);
    if b.Some? && 0x80 <= b.value < 0xC0 then Some(b.value - 0x80) else None
  }

  /** One character written as percent-escaped UTF-8 at the start of `s`, and how many characters it took. */
  function DecodeSequence(s: string): (r: Option<(char, nat)>)
    ensures r.Some? ==> 3 <= r.value.1 <= |s|
  {
    var b0 := ByteAt(s, 0);
    if b0.None? || SequenceLength(b0.value) == 0 then None
    else
      var n := SequenceLength(b0.value);
      var c1 := Continuation(s, 1);
      var c2 := Continuation(s, 2);
      var c3 := Continuation(s, 3);
      var cp :=
        if n == 1 then Some(b0.value)
        else if n == 2 then (if c1.Some? then Some((b0.value - 0xC0) * 64 + c1.value) else None)
        else if n == 3 then (if c1.Some? && c2.Some? then Some((b0.value - 0xE0) * 4096 + c1.value * 64 + c2.value) else None)
        else (if c1.Some? && c2.Some? && c3.Some? then Some((b0.value - 0xF0) * 262144 + c1.value * 4096 + c2.value * 64 + c3.value) else None);
      if cp.Some? && (cp.value < 0xD800 || 0xE000 <= cp.value < 0x110000) then Some((cp.value as char, 3 * n))
      else None
  }

  /** `decodeURIComponent(s)`: `None` where it would throw a `URIError`. */
  function DecodeUriComponent(s: string): Option<string>
    decreases |s|
  {
    if s == [] then Some([])
    else if s[0] != '%' then
      var rest := DecodeUriComponent(s[1..]);
      if rest.Some? then Some([s[0]] + rest.value) else None
    else
      match DecodeSequence(s)
      case None => None
      case Some((c, k)) =>
        var rest := DecodeUriComponent(s[k..]);
        if rest.Some? then Some([c] + rest.value) else None
  }

  lemma {:induction false} HexRoundTrip(d: nat)
    requires d < 16
    ensures HexValue(HexDigit(d)) == Some(d)
  {
  }

  /** The escape of byte `j` sits at position `3 * j` of the escaped bytes, whatever follows them. */
  lemma {:induction false} PercentAllIndex(bytes: seq<nat>, t: string, j: nat)
    requires forall i :: 0 <= i < |bytes| ==> bytes[i] < 256
    requires j < |bytes|
    ensures 3 * j + 3 <= |PercentAll(bytes) + t|
    ensures (PercentAll(bytes) + t)[3 * j] == '%'
    ensures (PercentAll(bytes) + t)[3 * j + 1] == HexDigit(bytes[j] / 16)
    ensures (PercentAll(bytes) + t)[3 * j + 2] == HexDigit(bytes[j] % 16)
  {
    var rest := PercentAll(bytes[1..]) + t;
    assert PercentAll(bytes) + t == Percent(bytes[0]) + rest;
    if j > 0 {
      PercentAllIndex(bytes[1..], t, j - 1);
      assert bytes[1..][j - 1] == bytes[j];
    }
  }

  lemma {:induction false} ByteOfPercent(s: string, i: nat, b: nat)
    requires b < 256 && i + 3 <= |s|
    requires s[i] == '%' && s[i + 1] == HexDigit(b / 16) && s[i + 2] == HexDigit(b % 16)
    ensures ByteAt(s, i) == Some(b)
  {
    HexRoundTrip(b / 16);
    HexRoundTrip(b % 16);
  }

  /** Byte `j` of the escaped bytes is read back at position `3 * j`. */
  lemma {:induction false} PercentAllAt(bytes: seq<nat>, t: string, j: nat)
    requires forall i :: 0 <= i < |bytes| ==> bytes[i] < 256
    requires j < |bytes|
    ensures ByteAt(PercentAll(bytes) + t, 3 * j) == Some(bytes[j])
  {
    PercentAllIndex(bytes, t, j);
    ByteOfPercent(PercentAll(bytes) + t, 3 * j, bytes[j]);
  }

  lemma {:induction false} DecodeOne(s: string, n: nat)
    requires n < 0x80 && ByteAt(s, 0) == Some(n)
    ensures DecodeSequence(s) == Some((n as char, 3))
  {
  }

  lemma {:induction false} DecodeTwo(s: string, n: nat)
    requires 0x80 <= n < 0x800
    requires ByteAt(s, 0) == Some(0xC0 + n / 64) && ByteAt(s, 3) == Some(0x80 + n % 64)
    ensures DecodeSequence(s) == Some((n as char, 6))
  {
    assert Continuation(s, 1) == Some(n % 64);
  }

  lemma {:induction false} DecodeThree(s: string, n: nat)
    requires 0x800 <= n < 0x10000 && (n < 0xD800 || 0xE000 <= n)
    requires ByteAt(s, 0) == Some(0xE0 + n / 4096)
    requires ByteAt(s, 3) == Some(0x80 + (n / 64) % 64) && ByteAt(s, 6) == Some(0x80 + n % 64)
    ensures DecodeSequence(s) == Some((n as char, 9))
  {
    var q := n / 64;
    assert n == q * 64 + n % 64;
    assert n / 4096 == q / 64;
    assert q == (q / 64) * 64 + q % 64;
    assert Continuation(s, 1) == Some(q % 64);
    assert Continuation(s, 2) == Some(n % 64);
  }

  lemma {:induction false} DecodeFour(s: string, n: nat)
    requires 0x10000 <= n < 0x110000
    requires ByteAt(s, 0) == Some(0xF0 + n / 262144)
    requires ByteAt(s, 3) == Some(0x80 + (n / 4096) % 64)
    requires ByteAt(s, 6) == Some(0x80 + (n / 64) % 64) && ByteAt(s, 9) == Some(0x80 + n % 64)
    ensures DecodeSequence(s) == Some((n as char, 12))
  {
    var q1 := n / 64;
    var q2 := q1 / 64;
    assert n == q1 * 64 + n % 64;
    assert q1 == q2 * 64 + q1 % 64;
    assert q2 == (q2 / 64) * 64 + q2 % 64;
    assert n / 4096 == q2;
    assert n / 262144 == q2 / 64;
    assert Continuation(s, 1) == Some(q2 % 64);
    assert Continuation(s, 2) == Some(q1 % 64);
    assert Continuation(s, 3) == Some(n % 64);
  }

  /** The escaped UTF-8 bytes of a character decode to that character. */
  lemma {:induction false} DecodeEncodedChar(c: char, t: string)
    requires !IsUnreserved(c)
    ensures DecodeSequence(PercentAll(Utf8(c)) + t) == Some((c, |EncodeChar(c)|))
  {
    var bytes := Utf8(c);
    var s := PercentAll(bytes) + t;
    var n := c as int;
    PercentAllAt(bytes, t, 0);
    if n < 0x80 {
      assert bytes == [n];
      DecodeOne(s, n);
    } else if n < 0x800 {
      assert bytes == [0xC0 + n / 64, 0x80 + n % 64];
      PercentAllAt(bytes, t, 1);
      assert ByteAt(s, 0) == Some(0xC0 + n / 64);
      assert ByteAt(s, 3) == Some(0x80 + n % 64);
      DecodeTwo(s, n);
    } else if n < 0x10000 {
      assert bytes == [0xE0 + n / 4096, 0x80 + (n / 64) % 64, 0x80 + n % 64];
      PercentAllAt(bytes, t, 1);
      PercentAllAt(bytes, t, 2);
      assert ByteAt(s, 0) == Some(0xE0 + n / 4096);
      assert ByteAt(s, 3) == Some(0x80 + (n / 64) % 64);
      assert ByteAt(s, 6) == Some(0x80 + n % 64);
      DecodeThree(s, n);
    } else {
      assert bytes == [0xF0 + n / 262144, 0x80 + (n / 4096) % 64, 0x80 + (n / 64) % 64, 0x80 + n % 64];
      PercentAllAt(bytes, t, 1);
      PercentAllAt(bytes, t, 2);
      PercentAllAt(bytes, t, 3);
      assert ByteAt(s, 0) == Some(0xF0 + n / 262144);
      assert ByteAt(s, 3) == Some(0x80 + (n / 4096) % 64);
      assert ByteAt(s, 6) == Some(0x80 + (n / 64) % 64);
      assert ByteAt(s, 9) == Some(0x80 + n % 64);
      DecodeFour(s, n);
    }
  }

  /** Decoding a string that starts with an escaped character. */
  lemma {:induction false} DecodeEscaped(s: string, c: char, k: nat)
    requires s != [] && s[0] == '%' && DecodeSequence(s) == Some((c, k))
    ensures DecodeUriComponent(s) == (var rest := DecodeUriComponent(s[k..]); if rest.Some? then Some([c] + rest.value) else None)
  {
  }

  /** Decoding a string that starts with a plain character. */
  lemma {:induction false} DecodePlain(s: string)
    requires s != [] && s[0] != '%'
    ensures DecodeUriComponent(s) == (var rest := DecodeUriComponent(s[1..]); if rest.Some? then Some([s[0]] + rest.value) else None)
  {
  }

  /** One step of the round trip for a character written as itself. */
  lemma {:induction false} RoundTripPlain(s: string)
    requires s != [] && IsUnreserved(s[0])
    requires DecodeUriComponent(EncodeUriComponent(s[1..])) == Some(s[1..])
    ensures DecodeUriComponent(EncodeUriComponent(s)) == Some(s)
  {
    var e := EncodeUriComponent(s);
    assert e == [s[0]] + EncodeUriComponent(s[1..]);
    assert e[0] == s[0] && e[1..] == EncodeUriComponent(s[1..]);
    DecodePlain(e);
    assert s == [s[0]] + s[1..];
  }

  /** One step of the round trip for an escaped character. */
  lemma {:induction false} RoundTripEscaped(s: string)
    requires s != [] && !IsUnreserved(s[0])
    requires DecodeUriComponent(EncodeUriComponent(s[1..])) == Some(s[1..])
    ensures DecodeUriComponent(EncodeUriComponent(s)) == Some(s)
  {
    var head := EncodeChar(s[0]);
    var rest := EncodeUriComponent(s[1..]);
    var e := EncodeUriComponent(s);
    assert e == head + rest;
    DecodeEncodedChar(s[0], rest);
    PercentAllIndex(Utf8(s[0]), rest, 0);
    assert e[|head|..] == rest;
    DecodeEscaped(e, s[0], |head|);
    assert s == [s[0]] + s[1..];
  }

  /** Decoding undoes `encodeURIComponent`. */
  lemma {:induction false} UriComponentRoundTrip(s: string)
    ensures DecodeUriComponent(EncodeUriComponent(s)) == Some(s)
  {
    if s != [] {
      UriComponentRoundTrip(s[1..]);
      if IsUnreserved(s[0]) {
        RoundTripPlain(s);
      } else {
        RoundTripEscaped(s);
      }
    }
  }
}
