/**
 * Python's strict UTF-8 codec, as used by `bytes.decode()` on a decrypted request
 * and `str.encode()` on the error payload (both default to UTF-8, strict).
 * Well-formed input is exactly the byte sequences of RFC 3629 (no overlong forms,
 * no surrogates, nothing above U+10FFFF); a failure reports the bytes that the
 * codec blames and one of its three reasons.
 */
module Utf8 {
  import opened Bytes

  /** A continuation byte, 10xxxxxx. */
  predicate IsContinuation(b: Byte)
  {
    0x80 <= b <= 0xBF
  }

  /** The one to four bytes that encode a scalar value. */
  function EncodeChar(c: char): (b: Bytes)
    ensures 1 <= |b| <= 4
    ensures c as int < 0x80 <==> |b| == 1
    ensures |b| > 1 ==> 0xC2 <= b[0] <= 0xF4 && forall k :: 1 <= k < |b| ==> IsContinuation(b[k])
  {
    var n := c as int;
    if n < 0x80 then [n]
    else if n < 0x800 then [0xC0 + n / 0x40, 0x80 + n % 0x40]
    else if n < 0x1_0000 then [0xE0 + n / 0x1000, 0x80 + n / 0x40 % 0x40, 0x80 + n % 0x40]
    else [0xF0 + n / 0x4_0000, 0x80 + n / 0x1000 % 0x40, 0x80 + n / 0x40 % 0x40, 0x80 + n % 0x40]
  }

  /** `str.encode()`: the concatenation of the encodings of the characters, in order. */
  function Encode(s: string): (b: Bytes)
    ensures |b| >= |s|
  {
    if s == [] then [] else EncodeChar(s[0]) + Encode(s[1..])
  }

  /** Why the codec rejects a sequence, with the wording of its error message. */
  datatype Reason = InvalidStartByte | InvalidContinuationByte | UnexpectedEndOfData
  {
    function Text(): string
    {
      match this
      case InvalidStartByte => "invalid start byte"
      case InvalidContinuationByte => "invalid continuation byte"
      case UnexpectedEndOfData => "unexpected end of data"
    }
  }

  /** A failed decode: the blamed bytes are positions `start` up to (excluding) `end`. */
  datatype DecodeError = DecodeError(start: nat, end: nat, reason: Reason)

  /** The outcome of decoding the sequence that starts at the front of some bytes. */
  datatype Step = Scalar(c: char, width: nat) | Bad(width: nat, reason: Reason)

  /** Decodes the first scalar value, classifying a failure the way the codec does. */
  function DecodeStep(b: Bytes): (r: Step)
    requires |b| > 0
    ensures 1 <= r.width <= |b| && r.width <= 4
  {
    var b0: int := b[0];
    if b0 < 0x80 then Scalar(b0 as char, 1)
    else if b0 < 0xC2 then Bad(1, InvalidStartByte)
    else if b0 < 0xE0 then
      if |b| < 2 then Bad(|b|, UnexpectedEndOfData)
      else if !IsContinuation(b[1]) then Bad(1, InvalidContinuationByte)
      else Scalar(((b0 - 0xC0) * 0x40 + (b[1] as int - 0x80)) as char, 2)
    else if b0 < 0xF0 then
      var lo := if b0 == 0xE0 then 0xA0 else 0x80;
      var hi := if b0 == 0xED then 0x9F else 0xBF;
      if |b| < 2 then Bad(|b|, UnexpectedEndOfData)
      else if !(lo <= b[1] <= hi) then Bad(1, InvalidContinuationByte)
      else if |b| < 3 then Bad(|b|, UnexpectedEndOfData)
      else if !IsContinuation(b[2]) then Bad(2, InvalidContinuationByte)
      else Scalar(((b0 - 0xE0) * 0x1000 + (b[1] as int - 0x80) * 0x40 + (b[2] as int - 0x80)) as char, 3)
    else if b0 < 0xF5 then
      var lo := if b0 == 0xF0 then 0x90 else 0x80;
      var hi := if b0 == 0xF4 then 0x8F else 0xBF;
      if |b| < 2 then Bad(|b|, UnexpectedEndOfData)
      else if !(lo <= b[1] <= hi) then Bad(1, InvalidContinuationByte)
      else if |b| < 3 then Bad(|b|, UnexpectedEndOfData)
      else if !IsContinuation(b[2]) then Bad(2, InvalidContinuationByte)
      else if |b| < 4 then Bad(|b|, UnexpectedEndOfData)
      else if !IsContinuation(b[3]) then Bad(3, InvalidContinuationByte)
      else Scalar(((b0 - 0xF0) * 0x4_0000 + (b[1] as int - 0x80) * 0x1000 + (b[2] as int - 0x80) * 0x40
                   + (b[3] as int - 0x80)) as char, 4)
    else Bad(1, InvalidStartByte)
  }

  /** Decodes `b`, which stands at position `offset` of the whole input; errors carry whole-input positions. */
  function DecodeFrom(b: Bytes, offset: nat): (r: Result<string, DecodeError>)
    ensures r.Err? ==> offset <= r.error.start < r.error.end <= offset + |b|
    decreases |b|
  {
    if b == [] then Ok([])
    else match DecodeStep(b)
      case Bad(w, reason) => Err(DecodeError(offset, offset + w, reason))
      case Scalar(c, w) =>
        match DecodeFrom(b[w..], offset + w)
        case Ok(s) => Ok([c] + s)
        case Err(e) => Err(e)
  }

  /** `bytes.decode()`. */
  function Decode(b: Bytes): Result<string, DecodeError>
  {
    DecodeFrom(b, 0)
  }

  /** A two-byte encoding decodes back to its character (for `DecodeStepEncodeChar`). */
  lemma EncodeStep2(c: char, rest: Bytes)
    requires 0x80 <= c as int < 0x800
    ensures DecodeStep(EncodeChar(c) + rest) == Scalar(c, 2)
  {
    var n := c as int;
    var b := EncodeChar(c) + rest;
    var x0: int, x1: int := b[0], b[1];
    assert x0 == 0xC0 + n / 0x40 && x1 == 0x80 + n % 0x40;
    assert (x0 - 0xC0) * 0x40 + (x1 - 0x80) == n;
  }

  /** A three-byte encoding decodes back to its character (for `DecodeStepEncodeChar`). */
  lemma EncodeStep3(c: char, rest: Bytes)
    requires 0x800 <= c as int < 0x1_0000
    ensures DecodeStep(EncodeChar(c) + rest) == Scalar(c, 3)
  {
    var n := c as int;
    var b := EncodeChar(c) + rest;
    var x0: int, x1: int, x2: int := b[0], b[1], b[2];
    assert x0 == 0xE0 + n / 0x1000 && x1 == 0x80 + n / 0x40 % 0x40 && x2 == 0x80 + n % 0x40;
    assert n / 0x40 == n / 0x1000 * 0x40 + n / 0x40 % 0x40;
    assert (x0 - 0xE0) * 0x1000 + (x1 - 0x80) * 0x40 + (x2 - 0x80) == n;
  }

  /** A four-byte encoding decodes back to its character (for `DecodeStepEncodeChar`). */
  lemma EncodeStep4(c: char, rest: Bytes)
    requires 0x1_0000 <= c as int
    ensures DecodeStep(EncodeChar(c) + rest) == Scalar(c, 4)
  {
    var n := c as int;
    var b := EncodeChar(c) + rest;
    var x0: int, x1: int, x2: int, x3: int := b[0], b[1], b[2], b[3];
    assert x0 == 0xF0 + n / 0x4_0000 && x1 == 0x80 + n / 0x1000 % 0x40;
    assert x2 == 0x80 + n / 0x40 % 0x40 && x3 == 0x80 + n % 0x40;
    assert n / 0x1000 == n / 0x4_0000 * 0x40 + n / 0x1000 % 0x40;
    assert n / 0x40 == n / 0x1000 * 0x40 + n / 0x40 % 0x40;
    assert (x0 - 0xF0) * 0x4_0000 + (x1 - 0x80) * 0x1000 + (x2 - 0x80) * 0x40 + (x3 - 0x80) == n;
  }

  /** The decoder reads back the first character of an encoding, and exactly its bytes. */
  lemma DecodeStepEncodeChar(c: char, rest: Bytes)
    ensures DecodeStep(EncodeChar(c) + rest) == Scalar(c, |EncodeChar(c)|)
  {
    var n := c as int;
    if n < 0x80 {
    } else if n < 0x800 {
      EncodeStep2(c, rest);
    } else if n < 0x1_0000 {
      EncodeStep3(c, rest);
    } else {
      EncodeStep4(c, rest);
    }
  }

  /** The arithmetic of a two-byte sequence: it recovers its own bytes (for `Canonical2At`). */
  lemma Canonical2(x0: int, x1: int)
    requires 0xC2 <= x0 <= 0xDF && 0x80 <= x1 <= 0xBF
    ensures var n := (x0 - 0xC0) * 0x40 + (x1 - 0x80);
      0x80 <= n < 0x800 && n / 0x40 == x0 - 0xC0 && n % 0x40 == x1 - 0x80
  {
  }

  /** The arithmetic of a three-byte sequence (for `Canonical3At`). */
  lemma Canonical3(x0: int, x1: int, x2: int)
    requires 0xE0 <= x0 <= 0xEF && 0x80 <= x1 <= 0xBF && 0x80 <= x2 <= 0xBF
    requires x0 == 0xE0 ==> x1 >= 0xA0
    ensures var n := (x0 - 0xE0) * 0x1000 + (x1 - 0x80) * 0x40 + (x2 - 0x80);
      0x800 <= n < 0x1_0000 && n / 0x1000 == x0 - 0xE0 && n / 0x40 % 0x40 == x1 - 0x80 && n % 0x40 == x2 - 0x80
  {
    var n := (x0 - 0xE0) * 0x1000 + (x1 - 0x80) * 0x40 + (x2 - 0x80);
    assert n / 0x40 == (x0 - 0xE0) * 0x40 + (x1 - 0x80);
  }

  /** The arithmetic of a four-byte sequence (for `Canonical4At`). */
  lemma Canonical4(x0: int, x1: int, x2: int, x3: int)
    requires 0xF0 <= x0 <= 0xF4 && 0x80 <= x1 <= 0xBF && 0x80 <= x2 <= 0xBF && 0x80 <= x3 <= 0xBF
    requires x0 == 0xF0 ==> x1 >= 0x90
    ensures var n := (x0 - 0xF0) * 0x4_0000 + (x1 - 0x80) * 0x1000 + (x2 - 0x80) * 0x40 + (x3 - 0x80);
      0x1_0000 <= n && n / 0x4_0000 == x0 - 0xF0 && n / 0x1000 % 0x40 == x1 - 0x80
      && n / 0x40 % 0x40 == x2 - 0x80 && n % 0x40 == x3 - 0x80
  {
    var n := (x0 - 0xF0) * 0x4_0000 + (x1 - 0x80) * 0x1000 + (x2 - 0x80) * 0x40 + (x3 - 0x80);
    assert n / 0x1000 == (x0 - 0xF0) * 0x40 + (x1 - 0x80);
    assert n / 0x40 == ((x0 - 0xF0) * 0x40 + (x1 - 0x80)) * 0x40 + (x2 - 0x80);
  }

  /** An accepted two-byte sequence is the encoding of what it decodes to (for `DecodeStepCanonical`). */
  lemma Canonical2At(b: Bytes)
    requires |b| >= 2 && DecodeStep(b).Scalar? && DecodeStep(b).width == 2
    ensures b[..2] == EncodeChar(DecodeStep(b).c)
  {
    Canonical2(b[0], b[1]);
  }

  /** An accepted three-byte sequence is the encoding of what it decodes to (for `DecodeStepCanonical`). */
  lemma Canonical3At(b: Bytes)
    requires |b| >= 3 && DecodeStep(b).Scalar? && DecodeStep(b).width == 3
    ensures b[..3] == EncodeChar(DecodeStep(b).c)
  {
    Canonical3(b[0], b[1], b[2]);
  }

  /** An accepted four-byte sequence is the encoding of what it decodes to (for `DecodeStepCanonical`). */
  lemma Canonical4At(b: Bytes)
    requires |b| >= 4 && DecodeStep(b).Scalar? && DecodeStep(b).width == 4
    ensures b[..4] == EncodeChar(DecodeStep(b).c)
  {
    Canonical4(b[0], b[1], b[2], b[3]);
  }

  /** The decoder accepts only the canonical encoding of the character it returns. */
  lemma DecodeStepCanonical(b: Bytes)
    requires |b| > 0 && DecodeStep(b).Scalar?
    ensures DecodeStep(b).width <= |b| && b[..DecodeStep(b).width] == EncodeChar(DecodeStep(b).c)
  {
    var w := DecodeStep(b).width;
    if w == 2 {
      Canonical2At(b);
    } else if w == 3 {
      Canonical3At(b);
    } else if w == 4 {
      Canonical4At(b);
    }
  }

  /** Round trip: decoding the encoding of any string gives the string back. */
  lemma {:induction false} DecodeEncode(s: string, offset: nat)
    ensures DecodeFrom(Encode(s), offset) == Ok(s)
    decreases |s|
  {
    if s != [] {
      var e := EncodeChar(s[0]);
      var b := Encode(s);
      assert b == e + Encode(s[1..]);
      DecodeStepEncodeChar(s[0], Encode(s[1..]));
      assert b[|e|..] == Encode(s[1..]);
      DecodeEncode(s[1..], offset + |e|);
      assert [s[0]] + s[1..] == s;
    }
  }

  /** One step of a successful decode (for `DecodeGlue`). */
  lemma DecodeFromUnfold(b: Bytes, offset: nat)
    requires b != [] && DecodeFrom(b, offset).Ok?
    ensures DecodeStep(b).Scalar?
    ensures DecodeFrom(b[DecodeStep(b).width..], offset + DecodeStep(b).width).Ok?
    ensures DecodeFrom(b, offset).value
            == [DecodeStep(b).c] + DecodeFrom(b[DecodeStep(b).width..], offset + DecodeStep(b).width).value
  {
  }

  /** Encoding a string with a first character (for `Glue`). */
  lemma EncodeCons(c: char, s: string)
    ensures Encode([c] + s) == EncodeChar(c) + Encode(s)
  {
    assert ([c] + s)[1..] == s;
  }

  /** A successful decode goes on successfully after the first character's bytes. */
  lemma DecodeRest(b: Bytes, offset: nat)
    requires b != [] && DecodeFrom(b, offset).Ok?
    ensures DecodeStep(b).Scalar?
    ensures DecodeFrom(b[DecodeStep(b).width..], offset + DecodeStep(b).width).Ok?
  {
  }

  /** If the rest re-encodes to its bytes, so does the whole, the first character being canonical (the step of `EncodeDecode`). */
  lemma DecodeGlue(b: Bytes, offset: nat)
    requires b != [] && DecodeFrom(b, offset).Ok? && DecodeStep(b).Scalar?
    requires var w := DecodeStep(b).width;
             w <= |b| && DecodeFrom(b[w..], offset + w).Ok? && Encode(DecodeFrom(b[w..], offset + w).value) == b[w..]
    ensures Encode(DecodeFrom(b, offset).value) == b
  {
    var st := DecodeStep(b);
    var tail := DecodeFrom(b[st.width..], offset + st.width).value;
    DecodeFromUnfold(b, offset);
    DecodeStepCanonical(b);
    Glue(b, st.c, st.width, tail);
  }

  /** A canonical first character followed by the encoding of the rest is the encoding of the whole (for `DecodeGlue`). */
  lemma Glue(b: Bytes, c: char, w: nat, tail: string)
    requires w <= |b| && b[..w] == EncodeChar(c) && b[w..] == Encode(tail)
    ensures Encode([c] + tail) == b
  {
    EncodeCons(c, tail);
    Rejoin(b, w, EncodeChar(c), Encode(tail));
  }

  /** Cutting a byte string in two and gluing the halves back gives it again (for `Glue`). */
  lemma Rejoin(b: Bytes, w: nat, x: Bytes, y: Bytes)
    requires w <= |b| && b[..w] == x && b[w..] == y
    ensures x + y == b
  {
    assert b == b[..w] + b[w..];
  }

  /** Strictness: a successful decode only accepts the one canonical encoding of its result. */
  lemma {:induction false} EncodeDecode(b: Bytes, offset: nat)
    requires DecodeFrom(b, offset).Ok?
    ensures Encode(DecodeFrom(b, offset).value) == b
    decreases |b|
  {
    if b != [] {
      DecodeRest(b, offset);
      var w := DecodeStep(b).width;
      EncodeDecode(b[w..], offset + w);
      DecodeGlue(b, offset);
    }
  }

  /** The two directions together: `b` decodes to `s` exactly when `s` encodes to `b`. */
  lemma DecodeIffEncode(b: Bytes, s: string)
    ensures Decode(b) == Ok(s) <==> Encode(s) == b
  {
    if Decode(b) == Ok(s) {
      EncodeDecode(b, 0);
    }
    if Encode(s) == b {
      DecodeEncode(s, 0);
    }
  }

  /** A lower-case hexadecimal digit, as in CPython's messages. */
  function HexDigit(d: nat): char
    requires d < 16
  {
    "0123456789abcdef"[d]
  }

  /** `%zd` of a non-negative number. */
  function DecimalText(n: nat): (s: string)
    ensures |s| >= 1
  {
    if n < 10 then ["0123456789"[n]] else DecimalText(n / 10) + ["0123456789"[n % 10]]
  }

  /**
   * `str(e)` of the `UnicodeDecodeError` for input `b`: one blamed byte is shown
   * in hexadecimal with its position, several as a position range.
   */
  function ErrorText(b: Bytes, e: DecodeError): string
  {
    "'utf-8' codec can't decode "
    + (if e.end == e.start + 1 && e.start < |b|
       then "byte 0x" + [HexDigit(b[e.start] / 16), HexDigit(b[e.start] % 16)] + " in position " + DecimalText(e.start)
       else "bytes in position " + DecimalText(e.start) + "-" + DecimalText(if e.end > 0 then e.end - 1 else 0))
    + ": " + e.reason.Text()
  }

  /**
   * CPython's message for a lone FF: an invalid start byte at position 0, shown
   * as "'utf-8' codec can't decode byte 0xff in position 0: invalid start byte".
   */
  lemma DecodeErrorTextStart()
    ensures Decode([0xFF]) == Err(DecodeError(0, 1, InvalidStartByte))
    ensures ErrorText([0xFF], DecodeError(0, 1, InvalidStartByte))
            == "'utf-8' codec can't decode " + "byte 0x" + "ff" + " in position " + "0" + ": " + "invalid start byte"
  {
    assert DecodeStep([0xFF]) == Bad(1, InvalidStartByte);
    assert [HexDigit(0xFF / 16), HexDigit(0xFF % 16)] == "ff";
    assert DecimalText(0) == "0";
  }

  /**
   * CPython's message for a three-byte sequence cut after its second byte, a blamed
   * range: "'utf-8' codec can't decode bytes in position 0-1: unexpected end of data".
   */
  lemma DecodeErrorTextRange()
    ensures Decode([0xE2, 0x82]) == Err(DecodeError(0, 2, UnexpectedEndOfData))
    ensures ErrorText([0xE2, 0x82], DecodeError(0, 2, UnexpectedEndOfData))
            == "'utf-8' codec can't decode " + "bytes in position " + "0" + "-" + "1" + ": " + "unexpected end of data"
  {
    assert DecodeStep([0xE2, 0x82]) == Bad(2, UnexpectedEndOfData);
    assert DecimalText(0) == "0" && DecimalText(1) == "1";
  }
}
