/** Python 2's "hex" codec: `s.encode('hex')` writes two lower-case digits
    per byte; `s.decode('hex')` accepts either case and raises on an odd
    length or a non-hexadecimal character. */
module Hex {
  import opened Types

  const Digits: string := "0123456789abcdef"

  predicate IsHexDigit(c: char)
  {
    '0' <= c <= '9' || 'a' <= c <= 'f' || 'A' <= c <= 'F'
  }

  /** A digit as `encode('hex')` writes it. */
  predicate IsLowerHexDigit(c: char)
  {
    '0' <= c <= '9' || 'a' <= c <= 'f'
  }

  /** The value of one hexadecimal digit of either case. */
  function DigitValue(c: char): (v: nat)
    requires IsHexDigit(c)
    ensures v < 16
  {
    if '0' <= c <= '9' then (c as int) - ('0' as int)
    else if 'a' <= c <= 'f' then (c as int) - ('a' as int) + 10
    else (c as int) - ('A' as int) + 10
  }

  function Encode(b: Bytes): (s: string)
    ensures |s| == 2 * |b|
    ensures forall i :: 0 <= i < |s| ==> IsLowerHexDigit(s[i])
  {
    if b == [] then []
    else [Digits[b[0] / 16], Digits[b[0] % 16]] + Encode(b[1..])
  }

  function Decode(s: string): (r: Option<Bytes>)
    ensures r.Some? <==> |s| % 2 == 0 && forall i :: 0 <= i < |s| ==> IsHexDigit(s[i])
    ensures r.Some? ==> 2 * |r.value| == |s|
    decreases |s|
  {
    if |s| == 0 then Some([])
    else if |s| == 1 || !IsHexDigit(s[0]) || !IsHexDigit(s[1]) then None
    else match Decode(s[2..])
      case None => None
      case Some(rest) => Some([DigitValue(s[0]) * 16 + DigitValue(s[1])] + rest)
  }

  lemma DigitRoundTrip(x: nat)
    requires x < 16
    ensures IsHexDigit(Digits[x]) && DigitValue(Digits[x]) == x
  {
  }

  /** The two digits written for a byte decode to that byte. */
  lemma ByteRoundTrip(x: Byte)
    ensures IsHexDigit(Digits[x / 16]) && IsHexDigit(Digits[x % 16])
    ensures DigitValue(Digits[x / 16]) * 16 + DigitValue(Digits[x % 16]) == x
  {
    DigitRoundTrip(x / 16);
    DigitRoundTrip(x % 16);
  }

  /** Decoding consumes a valid digit pair, then the rest. */
  lemma DecodePair(s: string)
    requires |s| >= 2 && IsHexDigit(s[0]) && IsHexDigit(s[1]) && Decode(s[2..]).Some?
    ensures Decode(s) == Some([DigitValue(s[0]) * 16 + DigitValue(s[1])] + Decode(s[2..]).value)
  {
  }

  /** Decoding an encoded id gives the id back: a file named after the hex
      encoding of a document id names that document. */
  lemma {:induction false} DecodeEncode(b: Bytes)
    ensures Decode(Encode(b)) == Some(b)
  {
    if b != [] {
      var hi, lo := Digits[b[0] / 16], Digits[b[0] % 16];
      var s := Encode(b);
      assert s == [hi, lo] + Encode(b[1..]);
      ByteRoundTrip(b[0]);
      assert s[2..] == Encode(b[1..]);
      DecodeEncode(b[1..]);
      assert s[0] == hi && s[1] == lo;
      DecodePair(s);
      assert [b[0]] + b[1..] == b;
    }
  }

  /** The lower-case form of a hexadecimal digit. */
  function LowerDigit(c: char): (d: char)
    requires IsHexDigit(c)
    ensures IsLowerHexDigit(d) && DigitValue(d) == DigitValue(c)
  {
    if 'A' <= c <= 'F' then (c as int - 'A' as int + 'a' as int) as char else c
  }

  /** Re-encoding what was decoded gives the input back, in lower case. */
  lemma {:induction false} EncodeDecode(s: string)
    requires Decode(s).Some?
    ensures |Encode(Decode(s).value)| == |s|
    ensures forall i :: 0 <= i < |s| ==> Encode(Decode(s).value)[i] == LowerDigit(s[i])
  {
    if |s| > 0 {
      var hi, lo := DigitValue(s[0]), DigitValue(s[1]);
      var rest := Decode(s[2..]).value;
      assert Decode(s).value == [hi * 16 + lo] + rest;
      var x: Byte := hi * 16 + lo;
      assert x / 16 == hi && x % 16 == lo;
      EncodeDecode(s[2..]);
      var e := Encode(Decode(s).value);
      assert e == [Digits[hi], Digits[lo]] + Encode(rest);
      forall i | 0 <= i < |s|
        ensures e[i] == LowerDigit(s[i])
      {
        if i >= 2 {
          assert e[i] == Encode(rest)[i - 2];
          assert s[i] == s[2..][i - 2];
        } else {
          DigitRoundTrip(hi);
          DigitRoundTrip(lo);
          DigitCase(s[i]);
        }
      }
    }
  }

  /** A digit is determined by its value up to case. */
  lemma DigitCase(c: char)
    requires IsHexDigit(c)
    ensures Digits[DigitValue(c)] == LowerDigit(c)
  {
  }
}
