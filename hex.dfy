/**
 * Hexadecimal text as the node uses it: lowercase encoding, Go's
 * hex.DecodeString (decoded prefix plus error), and HexStrToBytes of
 * utils.go, which drops that error. Text is a byte sequence of ASCII codes.
 */
module Hex {
  import opened Results
  import opened Bytes

  const Zero: Byte := 48     // '0'
  const LowerX: Byte := 120  // 'x'

  /** 0-9, a-f and A-F, the characters Go's decoder accepts. */
  predicate IsHexDigit(c: Byte)
  {
    48 <= c <= 57 || 97 <= c <= 102 || 65 <= c <= 70
  }

  predicate IsUpperHexLetter(c: Byte)
  {
    65 <= c <= 70
  }

  function DigitValue(c: Byte): (d: nat)
    requires IsHexDigit(c)
    ensures d < 16
  {
    if c <= 57 then c - 48 else if c >= 97 then c - 87 else c - 55
  }

  /** The lowercase digit for a nibble. */
  function DigitChar(d: nat): (c: Byte)
    requires d < 16
    ensures IsHexDigit(c) && !IsUpperHexLetter(c)
    ensures DigitValue(c) == d
  {
    if d < 10 then 48 + d else 87 + d
  }

  lemma DigitCharOfValue(c: Byte)
    requires IsHexDigit(c) && !IsUpperHexLetter(c)
    ensures DigitChar(DigitValue(c)) == c
  {
  }

  predicate AllHexDigits(s: Bytes)
  {
    forall i :: 0 <= i < |s| ==> IsHexDigit(s[i])
  }

  /** Text hex.DecodeString accepts without error. */
  predicate ValidHex(s: Bytes)
  {
    |s| % 2 == 0 && AllHexDigits(s)
  }

  predicate IsLowerHex(s: Bytes)
  {
    forall i :: 0 <= i < |s| ==> IsHexDigit(s[i]) && !IsUpperHexLetter(s[i])
  }

  /** hex.EncodeToString: two lowercase digits per byte, high nibble first. */
  function EncodeToString(b: Bytes): (r: Bytes)
    ensures |r| == 2 * |b|
    ensures IsLowerHex(r) && ValidHex(r)
  {
    if b == [] then [] else [DigitChar(b[0] / 16), DigitChar(b[0] % 16)] + EncodeToString(b[1..])
  }

  /** The bytes of the leading well-formed digit pairs: what Go's decoder has written when it stops. */
  function DecodePrefix(s: Bytes): (r: Bytes)
    ensures |r| <= |s| / 2
  {
    if |s| < 2 || !IsHexDigit(s[0]) || !IsHexDigit(s[1]) then []
    else [DigitValue(s[0]) * 16 + DigitValue(s[1])] + DecodePrefix(s[2..])
  }

  /** Pair i of the text gives byte i of the prefix, and decoding stops only at a bad pair or the end. */
  lemma {:induction false} DecodePrefixSpec(s: Bytes)
    ensures var n := |DecodePrefix(s)|;
            (forall k :: 0 <= k < 2 * n ==> IsHexDigit(s[k])) &&
            (forall i :: 0 <= i < n ==>
               DecodePrefix(s)[i] == DigitValue(s[2 * i]) * 16 + DigitValue(s[2 * i + 1])) &&
            (2 * n + 1 < |s| ==> !(IsHexDigit(s[2 * n]) && IsHexDigit(s[2 * n + 1])))
  {
    if 2 <= |s| && IsHexDigit(s[0]) && IsHexDigit(s[1]) {
      DecodePrefixSpec(s[2..]);
      var r := DecodePrefix(s);
      var n := |r|;
      assert r[1..] == DecodePrefix(s[2..]);
      forall k | 0 <= k < 2 * n
        ensures IsHexDigit(s[k])
      {
        if k >= 2 {
          assert s[k] == s[2..][k - 2];
        }
      }
      forall i | 0 <= i < n
        ensures r[i] == DigitValue(s[2 * i]) * 16 + DigitValue(s[2 * i + 1])
      {
        if i > 0 {
          assert r[i] == DecodePrefix(s[2..])[i - 1];
          assert s[2 * i] == s[2..][2 * (i - 1)];
          assert s[2 * i + 1] == s[2..][2 * (i - 1) + 1];
        }
      }
      if 2 * n + 1 < |s| {
        assert s[2 * n] == s[2..][2 * (n - 1)];
        assert s[2 * n + 1] == s[2..][2 * (n - 1) + 1];
      }
    }
  }

  /** Every pair decodes exactly when the text is valid hex. */
  lemma {:induction false} DecodePrefixComplete(s: Bytes)
    requires |s| % 2 == 0
    ensures |DecodePrefix(s)| == |s| / 2 <==> ValidHex(s)
  {
    if 2 <= |s| {
      DecodePrefixComplete(s[2..]);
      if ValidHex(s) {
        assert ValidHex(s[2..]) by {
          forall k | 0 <= k < |s[2..]| ensures IsHexDigit(s[2..][k]) {
            assert s[2..][k] == s[k + 2];
          }
        }
      }
      if |DecodePrefix(s)| == |s| / 2 {
        forall k | 0 <= k < |s| ensures IsHexDigit(s[k]) {
          if k >= 2 {
            assert s[k] == s[2..][k - 2];
          }
        }
      }
    }
  }

  datatype HexError = InvalidByte(c: Byte) | ErrLength

  /**
   * hex.DecodeString: the decoded prefix and, unless the whole text was
   * decoded, the offending character or the odd-length error.
   */
  function DecodeString(s: Bytes): (r: (Bytes, Option<HexError>))
    ensures r.0 == DecodePrefix(s)
    ensures r.1.None? <==> ValidHex(s)
  {
    DecodePrefixSpec(s);
    var out := DecodePrefix(s);
    var n := |out|;
    if 2 * n + 1 < |s| then
      (out, Some(InvalidByte(if !IsHexDigit(s[2 * n]) then s[2 * n] else s[2 * n + 1])))
    else if 2 * n + 1 == |s| then
      (out, Some(if IsHexDigit(s[2 * n]) then ErrLength else InvalidByte(s[2 * n])))
    else
      DecodePrefixComplete(s);
      (out, None)
  }

  lemma {:induction false} DecodeEncode(b: Bytes)
    ensures DecodePrefix(EncodeToString(b)) == b
  {
    if b != [] {
      var e := EncodeToString(b);
      assert e[2..] == EncodeToString(b[1..]);
      DecodeEncode(b[1..]);
    }
  }

  lemma {:induction false} EncodeDecode(s: Bytes)
    requires ValidHex(s) && IsLowerHex(s)
    ensures EncodeToString(DecodePrefix(s)) == s
  {
    if s != [] {
      var t := s[2..];
      assert ValidHex(t) && IsLowerHex(t) by {
        forall k | 0 <= k < |t| ensures t[k] == s[k + 2] { }
      }
      EncodeDecode(t);
      DigitCharOfValue(s[0]);
      DigitCharOfValue(s[1]);
      var v := DigitValue(s[0]) * 16 + DigitValue(s[1]);
      assert v / 16 == DigitValue(s[0]) && v % 16 == DigitValue(s[1]);
      assert DecodePrefix(s)[1..] == DecodePrefix(t);
    }
  }

  lemma EncodeInjective(a: Bytes, b: Bytes)
    requires EncodeToString(a) == EncodeToString(b)
    ensures a == b
  {
    DecodeEncode(a);
    DecodeEncode(b);
  }

  /** The text HexStrToBytes actually decodes: without a "0x" prefix, padded to even length. */
  function Normalized(hexStr: Bytes): (t: Bytes)
    ensures |t| % 2 == 0
  {
    var s := if |hexStr| >= 2 && hexStr[..2] == [Zero, LowerX] then hexStr[2..] else hexStr;
    if |s| % 2 != 0 then [Zero] + s else s
  }

  /** HexStrToBytes: "" gives no bytes; otherwise decode the normalized text, ignoring the error. */
  function HexStrToBytes(hexStr: Bytes): (r: Bytes)
    ensures |hexStr| == 0 ==> r == []
    ensures |r| <= (|hexStr| + 1) / 2
  {
    if |hexStr| == 0 then [] else DecodeString(Normalized(hexStr)).0
  }

  lemma HexStrToBytesOfEncoding(b: Bytes)
    ensures HexStrToBytes(EncodeToString(b)) == b
    ensures HexStrToBytes([Zero, LowerX] + EncodeToString(b)) == b
  {
    var e := EncodeToString(b);
    DecodeEncode(b);
    if |e| >= 2 {
      assert e[1] != LowerX;
    }
    assert ([Zero, LowerX] + e)[..2] == [Zero, LowerX];
    assert ([Zero, LowerX] + e)[2..] == e;
  }

  /** For hex digits after an optional "0x", the output has one byte per started pair. */
  lemma HexStrToBytesLength(hexStr: Bytes)
    requires |hexStr| > 0
    requires var s := if |hexStr| >= 2 && hexStr[..2] == [Zero, LowerX] then hexStr[2..] else hexStr;
             AllHexDigits(s)
    ensures var s := if |hexStr| >= 2 && hexStr[..2] == [Zero, LowerX] then hexStr[2..] else hexStr;
            |HexStrToBytes(hexStr)| == (|s| + 1) / 2
  {
    var t := Normalized(hexStr);
    assert ValidHex(t);
    DecodePrefixComplete(t);
  }
}
