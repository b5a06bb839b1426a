/**
 * Base58 as base58.go implements it: the input read as one big-endian
 * number written in base 58, with a single '1' standing for a leading zero
 * byte however many zero bytes lead.
 */
module Base58 {
  import opened Bytes

  /** Consecutive ASCII codes from `first`. */
  function Run(first: nat, count: nat): (r: Bytes)
    requires first + count <= 256
    ensures |r| == count
  {
    seq(count, i requires 0 <= i < count => first + i)
  }

  /**
   * "123456789ABCDEFGHJKLMNPQRSTUVWXYZabcdefghijkmnopqrstuvwxyz": the digits
   * 1-9, then A-Z without I and O, then a-z without l, as ASCII codes.
   */
  const Alphabet: Bytes := Run(49, 9) + Run(65, 8) + Run(74, 5) + Run(80, 11) + Run(97, 11) + Run(109, 14)

  /** The alphabet in closed form. */
  function AlphabetChar(d: nat): Byte
    requires d < 58
  {
    if d < 9 then 49 + d
    else if d < 17 then 56 + d
    else if d < 22 then 57 + d
    else if d < 33 then 58 + d
    else if d < 44 then 64 + d
    else 65 + d
  }

  lemma AlphabetClosedForm()
    ensures |Alphabet| == 58
    ensures forall d :: 0 <= d < 58 ==> Alphabet[d] == AlphabetChar(d)
  {
  }

  /** Distinct positions hold distinct characters (the codes increase). */
  lemma AlphabetIncreasing(i: nat, j: nat)
    requires i < j < 58
    ensures Alphabet[i] < Alphabet[j]
  {
    AlphabetClosedForm();
  }

  /** bytes.IndexByte: the first position of `b` in `s`, or -1. */
  function IndexByte(s: Bytes, b: Byte): (r: int)
    ensures -1 <= r < |s|
    ensures r >= 0 ==> s[r] == b && forall k :: 0 <= k < r ==> s[k] != b
    ensures r == -1 <==> b !in s
  {
    if s == [] then -1
    else if s[0] == b then 0
    else var r := IndexByte(s[1..], b); if r == -1 then -1 else r + 1
  }

  lemma IndexOfDigit(d: nat)
    requires d < 58
    ensures IndexByte(Alphabet, Alphabet[d]) == d
  {
    AlphabetClosedForm();
    var r := IndexByte(Alphabet, Alphabet[d]);
    if r < d {
      AlphabetIncreasing(r, d);
    }
  }

  // ------------------------------------------------------------- numbers

  lemma {:induction false} LeadingZeroValue(s: Bytes)
    requires s != [] && s[0] == 0
    ensures FromBigEndian(s) == FromBigEndian(s[1..])
  {
    if |s| > 1 {
      var init := s[..|s| - 1];
      LeadingZeroValue(init);
      assert init[1..] == s[1..][..|s[1..]| - 1];
    }
  }

  // ---------------------------------------------------------- digits

  /** The base-58 digits of `n` as alphabet characters, most significant first; none for zero. */
  function Digits(n: nat): (r: Bytes)
    ensures forall i :: 0 <= i < |r| ==> r[i] in Alphabet
    ensures n == 0 <==> r == []
  {
    if n == 0 then [] else Digits(n / 58) + [Alphabet[n % 58]]
  }

  lemma {:induction false} DigitsLead(n: nat)
    requires n > 0
    ensures Digits(n)[0] != Alphabet[0]
  {
    if n / 58 > 0 {
      DigitsLead(n / 58);
    } else {
      AlphabetIncreasing(0, n);
    }
  }

  /** What Base58Encode returns: a '1' for a leading zero byte, then the digits of the value. */
  function Encoding(input: Bytes): (r: Bytes)
    requires |input| >= 1
    ensures forall i :: 0 <= i < |r| ==> r[i] in Alphabet
    ensures r != []
  {
    if input[0] != 0 then MinimalOfValue(input); Digits(FromBigEndian(input))
    else [Alphabet[0]] + Digits(FromBigEndian(input))
  }

  /**
   * Base58Encode: repeated division by 58 appends the digits least
   * significant first; the zero marker goes last, then the buffer is reversed.
   */
  method Base58Encode(input: Bytes) returns (result: Bytes)
    requires |input| >= 1
    ensures result == Encoding(input)
  {
    var big := FromBigEndian(input);
    var acc: Bytes := [];
    while big > 0
      invariant Digits(FromBigEndian(input)) == Digits(big) + Reversed(acc)
    {
      var m := big % 58;
      DigitStep(big, acc);
      big := big / 58;
      acc := acc + [Alphabet[m]];
    }
    assert [] + Reversed(acc) == Reversed(acc);
    if input[0] == 0 {
      PrependDigit(acc, Alphabet[0]);
      acc := acc + [Alphabet[0]];
    } else {
      MinimalOfValue(input);
    }
    result := ReverseBytes(acc);
    assert result == Reversed(acc);
  }

  /** Appending a character to the buffer puts it in front of the reversed buffer. */
  lemma PrependDigit(acc: Bytes, c: Byte)
    ensures Reversed(acc + [c]) == [c] + Reversed(acc)
  {
    ReversedConcat(acc, [c]);
    assert Reversed([c]) == [c];
  }

  /** One division step of Base58Encode moves the least significant digit into the buffer. */
  lemma DigitStep(n: nat, acc: Bytes)
    requires n > 0
    ensures Digits(n) + Reversed(acc) == Digits(n / 58) + Reversed(acc + [Alphabet[n % 58]])
  {
    PrependDigit(acc, Alphabet[n % 58]);
    assert Digits(n / 58) + [Alphabet[n % 58]] + Reversed(acc) == Digits(n / 58) + ([Alphabet[n % 58]] + Reversed(acc));
  }

  /** The running value Base58Decode accumulates; a character outside the alphabet counts as -1. */
  function Accumulated(s: Bytes): int
  {
    if s == [] then 0 else Accumulated(s[..|s| - 1]) * 58 + IndexByte(Alphabet, s[|s| - 1])
  }

  function Abs(x: int): nat { if x < 0 then -x else x }

  /** What Base58Decode returns: a 0x00 for a leading '1', then the minimal bytes of the value's magnitude. */
  function Decoding(input: Bytes): (r: Bytes)
    requires |input| >= 1
    ensures input[0] == Alphabet[0] ==> r != [] && r[0] == 0
  {
    (if input[0] == Alphabet[0] then [0] else []) + MinimalBigEndian(Abs(Accumulated(input)))
  }

  /** Base58Decode: multiply-and-add over the characters, then big.Int's Bytes. */
  method Base58Decode(input: Bytes) returns (ans: Bytes)
    requires |input| >= 1
    ensures ans == Decoding(input)
  {
    var result: int := 0;
    for i := 0 to |input|
      invariant result == Accumulated(input[..i])
    {
      assert input[..i + 1][..i] == input[..i];
      result := result * 58 + IndexByte(Alphabet, input[i]);
    }
    assert input[..|input|] == input;
    ans := MinimalBigEndian(Abs(result));
    if input[0] == Alphabet[0] {
      ans := [0] + ans;
    }
  }

  // ---------------------------------------------------------- round trip

  lemma {:induction false} AccumulatedDigits(n: nat)
    ensures Accumulated(Digits(n)) == n
  {
    if n > 0 {
      AccumulatedDigits(n / 58);
      var d := Digits(n);
      assert d[..|d| - 1] == Digits(n / 58);
      IndexOfDigit(n % 58);
    }
  }

  /** A leading '1' is the digit zero and does not change the value. */
  lemma {:induction false} AccumulatedLeadingOne(s: Bytes)
    ensures Accumulated([Alphabet[0]] + s) == Accumulated(s)
  {
    IndexOfDigit(0);
    if s != [] {
      var s' := s[..|s| - 1];
      AccumulatedLeadingOne(s');
      assert ([Alphabet[0]] + s)[..|s|] == [Alphabet[0]] + s';
    }
  }

  /** Without a leading zero byte, decoding the digits gives the bytes back. */
  lemma RoundTripNoZero(x: Bytes)
    requires |x| >= 1 && x[0] != 0
    ensures Decoding(Encoding(x)) == x
  {
    var v := FromBigEndian(x);
    AccumulatedDigits(v);
    MinimalOfValue(x);
    DigitsLead(v);
    assert Encoding(x) == Digits(v);
  }

  /** With one leading zero byte, the '1' marker brings it back and the rest decodes as before. */
  lemma RoundTripOneZero(x: Bytes)
    requires |x| >= 1 && x[0] == 0
    requires |x| == 1 || x[1] != 0
    ensures Decoding(Encoding(x)) == x
  {
    var v := FromBigEndian(x);
    var d := Digits(v);
    assert Encoding(x) == [Alphabet[0]] + d;
    AccumulatedDigits(v);
    LeadingZeroValue(x);
    AccumulatedLeadingOne(d);
    assert Accumulated(Encoding(x)) == v;
    if |x| == 1 {
      assert x == [0];
      assert FromBigEndian(x[1..]) == 0;
    } else {
      MinimalOfValue(x[1..]);
      assert x == [0] + x[1..];
    }
  }

  /** Decoding undoes Encoding when at most one zero byte leads. */
  lemma RoundTrip(x: Bytes)
    requires |x| >= 1
    requires x[0] == 0 ==> |x| == 1 || x[1] != 0
    ensures Decoding(Encoding(x)) == x
  {
    if x[0] != 0 {
      RoundTripNoZero(x);
    } else {
      RoundTripOneZero(x);
    }
  }

  /** Two leading zero bytes encode like one, so the second is lost on decoding. */
  lemma SecondLeadingZeroLost()
    ensures Encoding([0, 0]) == Encoding([0]) == [Alphabet[0]]
    ensures Decoding(Encoding([0, 0])) == [0]
  {
    var z: Bytes := [0, 0];
    assert FromBigEndian(z[..1]) == 0;
    IndexOfDigit(0);
  }
}
