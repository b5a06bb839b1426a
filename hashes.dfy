/**
 * The `Hashes` byte type of hash.go: JSON form as a quoted hex string,
 * text decoding into an existing value, and the element-wise conversions
 * between lists of hashes and lists of byte slices.
 */
module HashCodec {
  import opened Results
  import opened Bytes
  import Hex

  type Hashes = Bytes

  const Quote: Byte := 34  // '"'

  /** MarshalJSON: the JSON string of the lowercase hex, whose body decodes back to the hash. */
  function MarshalJSON(h: Hashes): (r: Bytes)
    ensures |r| == 2 * |h| + 2
    ensures r[0] == Quote && r[|r| - 1] == Quote
    ensures Hex.DecodeString(r[1..|r| - 1]) == (h, None)
  {
    var body := Hex.EncodeToString(h);
    Hex.DecodeEncode(h);
    assert ([Quote] + body + [Quote])[1..2 * |h| + 1] == body;
    [Quote] + body + [Quote]
  }

  /**
   * UnmarshalText writes the decoded bytes through its receiver only on
   * success; the receiver's value before and after is `current` and `r.0`.
   */
  function UnmarshalText(current: Hashes, text: Bytes): (r: (Hashes, Option<Hex.HexError>))
    ensures r.1.None? <==> Hex.ValidHex(text)
    ensures r.1.Some? ==> r.0 == current
    ensures r.1.None? ==> |r.0| == |text| / 2
    ensures r.1.None? && Hex.IsLowerHex(text) ==> Hex.EncodeToString(r.0) == text
    ensures r.1.None? ==> forall i :: 0 <= i < |r.0| ==>
              r.0[i] == Hex.DigitValue(text[2 * i]) * 16 + Hex.DigitValue(text[2 * i + 1])
  {
    var (b, err) := Hex.DecodeString(text);
    if err.Some? then (current, err)
    else
      Hex.DecodePrefixComplete(text);
      Hex.DecodePrefixSpec(text);
      if Hex.IsLowerHex(text) then Hex.EncodeDecode(text); (b, None) else (b, None)
  }

  lemma MarshalThenUnmarshal(current: Hashes, h: Hashes)
    ensures var j := MarshalJSON(h); UnmarshalText(current, j[1..|j| - 1]) == (h, None)
  {
  }

  /** HashestoBytes: a new list holding the same slices, element by element. */
  method HashesToBytes(h: seq<Hashes>) returns (ans: seq<Bytes>)
    ensures |ans| == |h|
    ensures forall i :: 0 <= i < |h| ==> ans[i] == h[i]
  {
    var a := new Bytes[|h|];
    for i := 0 to |h|
      invariant forall k :: 0 <= k < i ==> a[k] == h[k]
    {
      a[i] := h[i];
    }
    ans := a[..];
  }

  /** bytesToHashes: the element-wise conversion the other way. */
  method BytesToHashes(inputs: seq<Bytes>) returns (ans: seq<Hashes>)
    ensures |ans| == |inputs|
    ensures forall i :: 0 <= i < |inputs| ==> ans[i] == inputs[i]
  {
    var a := new Hashes[|inputs|];
    for i := 0 to |inputs|
      invariant forall k :: 0 <= k < i ==> a[k] == inputs[k]
    {
      a[i] := inputs[i];
    }
    ans := a[..];
  }

  /** The two conversions undo each other. */
  method ConversionsRoundTrip(h: seq<Hashes>) returns (back: seq<Hashes>)
    ensures back == h
  {
    var bs := HashesToBytes(h);
    back := BytesToHashes(bs);
  }
}
