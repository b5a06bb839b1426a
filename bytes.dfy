/**
 * Byte helpers of utils.go: reversal, concatenation, cutting, little-endian
 * integers, the CompactSize-style varint and the 7-bit index varint.
 * Go strings and byte slices are both byte sequences here.
 */
module Bytes {
  import opened Results

  type Byte = b: int | 0 <= b < 256
  type Bytes = seq<Byte>

  const MaxUint16: nat := 0xFFFF
  const MaxUint32: nat := 0xFFFF_FFFF
  const MaxUint64: nat := 0xFFFF_FFFF_FFFF_FFFF

  function Pow256(n: nat): (r: nat)
    ensures r >= 1
  {
    if n == 0 then 1 else 256 * Pow256(n - 1)
  }

  /** `n` zero bytes (a fresh Go slice of length n). */
  function Zeros(n: nat): (r: Bytes)
    ensures |r| == n
    ensures forall i :: 0 <= i < n ==> r[i] == 0
  {
    if n == 0 then [] else Zeros(n - 1) + [0]
  }

  /** Zero bytes read big-endian are the value 0. */
  lemma {:induction false} ZerosValue(n: nat)
    ensures FromBigEndian(Zeros(n)) == 0
  {
    if n > 0 {
      ZerosValue(n - 1);
      assert Zeros(n)[..n - 1] == Zeros(n - 1);
    }
  }

  lemma AppendAssoc<T>(a: seq<T>, b: seq<T>, c: seq<T>)
    ensures (a + b) + c == a + (b + c)
  {
  }

  // ---------------------------------------------------------------- reversal

  /** The bytes of `s` in the opposite order. */
  function Reversed(s: Bytes): (r: Bytes)
    ensures |r| == |s|
  {
    seq(|s|, i requires 0 <= i < |s| => s[|s| - 1 - i])
  }

  lemma ReversedInvolution(s: Bytes)
    ensures Reversed(Reversed(s)) == s
  {
  }

  lemma ReversedConcat(a: Bytes, b: Bytes)
    ensures Reversed(a + b) == Reversed(b) + Reversed(a)
  {
  }

  /** ReverseBytes: copy the input, then swap from both ends towards the middle. */
  method ReverseBytes(input: Bytes) returns (r: Bytes)
    ensures |r| == |input|
    ensures forall i :: 0 <= i < |input| ==> r[i] == input[|input| - 1 - i]
  {
    var temp := new Byte[|input|](k requires 0 <= k < |input| => input[k]);
    var i, j := 0, |input| - 1;
    while i < j
      invariant 0 <= i <= j + 1 <= |input|
      invariant i + j == |input| - 1
      invariant forall k :: 0 <= k < i ==> temp[k] == input[|input| - 1 - k] && temp[|input| - 1 - k] == input[k]
      invariant forall k :: i <= k <= j ==> temp[k] == input[k]
    {
      temp[i], temp[j] := temp[j], temp[i];
      i, j := i + 1, j - 1;
    }
    r := temp[..];
  }

  // ----------------------------------------------------------- concatenation

  /** The concatenation of all slices, in order. */
  function Flatten(ss: seq<Bytes>): Bytes
  {
    if ss == [] then [] else Flatten(ss[..|ss| - 1]) + ss[|ss| - 1]
  }

  function TotalLength(ss: seq<Bytes>): nat
  {
    if ss == [] then 0 else TotalLength(ss[..|ss| - 1]) + |ss[|ss| - 1]|
  }

  lemma {:induction false} FlattenLength(ss: seq<Bytes>)
    ensures |Flatten(ss)| == TotalLength(ss)
  {
    if ss != [] {
      FlattenLength(ss[..|ss| - 1]);
    }
  }

  lemma {:induction false} FlattenAppend(a: seq<Bytes>, b: seq<Bytes>)
    ensures Flatten(a + b) == Flatten(a) + Flatten(b)
    decreases |b|
  {
    if b == [] {
      assert a + b == a;
    } else {
      var b' := b[..|b| - 1];
      assert (a + b)[..|a + b| - 1] == a + b';
      FlattenAppend(a, b');
    }
  }

  /** One more slice extends the flattened prefix, and never past the whole. */
  lemma FlattenPrefixStep(ss: seq<Bytes>, k: nat)
    requires k < |ss|
    ensures Flatten(ss[..k + 1]) == Flatten(ss[..k]) + ss[k]
    ensures |Flatten(ss[..k + 1])| <= TotalLength(ss)
  {
    assert ss[..k + 1][..k] == ss[..k];
    FlattenAppend(ss[..k + 1], ss[k + 1..]);
    assert ss[..k + 1] + ss[k + 1..] == ss;
    FlattenLength(ss);
  }

  /** ConcatCopy: sum the lengths, allocate once, copy each slice after the previous one. */
  method ConcatCopy(slices: seq<Bytes>) returns (r: Bytes)
    ensures r == Flatten(slices)
    ensures |r| == TotalLength(slices)
  {
    var totalLen := 0;
    for k := 0 to |slices|
      invariant totalLen == TotalLength(slices[..k])
    {
      assert slices[..k + 1][..k] == slices[..k];
      totalLen := totalLen + |slices[k]|;
    }
    assert slices[..|slices|] == slices;
    var result := new Byte[totalLen];
    var i := 0;
    for k := 0 to |slices|
      invariant i == |Flatten(slices[..k])| <= totalLen
      invariant result[..i] == Flatten(slices[..k])
    {
      var s := slices[k];
      FlattenPrefixStep(slices, k);
      for m := 0 to |s|
        invariant result[..i + m] == Flatten(slices[..k]) + s[..m]
      {
        result[i + m] := s[m];
        assert s[..m + 1] == s[..m] + [s[m]];
      }
      assert s[..|s|] == s;
      i := i + |s|;
    }
    assert slices[..|slices|] == slices;
    FlattenLength(slices);
    assert result[..] == result[..i];
    r := result[..];
  }

  /** AddHeadSlice: a fresh slice holding `head` followed by `slice`. */
  function AddHeadSlice(head: Bytes, slice: Bytes): (r: Bytes)
    ensures |r| == |head| + |slice|
    ensures r[..|head|] == head && r[|head|..] == slice
  {
    head + slice
  }

  /** CutBytes: split at `index`; the halves concatenate back to the input. */
  function CutBytes(input: Bytes, index: nat): (r: (Bytes, Bytes))
    requires index <= |input|
    ensures |r.0| == index
    ensures r.0 + r.1 == input
  {
    (input[..index], input[index..])
  }

  // ---------------------------------------------------- little-endian integers

  /** The low `width` bytes of `v`, least significant first. */
  function LittleEndian(v: nat, width: nat): (r: Bytes)
    ensures |r| == width
  {
    if width == 0 then [] else [v % 256] + LittleEndian(v / 256, width - 1)
  }

  /** Reading bytes as an unsigned little-endian number (binary.LittleEndian). */
  function FromLittleEndian(s: Bytes): nat
  {
    if s == [] then 0 else s[0] + 256 * FromLittleEndian(s[1..])
  }

  lemma {:induction false} LittleEndianRoundTrip(v: nat, width: nat)
    requires v < Pow256(width)
    ensures FromLittleEndian(LittleEndian(v, width)) == v
  {
    if width > 0 {
      LittleEndianRoundTrip(v / 256, width - 1);
      assert LittleEndian(v, width)[1..] == LittleEndian(v / 256, width - 1);
    }
  }

  lemma ModOfSmall(v: int, m: nat)
    requires 0 <= v < m
    ensures v % m == v
  {
  }

  lemma Pow256Widths()
    ensures Pow256(1) == 0x100 && Pow256(2) == 0x1_0000
    ensures Pow256(4) == 0x1_0000_0000 && Pow256(8) == 0x1_0000_0000_0000_0000
  {
  }

  lemma {:induction false} FromLittleEndianBound(s: Bytes)
    ensures FromLittleEndian(s) < Pow256(|s|)
  {
    if s != [] {
      FromLittleEndianBound(s[1..]);
    }
  }

  // ------------------------------------------------ big-endian (math/big)

  /** big.Int SetBytes: the unsigned big-endian value. */
  function FromBigEndian(s: Bytes): nat
  {
    if s == [] then 0 else FromBigEndian(s[..|s| - 1]) * 256 + s[|s| - 1]
  }

  /** big.Int Bytes: the shortest big-endian form, empty for zero. */
  function MinimalBigEndian(n: nat): (r: Bytes)
    ensures n == 0 <==> r == []
  {
    if n == 0 then [] else MinimalBigEndian(n / 256) + [n % 256]
  }

  lemma {:induction false} BigEndianRoundTrip(n: nat)
    ensures FromBigEndian(MinimalBigEndian(n)) == n
    ensures n > 0 ==> MinimalBigEndian(n)[0] != 0
  {
    if n > 0 {
      BigEndianRoundTrip(n / 256);
      var r := MinimalBigEndian(n);
      assert r[..|r| - 1] == MinimalBigEndian(n / 256);
    }
  }

  /** A byte string without leading zero is the minimal form of its value, which is positive. */
  lemma {:induction false} MinimalOfValue(s: Bytes)
    requires s != [] && s[0] != 0
    ensures FromBigEndian(s) > 0
    ensures MinimalBigEndian(FromBigEndian(s)) == s
  {
    var init := s[..|s| - 1];
    if init != [] {
      MinimalOfValue(init);
    }
    assert s == init + [s[|s| - 1]];
  }

  lemma {:induction false} FromBigEndianAppend(a: Bytes, b: Bytes)
    ensures FromBigEndian(a + b) == FromBigEndian(a) * Pow256(|b|) + FromBigEndian(b)
    decreases |b|
  {
    if b == [] {
      assert a + b == a;
    } else {
      var b' := b[..|b| - 1];
      assert (a + b)[..|a + b| - 1] == a + b';
      FromBigEndianAppend(a, b');
      calc {
        FromBigEndian(a + b);
        FromBigEndian(a + b') * 256 + b[|b| - 1];
        (FromBigEndian(a) * Pow256(|b'|) + FromBigEndian(b')) * 256 + b[|b| - 1];
        FromBigEndian(a) * (Pow256(|b'|) * 256) + (FromBigEndian(b') * 256 + b[|b| - 1]);
      }
    }
  }

  /** The integer types IntToLittleEndianBytes accepts, one variant per Go type. */
  datatype GoInt =
    | Uint8(v: int) | Uint16(v: int) | Uint32(v: int) | Uint64(v: int)
    | Int32(v: int) | Int64(v: int) | Int(v: int)
  {
    function Width(): nat
    {
      match this
      case Uint8(_) => 1
      case Uint16(_) => 2
      case Uint32(_) => 4
      case Uint64(_) => 8
      case Int32(_) => 4
      case Int64(_) => 8
      case Int(_) => 8
    }

    predicate Signed() { Int32? || Int64? || Int? }

    /** The value fits the Go type (`int` is 64 bits wide). */
    predicate InRange()
    {
      if Signed() then -(Pow256(Width()) / 2) <= v < Pow256(Width()) / 2
      else 0 <= v < Pow256(Width())
    }
  }

  /**
   * IntToLittleEndianBytes: the value in the type's width, little-endian;
   * signed values as two's complement.
   */
  function IntToLittleEndianBytes(x: GoInt): (r: Bytes)
    requires x.InRange()
    ensures |r| == x.Width()
    ensures FromLittleEndian(r) == x.v % Pow256(x.Width())
    ensures 0 <= x.v ==> FromLittleEndian(r) == x.v
  {
    var w := x.Width();
    var u := x.v % Pow256(w);
    LittleEndianRoundTrip(u, w);
    if 0 <= x.v then ModOfSmall(x.v, Pow256(w)); LittleEndian(u, w)
    else LittleEndian(u, w)
  }

  // --------------------------------------------------------------- varints

  datatype VarintError = CantDecode | NotInRange

  /** Total encoded width announced by the first byte. */
  function VarintWidth(first: Byte): nat
  {
    if first < 253 then 1 else if first == 253 then 3 else if first == 254 then 5 else 9
  }

  /** Width of the encoding EncodeVarint chooses for `v`. */
  function EncodedWidth(v: nat): nat
  {
    if v < 253 then 1 else if v <= MaxUint16 then 3 else if v <= MaxUint32 then 5 else 9
  }

  /** DecodeVarint: (bytes consumed, value). Its error branch cannot be taken. */
  function DecodeVarint(data: Bytes): (r: Result<(nat, nat), VarintError>)
    requires 1 <= |data| && VarintWidth(data[0]) <= |data|
    ensures r.Ok? && r.value.0 == VarintWidth(data[0])
    ensures data[0] < 253 ==> r.value.1 == data[0]
    ensures data[0] >= 253 ==> r.value.1 == FromLittleEndian(data[1..r.value.0])
  {
    var size := data[0];
    if size < 253 then Ok((1, size))
    else if size == 253 then Ok((3, FromLittleEndian(data[1..3])))
    else if size == 254 then Ok((5, FromLittleEndian(data[1..5])))
    else if size == 255 then Ok((9, FromLittleEndian(data[1..9])))
    else Err(CantDecode)
  }

  /** EncodeVarint: a bare byte below 253, else a marker and the value little-endian. */
  function EncodeVarint(v: nat): (r: Result<Bytes, VarintError>)
    requires v <= MaxUint64
    ensures r.Ok? && |r.value| == EncodedWidth(v)
    ensures v < 253 ==> r.value == [v]
    ensures 253 <= v <= MaxUint16 ==> r.value[0] == 0xfd
    ensures MaxUint16 < v <= MaxUint32 ==> r.value[0] == 0xfe
    ensures MaxUint32 < v ==> r.value[0] == 0xff
    ensures v >= 253 ==> FromLittleEndian(r.value[1..]) == v
  {
    Pow256Widths();
    if v < 253 then Ok(IntToLittleEndianBytes(Uint8(v)))
    else if v <= MaxUint16 then Ok(AddHeadSlice([0xfd], IntToLittleEndianBytes(Uint16(v))))
    else if v <= MaxUint32 then Ok(AddHeadSlice([0xfe], IntToLittleEndianBytes(Uint32(v))))
    else if v <= MaxUint64 then Ok(AddHeadSlice([0xff], IntToLittleEndianBytes(Uint64(v))))
    else Err(NotInRange)
  }

  lemma VarintRoundTrip(v: nat)
    requires v <= MaxUint64
    ensures var e := EncodeVarint(v).value;
            1 <= |e| && VarintWidth(e[0]) <= |e| &&
            DecodeVarint(e) == Ok((EncodedWidth(v), v))
  {
    var e := EncodeVarint(v).value;
    if v >= 253 {
      assert e[1..VarintWidth(e[0])] == e[1..];
    }
  }

  // ------------------------------------------------------- index varint

  const Pow2To64: nat := 0x1_0000_0000_0000_0000

  /** Go's int64 reading of a 64-bit pattern. */
  function Signed64(u: nat): int
    requires u < Pow2To64
  {
    if u < Pow2To64 / 2 then u else u - Pow2To64
  }

  /** Bit pattern of `n` after the continuation bytes `s` (each shifts in 7 bits, then adds one). */
  function IndexPrefix(s: Bytes): (u: nat)
    ensures u < Pow2To64
  {
    if s == [] then 0
    else ((IndexPrefix(s[..|s| - 1]) * 128 + s[|s| - 1] % 128) % Pow2To64 + 1) % Pow2To64
  }

  /**
   * DecodeVarIntForIndex: reads bytes until one has its high bit clear;
   * `pos` is one past that byte. `n` wraps like Go's 64-bit int.
   */
  method DecodeVarIntForIndex(input: Bytes) returns (n: int, pos: nat)
    requires exists k :: 0 <= k < |input| && input[k] < 128
    ensures 1 <= pos <= |input|
    ensures input[pos - 1] < 128
    ensures forall k :: 0 <= k < pos - 1 ==> input[k] >= 128
    ensures n == Signed64((IndexPrefix(input[..pos - 1]) * 128 + input[pos - 1]) % Pow2To64)
  {
    var u: nat := 0;
    pos := 0;
    while true
      invariant pos < |input|
      invariant forall k :: 0 <= k < pos ==> input[k] >= 128
      invariant u == IndexPrefix(input[..pos])
      decreases |input| - pos
    {
      var data := input[pos];
      pos := pos + 1;
      var shifted := (u * 128 + data % 128) % Pow2To64;
      if data < 128 {
        assert data % 128 == data;
        n := Signed64(shifted);
        return;
      }
      assert input[..pos][..pos - 1] == input[..pos - 1];
      u := (shifted + 1) % Pow2To64;
    }
  }
}
