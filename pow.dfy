/**
 * Proof of work (proofofwork.go): the compact-bits target, the 80-byte
 * header serialization that is hashed, and the nonce search.
 */
module ProofOfWork {
  import opened Bytes
  import opened Types

  /** GenesisBits: exponent 0x1f, coefficient ff ff ff. */
  const GenesisBits: Bytes := [0x1f, 0xff, 0xff, 0xff]

  /** Compact bits CalculateTarget can place: an exponent between 3 and 32. */
  predicate ValidBits(bits: Bytes)
  {
    |bits| >= 1 && 3 <= bits[0] <= 32
  }

  /** The three bytes the copy writes: bits[1..] cut to three, zero bytes where it is shorter. */
  function CoefficientBytes(bits: Bytes): (r: Bytes)
    requires |bits| >= 1
    ensures |r| == 3
  {
    var coefficient := bits[1..];
    if |coefficient| >= 3 then coefficient[..3] else coefficient + Zeros(3 - |coefficient|)
  }

  /** The 32-byte big-endian target buffer: the coefficient at bytes 32-e to 34-e, zero elsewhere. */
  function TargetBuffer(bits: Bytes): (r: Bytes)
    requires ValidBits(bits)
    ensures |r| == 32
  {
    Zeros(32 - bits[0]) + CoefficientBytes(bits) + Zeros(bits[0] - 3)
  }

  /** The target as a number: coefficient · 256^(e-3). */
  function TargetValue(bits: Bytes): nat
    requires ValidBits(bits)
  {
    FromBigEndian(CoefficientBytes(bits)) * Pow256(bits[0] - 3)
  }

  lemma TargetBufferValue(bits: Bytes)
    requires ValidBits(bits)
    ensures FromBigEndian(TargetBuffer(bits)) == TargetValue(bits)
  {
    var e := bits[0];
    var hi, c, lo := Zeros(32 - e), CoefficientBytes(bits), Zeros(e - 3);
    FromBigEndianAppend(hi + c, lo);
    FromBigEndianAppend(hi, c);
    ZerosValue(32 - e);
    ZerosValue(e - 3);
  }

  /**
   * CalculateTarget: copy the coefficient into a zeroed 32-byte buffer at
   * offset 32-e and read the buffer as a big-endian number.
   */
  method CalculateTarget(bits: Bytes) returns (target: nat)
    requires ValidBits(bits)
    ensures target == FromBigEndian(TargetBuffer(bits))
    ensures target == TargetValue(bits)
  {
    var buf := new Byte[32](t => 0);
    var exp := bits[0];
    var coefficient := bits[1..];
    var count := if |coefficient| < 3 then |coefficient| else 3;
    for k := 0 to count
      invariant forall t :: 0 <= t < 32 ==>
                  buf[t] == (if 32 - exp <= t < 32 - exp + k then coefficient[t - (32 - exp)] else 0)
    {
      buf[32 - exp + k] := coefficient[k];
    }
    assert buf[..] == TargetBuffer(bits);
    TargetBufferValue(bits);
    target := FromBigEndian(buf[..]);
  }

  /** For GenesisBits, bytes 1 to 3 of the target are 0xff and every other byte is zero. */
  lemma GenesisTarget()
    ensures ValidBits(GenesisBits)
    ensures forall k :: 0 <= k < 32 ==> TargetBuffer(GenesisBits)[k] == if 1 <= k <= 3 then 0xff else 0
    ensures TargetValue(GenesisBits) == 0xff_ffff * Pow256(28)
  {
    var c: Bytes := [0xff, 0xff, 0xff];
    assert GenesisBits[1..][..3] == c;
    assert c[..2][..1][..0] == [];
    assert c[..2][..1] == [0xff];
    assert c[..2] == [0xff, 0xff];
    assert FromBigEndian(c[..2][..1]) == 0xff;
    assert FromBigEndian(c[..2]) == 0xffff;
    assert FromBigEndian(c) == 0xff_ffff;
  }

  /**
   * SerializeHeaderForMining: version, reversed PrevBlock, reversed
   * MerkleRoot, time, bits and nonce, integers little-endian; no height.
   */
  function SerializeHeaderForMining(h: BlockHeader): (r: Bytes)
    ensures |r| == 16 + |h.prevBlock| + |h.merkleRoot|
    ensures r == LittleEndian(h.version, 4) + Reversed(h.prevBlock) + Reversed(h.merkleRoot) +
                 LittleEndian(h.timeStamp, 4) + LittleEndian(h.bits, 4) + LittleEndian(h.nonce, 4)
  {
    Pow256Widths();
    var parts := [IntToLittleEndianBytes(Uint32(h.version)), Reversed(h.prevBlock), Reversed(h.merkleRoot),
                  IntToLittleEndianBytes(Uint32(h.timeStamp)), IntToLittleEndianBytes(Uint32(h.bits)),
                  IntToLittleEndianBytes(Uint32(h.nonce))];
    FlattenLength(parts);
    FlattenSix(parts);
    Flatten(parts)
  }

  lemma FlattenSix(p: seq<Bytes>)
    requires |p| == 6
    ensures Flatten(p) == p[0] + p[1] + p[2] + p[3] + p[4] + p[5]
  {
    var empty: seq<Bytes> := [];
    assert p[..0] == empty;
    FlattenPrefixStep(p, 0);
    FlattenPrefixStep(p, 1);
    FlattenPrefixStep(p, 2);
    FlattenPrefixStep(p, 3);
    FlattenPrefixStep(p, 4);
    FlattenPrefixStep(p, 5);
    assert p[..6] == p;
  }

  /** The mining bytes do not cover the height, so headers differing only there hash alike. */
  lemma MiningBytesIgnoreHeight(h: BlockHeader, height: int)
    ensures SerializeHeaderForMining(h.(height := height)) == SerializeHeaderForMining(h)
  {
  }

  /** Two 32-byte hashes make the serialization 80 bytes. */
  lemma MiningBytesLength(h: BlockHeader)
    requires |h.prevBlock| == 32 && |h.merkleRoot| == 32
    ensures |SerializeHeaderForMining(h)| == 80
  {
  }

  /** The number the nonce search compares: the byte-reversed double hash, big-endian. */
  function HeaderValue(c: Crypto, h: BlockHeader): nat
  {
    FromBigEndian(Reversed(DoubleSha256(c, SerializeHeaderForMining(h))))
  }

  predicate Hits(c: Crypto, h: BlockHeader, target: nat, nonce: Uint32)
  {
    HeaderValue(c, h.(nonce := nonce)) < target
  }

  const NonceLimit: nat := 0x1_0000_0000

  /** ProofOfWork: the block being mined and the target it must beat. */
  class ProofOfWork {
    var block: Block
    const target: nat

    /** NewProofOfWork: the target always comes from GenesisBits, whatever the block's Bits say. */
    constructor (block: Block)
      ensures this.block == block
      ensures target == TargetValue(GenesisBits)
    {
      GenesisTarget();
      var t := CalculateTarget(GenesisBits);
      this.block := block;
      target := t;
    }

    /**
     * mining: try nonces 0, 1, 2, ... in the header until the hash value is
     * below the target. The nonce is a uint32, so after 2^32 tries the same
     * headers repeat: `found` is false exactly when none of them hits, where
     * the original loops forever.
     */
    method Mining(c: Crypto) returns (found: bool)
      modifies this
      ensures block == old(block).(header := old(block).header.(nonce := block.header.nonce))
      ensures found ==> Hits(c, old(block).header, target, block.header.nonce)
      ensures found ==> forall n: Uint32 :: n < block.header.nonce ==> !Hits(c, old(block).header, target, n)
      ensures !found <==> forall n: Uint32 :: !Hits(c, old(block).header, target, n)
    {
      var nonce := 0;
      while nonce < NonceLimit
        invariant 0 <= nonce <= NonceLimit
        invariant block == old(block).(header := old(block).header.(nonce := block.header.nonce))
        invariant forall n: Uint32 :: n < nonce ==> !Hits(c, old(block).header, target, n)
      {
        block := block.(header := block.header.(nonce := nonce));
        if HeaderValue(c, block.header) < target {
          assert Hits(c, old(block).header, target, nonce);
          return true;
        }
        nonce := nonce + 1;
      }
      return false;
    }
  }
}
