/**
 * Blocks (block.go): the block identity hash, the coinbase text, and the
 * assembly of a new block around the nonce search.
 */
module Blocks {
  import opened Results
  import opened Bytes
  import opened Types
  import opened TxOutput
  import opened Transactions
  import opened Merkle
  import opened BlockHeaders
  import PoW = ProofOfWork

  /** newHash: the byte-reversed double SHA-256 of the JSON header (height included). */
  function BlockHash(c: Crypto, b: Block): (r: Bytes)
    ensures |r| == 32
  {
    Reversed(DoubleSha256(c, c.headerJson(b.header)))
  }

  /** Reversing the identity gives the double hash of the JSON header back. */
  lemma BlockHashUnreversed(c: Crypto, b: Block)
    ensures Reversed(BlockHash(c, b)) == DoubleSha256(c, c.headerJson(b.header))
  {
    ReversedInvolution(DoubleSha256(c, c.headerJson(b.header)));
  }

  // ------------------------------------------------------------ text

  /** An ASCII string literal as bytes. */
  function Ascii(s: string): (r: Bytes)
    requires forall i :: 0 <= i < |s| ==> s[i] as int < 256
    ensures |r| == |s|
  {
    seq(|s|, i requires 0 <= i < |s| => s[i] as int)
  }

  predicate IsDecimalDigit(b: Byte)
  {
    48 <= b <= 57
  }

  /** The number a string of decimal digits spells, most significant first. */
  function DecimalValue(s: Bytes): nat
    requires forall i :: 0 <= i < |s| ==> IsDecimalDigit(s[i])
  {
    if s == [] then 0
    else assert IsDecimalDigit(s[|s| - 1]); var d: int := s[|s| - 1]; DecimalValue(s[..|s| - 1]) * 10 + (d - 48)
  }

  /** The decimal digits of n as %d writes them: no leading zero except for 0 itself. */
  function DecimalDigits(n: nat): (r: Bytes)
    ensures |r| >= 1 && (r[0] == 48 ==> r == [48])
    ensures forall i :: 0 <= i < |r| ==> IsDecimalDigit(r[i])
    ensures DecimalValue(r) == n
  {
    if n < 10 then [48 + n]
    else
      var p := DecimalDigits(n / 10);
      assert (p + [48 + n % 10])[..|p|] == p;
      p + [48 + n % 10]
  }

  /** %d of a Go int: a minus sign before the digits of a negative number. */
  function Decimal(n: int): (r: Bytes)
    ensures |r| >= 1 && (n < 0 <==> r[0] == 45)
  {
    if n < 0 then [45] + DecimalDigits(-n) else DecimalDigits(n)
  }

  /** The coinbase script of a mined block: "mine by <miner> at height <height>". */
  function CoinbaseData(miner: Bytes, height: int): Bytes
  {
    Ascii("mine by ") + miner + Ascii(" at height ") + Decimal(height)
  }

  // ------------------------------------------------------------ assembly

  /** binary.LittleEndian.Uint32: the first four bytes, least significant first. */
  function LittleEndianUint32(bits: Bytes): (r: Uint32)
    requires |bits| >= 4
    ensures r == FromLittleEndian(bits[..4])
  {
    FromLittleEndianBound(bits[..4]);
    Pow256Widths();
    FromLittleEndian(bits[..4])
  }

  /** The transactions of a new block: the miner's coinbase, then the given ones in order. */
  function BlockTransactions(miner: Bytes, height: int, transactions: seq<Transaction>): (txs: seq<Transaction>)
    requires DecodableAddress(miner)
    ensures |txs| == |transactions| + 1 && txs[1..] == transactions
    ensures IsCoinBase(txs[0]) && txs[0].inputs[0].scriptSig == CoinbaseData(miner, height)
    ensures txs[0].outputs[0].scriptPubKey == AddressToPubkeyHash(miner)
  {
    [CreateCoinBaseTransaction(miner, CoinbaseData(miner, height))] + transactions
  }

  /** The header the nonce search starts from: version 0 and nonce 0. */
  function UnminedHeader(c: Crypto, prevBlock: Bytes, txs: seq<Transaction>, bits: Bytes, height: int,
                         timeStamp: Uint32): BlockHeader
    requires |txs| >= 1 && |bits| >= 4
  {
    BlockHeader(0, prevBlock, MerkleRoot(c, TxHashes(c, txs)), timeStamp, LittleEndianUint32(bits), 0, height)
  }

  /**
   * MiningNewBlock: coinbase first, the Merkle root over all transactions,
   * a header on `prevBlock` with the Bits read from `bits`, the nonce search
   * against the genesis target, and a copy of the mined header. None stands
   * for the search that never ends because no nonce hits.
   */
  method MiningNewBlock(c: Crypto, miner: Bytes, prevBlock: Bytes, bits: Bytes, height: int,
                        transactions: seq<Transaction>, timeStamp: Uint32) returns (block: Option<Block>)
    requires DecodableAddress(miner)
    requires |bits| >= 4
    ensures var txs := BlockTransactions(miner, height, transactions);
            var h := UnminedHeader(c, prevBlock, txs, bits, height, timeStamp);
            var target := PoW.TargetValue(PoW.GenesisBits);
            (block.None? <==> forall n: Uint32 :: !PoW.Hits(c, h, target, n)) &&
            (block.Some? ==>
               block.value.transactions == txs &&
               block.value.header == h.(nonce := block.value.header.nonce) &&
               PoW.HeaderValue(c, block.value.header) < target &&
               forall n: Uint32 :: n < block.value.header.nonce ==> !PoW.Hits(c, h, target, n))
    ensures block.Some? ==>
              var hd := block.value.header;
              hd.version == 0 && hd.prevBlock == prevBlock && hd.height == height && hd.timeStamp == timeStamp &&
              hd.bits == FromLittleEndian(bits[..4]) &&
              |block.value.transactions| >= 1 && IsCoinBase(block.value.transactions[0]) &&
              hd.merkleRoot == MerkleRoot(c, TxHashes(c, block.value.transactions))
              && block.value.transactions[1..] == transactions
  {
    var coinbaseTx := CreateCoinBaseTransaction(miner, CoinbaseData(miner, height));
    var txs := [coinbaseTx] + transactions;
    var root := CalculateMerkleRoot(c, txs);
    var bh := BlockHeader(0, prevBlock, root, timeStamp, LittleEndianUint32(bits), 0, height);
    assert txs == BlockTransactions(miner, height, transactions);
    assert bh == UnminedHeader(c, prevBlock, txs, bits, height, timeStamp);
    var pow := new PoW.ProofOfWork(Block(bh, txs));
    var found := pow.Mining(c);
    if !found {
      return None;
    }
    var newBlockHeader := CopyBlockHeader(pow.block.header);
    CopyIsEqual(pow.block.header);
    block := Some(pow.block.(header := newBlockHeader));
  }

  /** GenesisBits read little-endian: the Bits of the genesis block. */
  lemma GenesisBitsValue()
    ensures LittleEndianUint32(PoW.GenesisBits) == 4294967071
  {
    assert PoW.GenesisBits[..4] == PoW.GenesisBits;
    assert PoW.GenesisBits[1..][1..][1..][1..] == [];
  }

  /**
   * CreateGenesisBlock: height 1 on 32 zero bytes with GenesisBits and only
   * the coinbase; `data` is not used.
   */
  method CreateGenesisBlock(c: Crypto, miner: Bytes, data: Bytes, timeStamp: Uint32) returns (block: Option<Block>)
    requires DecodableAddress(miner)
    ensures block.Some? ==>
              var hd := block.value.header;
              hd.version == 0 && hd.prevBlock == Zeros(32) && hd.height == 1 && hd.bits == 4294967071 &&
              hd.timeStamp == timeStamp &&
              block.value.transactions == [CreateCoinBaseTransaction(miner, CoinbaseData(miner, 1))] &&
              PoW.HeaderValue(c, hd) < PoW.TargetValue(PoW.GenesisBits)
    ensures var h := UnminedHeader(c, Zeros(32), BlockTransactions(miner, 1, []), PoW.GenesisBits, 1, timeStamp);
            block.None? <==> forall n: Uint32 :: !PoW.Hits(c, h, PoW.TargetValue(PoW.GenesisBits), n)
  {
    GenesisBitsValue();
    block := MiningNewBlock(c, miner, Zeros(32), PoW.GenesisBits, 1, [], timeStamp);
  }
}
