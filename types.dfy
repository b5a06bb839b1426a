/**
 * The node's records (transactions, headers, blocks, unspent outputs, key
 * pairs) as values, and the cryptographic and JSON primitives they are
 * hashed, signed and verified with, taken as parameters.
 */
module Types {
  import opened Results
  import opened Bytes

  type Uint32 = x: int | 0 <= x < 0x1_0000_0000

  /** A SHA-256 output. */
  type Digest = s: Bytes | |s| == 32 witness seq(32, i => 0)

  /** TxIn: the spent output (transaction hash and output index) and the unlocking script. */
  datatype TxIn = TxIn(prevTxHash: Bytes, prevTxOutIndex: nat, scriptSig: Bytes)

  /** TxOut: an amount locked to a public-key hash. */
  datatype TxOut = TxOut(value: int, scriptPubKey: Bytes)

  datatype Transaction = Transaction(inputs: seq<TxIn>, outputs: seq<TxOut>, lockTime: Uint32)

  datatype BlockHeader = BlockHeader(
    version: Uint32,
    prevBlock: Bytes,
    merkleRoot: Bytes,
    timeStamp: Uint32,
    bits: Uint32,
    nonce: Uint32,
    height: int)

  datatype Block = Block(header: BlockHeader, transactions: seq<Transaction>)

  /** UTXO: an unspent output, its position in its transaction and that transaction's hex id. */
  datatype UTXO = UTXO(unspent: TxOut, index: nat, txid: Bytes)

  datatype KeyPair = KeyPair(publicKey: Bytes, privateKey: nat)

  /**
   * The functions the node borrows from libraries: SHA-256, the JSON
   * encodings of headers and transactions, ECDSA P-256 signing (private
   * key and message to r and s, or a failure) and verification (public key,
   * message, r, s), and RIPEMD-160.
   */
  datatype Crypto = Crypto(
    sha256: Bytes -> Digest,
    headerJson: BlockHeader -> Bytes,
    txJson: Transaction -> Bytes,
    ecdsaSign: (nat, Bytes) -> Option<(nat, nat)>,
    ecdsaVerify: (Bytes, Bytes, nat, nat) -> bool,
    ripemd160: Bytes -> Bytes)

  /** DoubleSha256 of utils.go. */
  function DoubleSha256(c: Crypto, input: Bytes): (r: Digest)
  {
    c.sha256(c.sha256(input))
  }
}
