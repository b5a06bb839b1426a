/** Coinbase inputs (txinput.go): the all-zero previous hash with index 0. */
module TxInput {
  import opened Bytes
  import opened Types

  const CoinbasePrevTxHash: Bytes := Zeros(32)
  const CoinbasePrevTxOutIndex: nat := 0

  /** isCoinbaseTxIn: the previous hash is exactly the 32 zero bytes and the index is 0. */
  predicate IsCoinbaseTxIn(txIn: TxIn)
    ensures IsCoinbaseTxIn(txIn) ==> |txIn.prevTxHash| == 32 && txIn.prevTxOutIndex == 0
  {
    txIn.prevTxHash == CoinbasePrevTxHash && txIn.prevTxOutIndex == CoinbasePrevTxOutIndex
  }

  lemma CoinbaseTxInShape(txIn: TxIn)
    ensures IsCoinbaseTxIn(txIn) <==>
              |txIn.prevTxHash| == 32 && txIn.prevTxOutIndex == 0 &&
              forall k :: 0 <= k < 32 ==> txIn.prevTxHash[k] == 0
  {
    if |txIn.prevTxHash| == 32 && forall k :: 0 <= k < 32 ==> txIn.prevTxHash[k] == 0 {
      assert txIn.prevTxHash == CoinbasePrevTxHash;
    }
  }

  /** CreateCoinbaseTxIn: a coinbase input carrying `data` as its script. */
  function CreateCoinbaseTxIn(data: Bytes): (r: TxIn)
    ensures IsCoinbaseTxIn(r)
    ensures r.scriptSig == data
  {
    TxIn(CoinbasePrevTxHash, CoinbasePrevTxOutIndex, data)
  }

  /** recoverCoinbaseScriptsig: the script read back as text. */
  function RecoverCoinbaseScriptsig(txIn: TxIn): (r: Bytes)
    ensures IsCoinbaseTxIn(txIn) ==> CreateCoinbaseTxIn(r) == txIn
  {
    txIn.scriptSig
  }

  lemma RecoverCreated(data: Bytes)
    ensures RecoverCoinbaseScriptsig(CreateCoinbaseTxIn(data)) == data
  {
  }
}
