/**
 * Transactions (transaction.go): coinbase recognition and creation, the
 * copy with every unlocking script cleared that signatures are made over,
 * and the transaction id.
 */
module Transactions {
  import opened Bytes
  import opened Types
  import opened TxInput
  import opened TxOutput

  /** isCoinBase: one coinbase-shaped input and one reward-valued output. */
  predicate IsCoinBase(tx: Transaction)
    ensures IsCoinBase(tx) ==>
              |tx.inputs| == 1 && |tx.inputs[0].prevTxHash| == 32 && tx.inputs[0].prevTxOutIndex == 0 &&
              |tx.outputs| == 1 && tx.outputs[0].value == CoinbaseReward
  {
    |tx.inputs| == 1 && IsCoinbaseTxIn(tx.inputs[0]) &&
    |tx.outputs| == 1 && IsCoinbaseTxOut(tx.outputs[0])
  }

  /** CreateCoinBaseTransaction: the reward to `address`, with `data` in the input's script. */
  function CreateCoinBaseTransaction(address: Bytes, data: Bytes): (tx: Transaction)
    requires DecodableAddress(address)
    ensures IsCoinBase(tx)
    ensures tx.lockTime == 0
    ensures tx.inputs[0].scriptSig == data
    ensures tx.outputs[0].scriptPubKey == AddressToPubkeyHash(address)
  {
    Transaction([CreateCoinbaseTxIn(data)], [CreateCoinbaseTxOut(address)], 0)
  }

  /** CopyCleanScriptSigTx: the same inputs without their scripts, the same outputs and lock time. */
  function CopyCleanScriptSigTx(tx: Transaction): (r: Transaction)
    ensures |r.inputs| == |tx.inputs|
    ensures forall i :: 0 <= i < |tx.inputs| ==>
              r.inputs[i].prevTxHash == tx.inputs[i].prevTxHash &&
              r.inputs[i].prevTxOutIndex == tx.inputs[i].prevTxOutIndex &&
              r.inputs[i].scriptSig == []
    ensures r.outputs == tx.outputs && r.lockTime == tx.lockTime
  {
    var inputs := seq(|tx.inputs|, i requires 0 <= i < |tx.inputs| =>
                        TxIn(tx.inputs[i].prevTxHash, tx.inputs[i].prevTxOutIndex, []));
    Transaction(inputs, tx.outputs, tx.lockTime)
  }

  lemma CopyCleanIdempotent(tx: Transaction)
    ensures CopyCleanScriptSigTx(CopyCleanScriptSigTx(tx)) == CopyCleanScriptSigTx(tx)
  {
  }

  /** Two transactions that differ only in their unlocking scripts have the same clean copy. */
  lemma CopyCleanIgnoresScripts(a: Transaction, b: Transaction)
    requires |a.inputs| == |b.inputs| && a.outputs == b.outputs && a.lockTime == b.lockTime
    requires forall i :: 0 <= i < |a.inputs| ==>
               a.inputs[i].prevTxHash == b.inputs[i].prevTxHash &&
               a.inputs[i].prevTxOutIndex == b.inputs[i].prevTxOutIndex
    ensures CopyCleanScriptSigTx(a) == CopyCleanScriptSigTx(b)
  {
  }

  /** The message signed and verified for input i: the clean copy with that input's script set to `script`. */
  function SigningMessage(tx: Transaction, i: nat, script: Bytes): (m: Transaction)
    requires i < |tx.inputs|
    ensures |m.inputs| == |tx.inputs| && m.outputs == tx.outputs && m.lockTime == tx.lockTime
    ensures m.inputs[i].scriptSig == script
    ensures forall k :: 0 <= k < |tx.inputs| && k != i ==> m.inputs[k].scriptSig == []
  {
    var clean := CopyCleanScriptSigTx(tx);
    clean.(inputs := clean.inputs[i := clean.inputs[i].(scriptSig := script)])
  }

  /** newHash: the byte-reversed double SHA-256 of the JSON form, unlocking scripts included. */
  function TxHash(c: Crypto, tx: Transaction): (r: Bytes)
    ensures |r| == 32
  {
    Reversed(DoubleSha256(c, c.txJson(tx)))
  }
}
