/**
 * The ledger of blockchain.go: a BlockChain object holding the block
 * bucket (identity hash to block), the tip and its height, the UTXO bucket
 * with its checkpoint, and the in-memory hex-keyed copy of the UTXO bucket;
 * the BlockIterator that walks from the tip towards genesis; and the loops
 * of ReIndexUTXO, scanUTXOs, the hash listings, findTransaction and
 * verifyTransaction, each proved against the functions of Chains and Utxos.
 */
module Ledger {
  import opened Results
  import opened Bytes
  import opened Types
  import Hex
  import opened TxInput
  import opened Transactions
  import opened Chains
  import opened Utxos
  import Blocks

  /** The errors AddBlock reports: a block at the wrong height, and a spend of a list the UTXO bucket lacks. */
  datatype ChainError = MissingBlockHeight(height: int) | UnspentListMissing

  // ---------------------------------------------------- loops on values

  /** The list rewrite of one spending input: the entries whose Index differs, in order. */
  method FilterUtxos(utxos: seq<UTXO>, index: nat) returns (kept: seq<UTXO>)
    ensures kept == FilterIndex(utxos, index)
  {
    kept := [];
    var j := 0;
    while j < |utxos|
      invariant 0 <= j <= |utxos|
      invariant kept == FilterIndex(utxos[..j], index)
    {
      assert utxos[..j + 1][..j] == utxos[..j];
      if utxos[j].index != index {
        kept := kept + [utxos[j]];
      }
      j := j + 1;
    }
    assert utxos[..j] == utxos;
  }

  /** The inputs loop of ReIndexUTXO: each non-coinbase input rewrites its list, and a missing list stops it. */
  method SpendTxInputs(bucket: Bucket, inputs: seq<TxIn>) returns (after: Bucket, ok: bool)
    ensures (after, ok) == SpendInputs(bucket, inputs)
  {
    after := bucket;
    var k := 0;
    while k < |inputs|
      invariant 0 <= k <= |inputs|
      invariant (after, true) == SpendInputs(bucket, inputs[..k])
    {
      assert inputs[..k + 1][..k] == inputs[..k];
      var input := inputs[k];
      if !IsCoinbaseTxIn(input) {
        if input.prevTxHash !in after {
          SpendInputsStops(bucket, inputs, k + 1);
          return after, false;
        }
        var newUtxos := FilterUtxos(after[input.prevTxHash], input.prevTxOutIndex);
        after := after[input.prevTxHash := newUtxos];
      }
      k := k + 1;
    }
    assert inputs[..k] == inputs;
    ok := true;
  }

  /** The outputs loop of ReIndexUTXO: one record per output at its position. */
  method NewFreshUtxos(c: Crypto, tx: Transaction) returns (newUtxos: seq<UTXO>)
    ensures newUtxos == FreshUtxos(c, tx)
  {
    var txid := Hex.EncodeToString(TxHash(c, tx));
    newUtxos := [];
    var j := 0;
    while j < |tx.outputs|
      invariant 0 <= j <= |tx.outputs|
      invariant |newUtxos| == j
      invariant forall i :: 0 <= i < j ==> newUtxos[i] == UTXO(tx.outputs[i], i, txid)
    {
      newUtxos := newUtxos + [UTXO(tx.outputs[j], j, txid)];
      j := j + 1;
    }
  }

  /** The transactions loop of ReIndexUTXO for one block, stopping at the first failed spend. */
  method IndexBlockTxs(c: Crypto, ix: UtxoIndex, txs: seq<Transaction>, blockHash: Bytes)
    returns (after: UtxoIndex, ok: bool)
    ensures (after, ok) == ApplyTxs(c, ix, txs, blockHash)
  {
    after := ix;
    var j := 0;
    while j < |txs|
      invariant 0 <= j <= |txs|
      invariant (after, true) == ApplyTxs(c, ix, txs[..j], blockHash)
    {
      assert txs[..j + 1][..j] == txs[..j];
      var tx := txs[j];
      var bucket, spent := SpendTxInputs(after.bucket, tx.inputs);
      if !spent {
        after := after.(bucket := bucket);
        ApplyTxsStops(c, ix, txs, blockHash, j + 1);
        return after, false;
      }
      var newUtxos := NewFreshUtxos(c, tx);
      after := UtxoIndex(bucket[TxHash(c, tx) := newUtxos], Some(blockHash));
      j := j + 1;
    }
    assert txs[..j] == txs;
    ok := true;
  }

  /**
   * The blocks loop of ReIndexUTXO's incremental pass: each block looked up
   * by hash and its transactions indexed under its identity hash, stopping at
   * the first failed spend.
   */
  method IndexBlocks(c: Crypto, blocks: Store, ix: UtxoIndex, hashes: seq<Bytes>) returns (after: UtxoIndex, ok: bool)
    requires forall i :: 0 <= i < |hashes| ==> hashes[i] in blocks
    ensures (after, ok) == ApplyBlocks(c, blocks, ix, hashes)
  {
    after := ix;
    var i := 0;
    while i < |hashes|
      invariant 0 <= i <= |hashes|
      invariant (after, true) == ApplyBlocks(c, blocks, ix, hashes[..i])
    {
      assert hashes[..i + 1][..i] == hashes[..i];
      var block := blocks[hashes[i]];
      var indexed;
      after, indexed := IndexBlockTxs(c, after, block.transactions, Blocks.BlockHash(c, block));
      if !indexed {
        ApplyBlocksStops(c, blocks, ix, hashes, i + 1);
        return after, false;
      }
      i := i + 1;
    }
    assert hashes[..i] == hashes;
    ok := true;
  }

  /** The write loop of the full reindex: every scanned list under its raw id. */
  method WriteScanned(bucket: Bucket, scanned: map<Bytes, seq<UTXO>>) returns (after: Bucket)
    requires TxIdKeyed(scanned)
    ensures after == bucket + RawKeyed(scanned)
  {
    OutsideEnds(scanned);
    RawKeyedNone(bucket);
    after := bucket;
    var pending := scanned.Keys;
    while pending != {}
      invariant pending <= scanned.Keys
      invariant after == bucket + RawKeyed(Outside(scanned, pending))
      decreases |pending|
    {
      var k :| k in pending;
      RawKeyedLoopStep(bucket, scanned, pending, k);
      after := after[Hex.HexStrToBytes(k) := scanned[k]];
      pending := pending - {k};
    }
  }

  /** The cursor loop of getUTXOs: each list appended under the hex of its raw id. */
  method HexKeyedCopy(bucket: Bucket) returns (all: map<Bytes, seq<UTXO>>)
    ensures all == HexKeyed(bucket)
  {
    OutsideEnds(bucket);
    HexKeyedNone();
    all := map[];
    var pending := bucket.Keys;
    while pending != {}
      invariant pending <= bucket.Keys
      invariant all == HexKeyed(Outside(bucket, pending))
      decreases |pending|
    {
      var t :| t in pending;
      var key := Hex.EncodeToString(t);
      HexKeyedLoopStep(bucket, pending, t);
      all := all[key := Get(all, key) + bucket[t]];
      pending := pending - {t};
    }
  }

  /** The `range ids` loop of scanUTXOs: whether output `index` is among the recorded spends, leaving at the first hit. */
  method ListedSpend(ids: seq<nat>, index: nat) returns (found: bool)
    ensures found <==> index in ids
  {
    found := false;
    var n := 0;
    while n < |ids| && !found
      invariant 0 <= n <= |ids|
      invariant found <==> index in ids[..n]
    {
      assert ids[..n + 1] == ids[..n] + [ids[n]];
      found := ids[n] == index;
      n := n + 1;
    }
    assert !found ==> ids[..n] == ids;
  }

  /** The outputs loop of scanUTXOs for one transaction: each output not recorded as spent is appended under txid. */
  method AppendUnspent(utxos: map<Bytes, seq<UTXO>>, spent: map<Bytes, seq<nat>>, outputs: seq<TxOut>, txid: Bytes)
    returns (r: map<Bytes, seq<UTXO>>)
    ensures r == AppendKept(utxos, txid, KeptOutputs(outputs, |outputs|, Get(spent, txid), txid))
  {
    ghost var ids := Get(spent, txid);
    r := utxos;
    var j := 0;
    while j < |outputs|
      invariant 0 <= j <= |outputs|
      invariant r == AppendKept(utxos, txid, KeptOutputs(outputs, j, ids, txid))
    {
      ghost var kept := KeptOutputs(outputs, j, ids, txid);
      var spentHere := false;
      if txid in spent {
        spentHere := ListedSpend(spent[txid], j);
      } else {
        assert ids == [];
      }
      KeptOutputsNext(outputs, j, ids, txid);
      if !spentHere {
        assert j !in ids;
        var u := UTXO(outputs[j], j, txid);
        AppendKeptSnoc(utxos, txid, kept, u);
        r := r[txid := Get(r, txid) + [u]];
      } else {
        assert j in ids;
      }
      j := j + 1;
    }
  }

  /** The inputs loop of scanUTXOs for one transaction: unless it is a coinbase, each input's position under its hex previous id. */
  method RecordSpends(spent: map<Bytes, seq<nat>>, tx: Transaction) returns (r: map<Bytes, seq<nat>>)
    ensures r == if IsCoinBase(tx) then spent else AddSpends(spent, tx.inputs, |tx.inputs|)
  {
    r := spent;
    var k := 0;
    while k < |tx.inputs|
      invariant 0 <= k <= |tx.inputs|
      invariant r == if IsCoinBase(tx) then spent else AddSpends(spent, tx.inputs, k)
    {
      if !IsCoinBase(tx) {
        var key := Hex.EncodeToString(tx.inputs[k].prevTxHash);
        r := r[key := Get(r, key) + [k]];
      }
      k := k + 1;
    }
  }

  /** The body of scanUTXOs for one transaction: its unspent outputs, then its spends. */
  method ScanTransaction(c: Crypto, st: ScanState, tx: Transaction) returns (r: ScanState)
    ensures r == ScanTx(c, st, tx)
  {
    var txid := Hex.EncodeToString(TxHash(c, tx));
    var utxos := AppendUnspent(st.utxos, st.spent, tx.outputs, txid);
    var spent := RecordSpends(st.spent, tx);
    r := ScanState(utxos, spent);
  }

  /** The transactions loop of scanUTXOs for one block. */
  method ScanBlockTxs(c: Crypto, st: ScanState, txs: seq<Transaction>) returns (r: ScanState)
    ensures r == ScanTxs(c, st, txs)
  {
    r := st;
    var j := 0;
    while j < |txs|
      invariant 0 <= j <= |txs|
      invariant r == ScanTxs(c, st, txs[..j])
    {
      assert txs[..j + 1][..j] == txs[..j];
      r := ScanTransaction(c, r, txs[j]);
      j := j + 1;
    }
    assert txs[..j] == txs;
  }

  /** The delete loop of ReOrgBlockchain: each listed hash removed from the store. */
  method DeleteBlocks(blocks: Store, hashes: seq<Bytes>) returns (rest: Store)
    ensures rest == Without(blocks, hashes)
  {
    rest := blocks;
    var i := 0;
    while i < |hashes|
      invariant 0 <= i <= |hashes|
      invariant rest == Without(blocks, hashes[..i])
    {
      WithoutSnoc(blocks, hashes[..i], hashes[i]);
      assert hashes[..i + 1] == hashes[..i] + [hashes[i]];
      rest := map x | x in rest && x != hashes[i] :: rest[x];
      i := i + 1;
    }
    assert hashes[..i] == hashes;
  }

  /** The lookup loop of verifyTransaction: the output of the last entry with the given Index, if any. */
  method FindUnspent(utxos: seq<UTXO>, index: nat) returns (isUnspent: bool, prevTx: TxOut)
    ensures LastUnspent(utxos, index) == if isUnspent then Some(prevTx) else None
  {
    isUnspent := false;
    prevTx := TxOut(0, []);
    var n := 0;
    while n < |utxos|
      invariant 0 <= n <= |utxos|
      invariant LastUnspent(utxos[..n], index) == if isUnspent then Some(prevTx) else None
    {
      assert utxos[..n + 1][..n] == utxos[..n];
      if utxos[n].index == index {
        isUnspent := true;
        prevTx := utxos[n].unspent;
      }
      n := n + 1;
    }
    assert utxos[..n] == utxos;
  }

  /** The body of verifyTransaction's inputs loop for input i. */
  method VerifyInput(c: Crypto, utxosMap: map<Bytes, seq<UTXO>>, tx: Transaction, i: nat) returns (ok: bool)
    requires i < |tx.inputs| && |tx.inputs[i].scriptSig| >= 64
    ensures ok <==> InputVerifies(c, utxosMap, tx, i)
  {
    var input := tx.inputs[i];
    var signature := input.scriptSig[..64];
    var pubkey := input.scriptSig[64..];
    var isUnspent, prevTx := FindUnspent(Get(utxosMap, Hex.EncodeToString(input.prevTxHash)), input.prevTxOutIndex);
    if !isUnspent {
      return false;
    }
    var message := SigningMessage(tx, i, prevTx.scriptPubKey);
    var r := FromBigEndian(signature[..32]);
    var s := FromBigEndian(signature[32..]);
    assert signature[..32] == input.scriptSig[..32] && signature[32..] == input.scriptSig[32..64];
    ok := c.ecdsaVerify(pubkey, c.txJson(message), r, s);
  }

  // ---------------------------------------------------- specifications

  /** The first transaction of `txs` with identity `id`. */
  function FindInTxs(c: Crypto, txs: seq<Transaction>, id: Bytes): (r: Option<Transaction>)
    ensures r.None? <==> forall k :: 0 <= k < |txs| ==> TxHash(c, txs[k]) != id
    ensures r.Some? ==> exists k :: 0 <= k < |txs| && txs[k] == r.value && TxHash(c, r.value) == id &&
                                    forall k' :: 0 <= k' < k ==> TxHash(c, txs[k']) != id
  {
    if txs == [] then None
    else if TxHash(c, txs[0]) == id then Some(txs[0])
    else
      var r := FindInTxs(c, txs[1..], id);
      assert forall k :: 1 <= k < |txs| ==> txs[k] == txs[1..][k - 1];
      r
  }

  /** The first transaction with identity `id` in the blocks of `hashes`, in that order. */
  function FindIn(c: Crypto, blocks: Store, hashes: seq<Bytes>, id: Bytes): (r: Option<Transaction>)
    requires forall i :: 0 <= i < |hashes| ==> hashes[i] in blocks
    ensures r.None? <==> forall i, k :: 0 <= i < |hashes| && 0 <= k < |blocks[hashes[i]].transactions| ==>
                                          TxHash(c, blocks[hashes[i]].transactions[k]) != id
    ensures r.Some? ==> TxHash(c, r.value) == id &&
                        exists i :: 0 <= i < |hashes| && r.value in blocks[hashes[i]].transactions
  {
    if hashes == [] then None
    else
      var here := FindInTxs(c, blocks[hashes[0]].transactions, id);
      if here.Some? then here
      else
        var r := FindIn(c, blocks, hashes[1..], id);
        assert forall i :: 1 <= i < |hashes| ==> hashes[i] == hashes[1..][i - 1];
        r
  }

  /** The last entry of `utxos` with the given Index, as verifyTransaction's lookup keeps overwriting. */
  function LastUnspent(utxos: seq<UTXO>, index: nat): (r: Option<TxOut>)
    ensures r.None? <==> forall k :: 0 <= k < |utxos| ==> utxos[k].index != index
    ensures r.Some? ==> exists k :: 0 <= k < |utxos| && utxos[k].index == index && utxos[k].unspent == r.value &&
                                    forall k' :: k < k' < |utxos| ==> utxos[k'].index != index
  {
    if utxos == [] then None
    else if utxos[|utxos| - 1].index == index then Some(utxos[|utxos| - 1].unspent)
    else LastUnspent(utxos[..|utxos| - 1], index)
  }

  /** ECDSA over the JSON message, with r and s the two 32-byte halves of the first 64 script bytes and the rest as key. */
  predicate SignatureVerifies(c: Crypto, scriptSig: Bytes, message: Transaction)
    requires |scriptSig| >= 64
  {
    c.ecdsaVerify(scriptSig[64..], c.txJson(message), FromBigEndian(scriptSig[..32]), FromBigEndian(scriptSig[32..64]))
  }

  /** Input i spends an output listed in `utxosMap`, and its script signs the message built from that output. */
  predicate InputVerifies(c: Crypto, utxosMap: map<Bytes, seq<UTXO>>, tx: Transaction, i: nat)
    requires i < |tx.inputs| && |tx.inputs[i].scriptSig| >= 64
  {
    var input := tx.inputs[i];
    var prev := LastUnspent(Get(utxosMap, Hex.EncodeToString(input.prevTxHash)), input.prevTxOutIndex);
    prev.Some? && SignatureVerifies(c, input.scriptSig, SigningMessage(tx, i, prev.value.scriptPubKey))
  }

  /** Input i carries the 64 signature bytes verifyTransaction slices off, and verifies. */
  predicate InputAccepted(c: Crypto, utxosMap: map<Bytes, seq<UTXO>>, tx: Transaction, i: nat)
    requires i < |tx.inputs|
  {
    |tx.inputs[i].scriptSig| >= 64 && InputVerifies(c, utxosMap, tx, i)
  }

  /**
   * verifyTransaction slices the script of every input it reaches, that is of
   * every input whose predecessors all verified.
   */
  predicate ReachedScriptsLongEnough(c: Crypto, utxosMap: map<Bytes, seq<UTXO>>, tx: Transaction)
  {
    forall i :: 0 <= i < |tx.inputs| && (forall j :: 0 <= j < i ==> InputAccepted(c, utxosMap, tx, j)) ==>
      |tx.inputs[i].scriptSig| >= 64
  }

  /**
   * An input 0 that names no listed output ends verifyTransaction, so the
   * scripts of the later inputs may have any length.
   */
  lemma UnlistedFirstInputStops(c: Crypto, utxosMap: map<Bytes, seq<UTXO>>, tx: Transaction)
    requires |tx.inputs| >= 1 && |tx.inputs[0].scriptSig| >= 64
    requires LastUnspent(Get(utxosMap, Hex.EncodeToString(tx.inputs[0].prevTxHash)), tx.inputs[0].prevTxOutIndex).None?
    ensures ReachedScriptsLongEnough(c, utxosMap, tx)
  {
    assert !InputAccepted(c, utxosMap, tx, 0);
  }

  /** The fields AddBlock reads and writes, as one value. */
  datatype ChainState = ChainState(
    blocks: Store, top: Bytes, height: int, utxoIndex: UtxoIndex, utxosMap: map<Bytes, seq<UTXO>>)

  /**
   * AddBlock on a state value: refused at any height but the next;
   * otherwise stored, made the tip, the index brought up to date and, when
   * that succeeds, the hex-keyed copy refreshed.
   */
  function AddBlockSpec(c: Crypto, st: ChainState, block: Block): (ChainState, Option<ChainError>)
  {
    if block.header.height != st.height + 1 then (st, Some(MissingBlockHeight(st.height + 1)))
    else
      var hash := Blocks.BlockHash(c, block);
      var blocks := st.blocks[hash := block];
      var (ix, ok) := ReIndexed(c, blocks, hash, st.utxoIndex);
      if ok then (ChainState(blocks, hash, block.header.height, ix, HexKeyed(ix.bucket)), None)
      else (ChainState(blocks, hash, block.header.height, ix, st.utxosMap), Some(UnspentListMissing))
  }

  /**
   * An accepted block is stored under its hash, becomes the tip and raises
   * the height by one; the index is re-indexed over the new store, and the
   * hex-keyed copy is refreshed only when re-indexing succeeds.
   */
  lemma AddBlockAccepted(c: Crypto, st: ChainState, block: Block)
    ensures var (st', err) := AddBlockSpec(c, st, block);
            block.header.height == st.height + 1 <==>
              st'.height == st.height + 1 && st'.top == Blocks.BlockHash(c, block) &&
              Blocks.BlockHash(c, block) in st'.blocks && st'.blocks[Blocks.BlockHash(c, block)] == block
    ensures var (st', err) := AddBlockSpec(c, st, block);
            block.header.height != st.height + 1 ==> st' == st && err == Some(MissingBlockHeight(st.height + 1))
    ensures var (st', err) := AddBlockSpec(c, st, block);
            var hash := Blocks.BlockHash(c, block);
            var (ix, ok) := ReIndexed(c, st.blocks[hash := block], hash, st.utxoIndex);
            block.header.height == st.height + 1 ==>
              st'.blocks == st.blocks[hash := block] && st'.utxoIndex == ix &&
              (ok ==> st'.utxosMap == HexKeyed(ix.bucket) && err.None?) &&
              (!ok ==> st'.utxosMap == st.utxosMap && err == Some(UnspentListMissing))
  {
  }

  /** `blks` are the stored blocks of the hashes in `order`, position by position. */
  predicate Lists(blks: seq<Block>, blocks: Store, order: seq<Bytes>)
  {
    |blks| == |order| && forall i :: 0 <= i < |blks| ==> order[i] in blocks && blks[i] == blocks[order[i]]
  }

  /** One more block at either end of the listing. */
  lemma ListsStep(blks: seq<Block>, blocks: Store, order: seq<Bytes>, blk: Block, h: Bytes)
    requires Lists(blks, blocks, order) && h in blocks && blk == blocks[h]
    ensures Lists(blks + [blk], blocks, order + [h])
    ensures Lists([blk] + blks, blocks, [h] + order)
  {
  }

  /** Reversing a list with one more element puts that element first. */
  lemma RevSnoc(s: seq<Bytes>, x: Bytes)
    ensures Rev(s + [x]) == [x] + Rev(s)
  {
  }

  /** Removing the hashes of a reversed list removes the same blocks. */
  lemma WithoutRev(blocks: Store, p: seq<Bytes>)
    ensures Without(blocks, Rev(p)) == Without(blocks, p)
  {
    forall x ensures x in Rev(p) <==> x in p {
      if x in p {
        var i :| 0 <= i < |p| && p[i] == x;
        assert Rev(p)[|p| - 1 - i] == x;
      }
    }
  }

  /** Removing one more hash from the store. */
  lemma WithoutSnoc(blocks: Store, hs: seq<Bytes>, h: Bytes)
    ensures Without(blocks, hs + [h]) == map x | x in Without(blocks, hs) && x != h :: Without(blocks, hs)[x]
  {
    var l := Without(blocks, hs + [h]);
    var r := map x | x in Without(blocks, hs) && x != h :: Without(blocks, hs)[x];
    forall x ensures (x in l <==> x in r) && (x in l ==> l[x] == r[x]) {
      assert x in hs + [h] <==> x in hs || x == h;
    }
    MapsEqual(l, r);
  }

  /**
   * ReOrgBlockchain's result: removing the hashes above `hash` (in either
   * order) and, when the walk from the tip repeats nothing and passes `hash`,
   * the walk from `hash` is the old walk's rest from there.
   */
  lemma ReOrgChain(blocks: Store, top: Bytes, hash: Bytes)
    ensures var above := Above(blocks, top, hash);
            var w := Walk(blocks, top, |blocks|);
            var rest := Without(blocks, above);
            rest == Without(blocks, Prefix(w, hash)) &&
            (NoDup(w) && hash in w ==> Walk(rest, hash, |rest|) == w[|above|..])
  {
    var w := Walk(blocks, top, |blocks|);
    WithoutRev(blocks, Prefix(w, hash));
    if NoDup(w) && hash in w {
      ReOrgLeavesSuffix(blocks, top, hash);
    }
  }

  /** In a sequence split as v + rest, with h absent from v and heading rest, v is the prefix before h. */
  lemma PrefixOfSplit(s: seq<Bytes>, v: seq<Bytes>, rest: seq<Bytes>, h: Bytes)
    requires s == v + rest && h !in v && (rest == [] || rest[0] == h)
    ensures Prefix(s, h) == v
  {
    var r := Prefix(s, h);
    if rest == [] {
      assert s == v;
    } else {
      assert s[|v|] == h;
      assert |r| <= |v|;
      assert |r| >= |v|;
      assert r == s[..|v|];
    }
  }

  // ---------------------------------------------------- the ledger

  class BlockChain {
    const crypto: Crypto
    /** The "DB" bucket without its "top" entry. */
    var blocks: Store
    var top: Bytes
    var height: int
    /** The "UTXO" bucket: the lists by raw id, and the "top" checkpoint. */
    var utxoIndex: UtxoIndex
    var utxosMap: map<Bytes, seq<UTXO>>

    /** Every block is stored under its identity hash. */
    ghost predicate Valid()
      reads this
    {
      forall h :: h in blocks ==> Blocks.BlockHash(crypto, blocks[h]) == h
    }

    /** The fields AddBlock reads and writes. */
    function State(): ChainState
      reads this
    {
      ChainState(blocks, top, height, utxoIndex, utxosMap)
    }

    /** The hashes the iterator visits from the tip, tip first. */
    function Chain(): (r: seq<Bytes>)
      reads this
      ensures forall i :: 0 <= i < |r| ==> r[i] in blocks
    {
      Walk(blocks, top, |blocks|)
    }

    /** The state CreateBlockChain starts from: empty buckets, no tip, height 0. */
    constructor(crypto: Crypto)
      ensures Valid() && this.crypto == crypto
      ensures blocks == map[] && top == [] && height == 0
      ensures utxoIndex == UtxoIndex(map[], None) && utxosMap == map[]
    {
      this.crypto := crypto;
      blocks := map[];
      top := [];
      height := 0;
      utxoIndex := UtxoIndex(map[], None);
      utxosMap := map[];
    }

    /** putBlock: store under the identity hash; the tip moves only to a greater height. */
    method PutBlock(block: Block)
      requires Valid()
      modifies this
      ensures Valid()
      ensures blocks == old(blocks)[Blocks.BlockHash(crypto, block) := block]
      ensures old(height) < block.header.height ==> top == Blocks.BlockHash(crypto, block) && height == block.header.height
      ensures old(height) >= block.header.height ==> top == old(top) && height == old(height)
      ensures utxoIndex == old(utxoIndex) && utxosMap == old(utxosMap)
    {
      var hash := Blocks.BlockHash(crypto, block);
      blocks := blocks[hash := block];
      if height < block.header.height {
        height := block.header.height;
        top := hash;
      }
    }

    /**
     * AddBlock: a block at the next height is stored, the UTXO index is
     * brought up to date and, when that succeeds, the hex-keyed copy is
     * refreshed; any other height is refused with nothing changed.
     */
    method AddBlock(block: Block) returns (err: Option<ChainError>)
      requires Valid()
      modifies this
      ensures Valid()
      ensures block.header.height != old(height) + 1 ==>
                err == Some(MissingBlockHeight(old(height) + 1)) &&
                blocks == old(blocks) && top == old(top) && height == old(height) &&
                utxoIndex == old(utxoIndex) && utxosMap == old(utxosMap)
      ensures block.header.height == old(height) + 1 ==>
                blocks == old(blocks)[Blocks.BlockHash(crypto, block) := block] &&
                top == Blocks.BlockHash(crypto, block) && height == block.header.height &&
                var (ix, ok) := ReIndexed(crypto, blocks, top, old(utxoIndex));
                utxoIndex == ix &&
                (ok ==> err == None && utxosMap == HexKeyed(ix.bucket)) &&
                (!ok ==> err == Some(UnspentListMissing) && utxosMap == old(utxosMap))
      ensures (State(), err) == AddBlockSpec(crypto, old(State()), block)
    {
      if block.header.height != height + 1 {
        return Some(MissingBlockHeight(height + 1));
      }
      PutBlock(block);
      var ok := ReIndexUTXO();
      if !ok {
        return Some(UnspentListMissing);
      }
      var all := GetUTXOs();
      utxosMap := all;
      err := None;
    }

    /**
     * ReIndexUTXO: a full scan when the checkpoint is missing, nothing when
     * it is the tip, and otherwise the incremental pass over the blocks
     * above it, stopping at the first spend of a missing list.
     */
    method ReIndexUTXO() returns (ok: bool)
      requires Valid()
      modifies this
      ensures Valid()
      ensures (utxoIndex, ok) == ReIndexed(crypto, blocks, top, old(utxoIndex))
      ensures blocks == old(blocks) && top == old(top) && height == old(height) && utxosMap == old(utxosMap)
    {
      if utxoIndex.top.None? {
        var scanned := ScanUTXOs();
        var bucket := WriteScanned(utxoIndex.bucket, scanned);
        utxoIndex := UtxoIndex(bucket, Some(top));
        return true;
      }
      if utxoIndex.top.value == top {
        return true;
      }
      var hashes := GetBlockHashesAfterHash(utxoIndex.top.value);
      utxoIndex, ok := IndexBlocks(crypto, blocks, utxoIndex, hashes);
    }

    /** scanUTXOs: the scan of every transaction on the chain, tip first. */
    method ScanUTXOs() returns (utxos: map<Bytes, seq<UTXO>>)
      ensures utxos == Scan(crypto, blocks, top)
    {
      var iter := new BlockIterator(this);
      var st := ScanState(map[], map[]);
      ghost var visited: seq<Bytes> := [];
      while iter.HasNext()
        invariant iter.Valid() && iter.bc == this
        invariant visited + iter.Remaining() == Chain()
        invariant forall i :: 0 <= i < |visited| ==> visited[i] in blocks
        invariant st == ScanBlocks(crypto, blocks, ScanState(map[], map[]), visited)
        decreases iter.remaining
      {
        ghost var at := iter.at;
        var block := iter.Next();
        ScanBlocksStep(crypto, blocks, ScanState(map[], map[]), visited, at);
        st := ScanBlockTxs(crypto, st, block.transactions);
        AppendAssoc(visited, [at], iter.Remaining());
        visited := visited + [at];
      }
      assert visited + [] == visited;
      assert visited == Walk(blocks, top, |blocks|);
      utxos := st.utxos;
    }

    /** getBlocks: the blocks the iterator yields, tip first when `desc`, genesis first otherwise. */
    method GetBlocks(desc: bool) returns (blks: seq<Block>)
      ensures Lists(blks, blocks, if desc then Chain() else Rev(Chain()))
    {
      var iter := new BlockIterator(this);
      blks := [];
      ghost var visited: seq<Bytes> := [];
      while iter.HasNext()
        invariant iter.Valid() && iter.bc == this
        invariant visited + iter.Remaining() == Chain()
        invariant Lists(blks, blocks, if desc then visited else Rev(visited))
        decreases iter.remaining
      {
        ghost var at := iter.at;
        var blk := iter.Next();
        ListsStep(blks, blocks, if desc then visited else Rev(visited), blk, at);
        RevSnoc(visited, at);
        if desc {
          blks := blks + [blk];
        } else {
          blks := [blk] + blks;
        }
        AppendAssoc(visited, [at], iter.Remaining());
        visited := visited + [at];
      }
      assert visited + [] == visited;
    }

    /** getBlockHashes: the identity hashes of the walk, tip first when `desc`, and exactly reversed otherwise. */
    method GetBlockHashes(desc: bool) returns (hashes: seq<Bytes>)
      requires Valid()
      ensures hashes == if desc then Chain() else Rev(Chain())
    {
      var iter := new BlockIterator(this);
      hashes := [];
      ghost var visited: seq<Bytes> := [];
      while iter.HasNext()
        invariant iter.Valid() && iter.bc == this
        invariant visited + iter.Remaining() == Chain()
        invariant hashes == if desc then visited else Rev(visited)
        decreases iter.remaining
      {
        ghost var at := iter.at;
        var blk := iter.Next();
        var hash := Blocks.BlockHash(crypto, blk);
        RevSnoc(visited, at);
        if desc {
          hashes := hashes + [hash];
        } else {
          hashes := [hash] + hashes;
        }
        AppendAssoc(visited, [at], iter.Remaining());
        visited := visited + [at];
      }
      assert visited + [] == visited;
    }

    /** getBlockByHash. */
    method GetBlockByHash(hash: Bytes) returns (blk: Option<Block>)
      ensures blk == Lookup(blocks, hash)
      ensures blk.Some? <==> hash in blocks
    {
      blk := if hash in blocks then Some(blocks[hash]) else None;
    }

    /**
     * getBlockHashesAfterHash: the hashes before `hash` on the walk, genesis
     * side first; the whole chain when `hash` is not on it.
     */
    method GetBlockHashesAfterHash(hash: Bytes) returns (hashes: seq<Bytes>)
      requires Valid()
      ensures hashes == Above(blocks, top, hash)
      ensures hash !in hashes
      ensures hash !in Chain() ==> hashes == Rev(Chain())
    {
      var iter := new BlockIterator(this);
      hashes := [];
      ghost var visited: seq<Bytes> := [];
      ghost var rest := iter.Remaining();
      while iter.HasNext()
        invariant iter.Valid() && iter.bc == this
        invariant visited + rest == Chain()
        invariant rest == iter.Remaining()
        invariant hash !in visited
        invariant hashes == Rev(visited)
        decreases iter.remaining
      {
        ghost var at := iter.at;
        var block := iter.Next();
        var blockHash := Blocks.BlockHash(crypto, block);
        if blockHash == hash {
          break;
        }
        RevSnoc(visited, at);
        hashes := [blockHash] + hashes;
        AppendAssoc(visited, [at], iter.Remaining());
        visited := visited + [at];
        rest := iter.Remaining();
      }
      PrefixOfSplit(Chain(), visited, rest, hash);
    }

    /** getUTXOs: the UTXO bucket re-keyed by hex id, the checkpoint left out. */
    method GetUTXOs() returns (all: map<Bytes, seq<UTXO>>)
      ensures all == HexKeyed(utxoIndex.bucket)
    {
      all := HexKeyedCopy(utxoIndex.bucket);
    }

    /** findTransaction: the first transaction with identity `id`, blocks tip first. */
    method FindTransaction(id: Bytes) returns (found: Option<Transaction>)
      ensures found == FindIn(crypto, blocks, Chain(), id)
    {
      var iter := new BlockIterator(this);
      while iter.HasNext()
        invariant iter.Valid() && iter.bc == this
        invariant FindIn(crypto, blocks, iter.Remaining(), id) == FindIn(crypto, blocks, Chain(), id)
        decreases iter.remaining
      {
        ghost var at := iter.at;
        ghost var rest := iter.Remaining();
        var block := iter.Next();
        assert rest[1..] == iter.Remaining();
        var txs := block.transactions;
        var k := 0;
        while k < |txs|
          invariant 0 <= k <= |txs|
          invariant FindInTxs(crypto, txs[k..], id) == FindInTxs(crypto, txs, id)
        {
          if TxHash(crypto, txs[k]) == id {
            return Some(txs[k]);
          }
          assert txs[k..][1..] == txs[k + 1..];
          k := k + 1;
        }
      }
      found := None;
    }

    /**
     * verifyTransaction: a coinbase passes; otherwise every input must name
     * an output listed in utxosMap and carry a signature over the clean copy
     * with that output's script in its own place. The first input that fails
     * ends the check, so only the scripts of inputs reached need 64 bytes.
     */
    method VerifyTransaction(tx: Transaction) returns (ok: bool)
      requires !IsCoinBase(tx) ==> ReachedScriptsLongEnough(crypto, utxosMap, tx)
      ensures ok <==> IsCoinBase(tx) || forall i :: 0 <= i < |tx.inputs| ==> InputAccepted(crypto, utxosMap, tx, i)
    {
      if IsCoinBase(tx) {
        return true;
      }
      var i := 0;
      while i < |tx.inputs|
        invariant 0 <= i <= |tx.inputs|
        invariant forall k :: 0 <= k < i ==> InputAccepted(crypto, utxosMap, tx, k)
      {
        var verified := VerifyInput(crypto, utxosMap, tx, i);
        if !verified {
          assert !InputAccepted(crypto, utxosMap, tx, i);
          return false;
        }
        i := i + 1;
      }
      ok := true;
    }

    /** ReOrgBlockchain: the blocks above `hash` deleted, the tip set to `hash` and its height. */
    method ReOrgBlockchain(hash: Bytes)
      requires Valid() && hash in blocks
      modifies this
      ensures Valid()
      ensures blocks == Without(old(blocks), Above(old(blocks), old(top), hash))
      ensures top == hash && height == old(blocks)[hash].header.height
      ensures utxoIndex == old(utxoIndex) && utxosMap == old(utxosMap)
    {
      var hashes := GetBlockHashesAfterHash(hash);
      var blk := GetBlockByHash(hash);
      blocks := DeleteBlocks(blocks, hashes);
      top := hash;
      height := blk.value.header.height;
    }

    /** ReOrgUTXO: the checkpoint deleted and the UTXO index rebuilt by a full scan; utxosMap is not refreshed. */
    method ReOrgUTXO()
      requires Valid()
      modifies this
      ensures Valid()
      ensures (utxoIndex, true) == ReIndexed(crypto, blocks, top, old(utxoIndex).(top := None))
      ensures utxoIndex.top == Some(top)
      ensures blocks == old(blocks) && top == old(top) && height == old(height) && utxosMap == old(utxosMap)
    {
      utxoIndex := utxoIndex.(top := None);
      var _ := ReIndexUTXO();
    }

    /** ReOrg: ReOrgBlockchain onto `hash`, then ReOrgUTXO. */
    method ReOrg(hash: Bytes)
      requires Valid() && hash in blocks
      modifies this
      ensures Valid()
      ensures blocks == Without(old(blocks), Above(old(blocks), old(top), hash))
      ensures top == hash && height == old(blocks)[hash].header.height
      ensures (utxoIndex, true) == ReIndexed(crypto, blocks, top, old(utxoIndex).(top := None))
      ensures utxosMap == old(utxosMap)
    {
      ReOrgBlockchain(hash);
      ReOrgUTXO();
    }
  }

  // ---------------------------------------------------- the iterator

  /**
   * BlockIterator: the current block, and the hash it was looked up under.
   * The walk is given as many steps as there are stored blocks.
   */
  class BlockIterator {
    const bc: BlockChain
    var current: Option<Block>
    var remaining: nat
    ghost var at: Bytes

    ghost predicate Valid()
      reads this, bc
    {
      current == Lookup(bc.blocks, at)
    }

    /** The hashes still to be visited. */
    ghost function Remaining(): seq<Bytes>
      reads this, bc
    {
      Walk(bc.blocks, at, remaining)
    }

    /** NewBlockIterator: positioned on the tip. */
    constructor(bc: BlockChain)
      ensures this.bc == bc && Valid()
      ensures Remaining() == bc.Chain()
    {
      this.bc := bc;
      current := Lookup(bc.blocks, bc.top);
      remaining := |bc.blocks|;
      at := bc.top;
    }

    /** hasNext: a current block, within the step budget. */
    function HasNext(): (r: bool)
      reads this, bc
      requires Valid()
      ensures r <==> Remaining() != []
    {
      current.Some? && remaining > 0
    }

    /** Next: the current block, and the one stored under its PrevBlock becomes current. */
    method Next() returns (blk: Block)
      requires Valid() && HasNext()
      modifies this
      ensures Valid()
      ensures blk == bc.blocks[old(at)]
      ensures old(Remaining()) == [old(at)] + Remaining()
      ensures remaining < old(remaining)
    {
      blk := current.value;
      at := blk.header.prevBlock;
      current := Lookup(bc.blocks, blk.header.prevBlock);
      remaining := remaining - 1;
    }
  }
}
