/**
 * The UTXO index of blockchain.go as values: the bucket from raw
 * transaction id to its unspent outputs with the checkpoint ("top") of
 * the last indexed block, the incremental pass of ReIndexUTXO, the full
 * rescan scanUTXOs, and getUTXOs' hex-keyed view.
 */
module Utxos {
  import opened Results
  import opened Bytes
  import opened Types
  import Hex
  import opened TxInput
  import opened Transactions
  import Chains
  import Blocks

  /** The UTXO bucket without its "top" entry: raw transaction id to unspent outputs. */
  type Bucket = map<Bytes, seq<UTXO>>

  /** The bucket and its checkpoint, the hash of the block indexed last (absent before the first scan). */
  datatype UtxoIndex = UtxoIndex(bucket: Bucket, top: Option<Bytes>)

  /** The transaction id as the UTXO records and the hex-keyed maps carry it. */
  function TxId(c: Crypto, tx: Transaction): (r: Bytes)
    ensures |r| == 64 && Hex.HexStrToBytes(r) == TxHash(c, tx)
  {
    Hex.HexStrToBytesOfEncoding(TxHash(c, tx));
    Hex.EncodeToString(TxHash(c, tx))
  }

  function Get<V>(m: map<Bytes, seq<V>>, k: Bytes): seq<V>
  {
    if k in m then m[k] else []
  }

  // ------------------------------------------------------- incremental pass

  /** The entries whose Index differs from `index`, in their order. */
  function FilterIndex(utxos: seq<UTXO>, index: nat): (r: seq<UTXO>)
    ensures |r| <= |utxos|
    ensures forall u :: u in r ==> u in utxos && u.index != index
    ensures forall u :: u in utxos && u.index != index ==> u in r
  {
    if utxos == [] then []
    else
      var init := utxos[..|utxos| - 1];
      var u := utxos[|utxos| - 1];
      assert utxos == init + [u];
      if u.index != index then FilterIndex(init, index) + [u] else FilterIndex(init, index)
  }

  /** Every entry with another Index is kept as often as it occurs, and none with this Index. */
  lemma {:induction false} FilterIndexCount(utxos: seq<UTXO>, index: nat, u: UTXO)
    ensures multiset(FilterIndex(utxos, index))[u] == if u.index != index then multiset(utxos)[u] else 0
  {
    if utxos != [] {
      var init := utxos[..|utxos| - 1];
      FilterIndexCount(init, index, u);
      assert utxos == init + [utxos[|utxos| - 1]];
    }
  }

  /** One entry is kept exactly when its Index differs. */
  lemma FilterIndexSingle(u: UTXO, index: nat)
    ensures FilterIndex([u], index) == if u.index != index then [u] else []
  {
    assert [u][..0] == [];
  }

  /** Filtering a concatenation filters each part: the kept entries keep their order. */
  lemma {:induction false} FilterIndexAppend(a: seq<UTXO>, b: seq<UTXO>, index: nat)
    ensures FilterIndex(a + b, index) == FilterIndex(a, index) + FilterIndex(b, index)
  {
    if b == [] {
      assert a + b == a;
    } else {
      var b', u := b[..|b| - 1], b[|b| - 1];
      FilterIndexAppend(a, b', index);
      assert (a + b)[..|a + b| - 1] == a + b';
      assert (a + b)[|a + b| - 1] == u;
      if u.index != index {
        assert FilterIndex(b, index) == FilterIndex(b', index) + [u];
        AppendAssoc(FilterIndex(a, index), FilterIndex(b', index), [u]);
      }
    }
  }

  /**
   * One input of the incremental pass: a coinbase-shaped input spends
   * nothing; any other rewrites the referenced list without the entries at
   * its index, and fails, changing nothing, when that list is absent.
   */
  function SpendOne(bucket: Bucket, input: TxIn): (r: (Bucket, bool))
    ensures !r.1 <==> !IsCoinbaseTxIn(input) && input.prevTxHash !in bucket
    ensures !r.1 || IsCoinbaseTxIn(input) ==> r.0 == bucket
    ensures r.1 && !IsCoinbaseTxIn(input) ==>
              r.0.Keys == bucket.Keys &&
              r.0[input.prevTxHash] == FilterIndex(bucket[input.prevTxHash], input.prevTxOutIndex) &&
              forall t :: t in bucket && t != input.prevTxHash ==> r.0[t] == bucket[t]
  {
    if IsCoinbaseTxIn(input) then (bucket, true)
    else if input.prevTxHash !in bucket then (bucket, false)
    else (bucket[input.prevTxHash := FilterIndex(bucket[input.prevTxHash], input.prevTxOutIndex)], true)
  }

  /** The inputs in order, stopping at the first failure with the bucket as far as it got. */
  function SpendInputs(bucket: Bucket, inputs: seq<TxIn>): (Bucket, bool)
  {
    if inputs == [] then (bucket, true)
    else
      var p := SpendInputs(bucket, inputs[..|inputs| - 1]);
      if !p.1 then p else SpendOne(p.0, inputs[|inputs| - 1])
  }

  lemma {:induction false} SpendInputsStops(bucket: Bucket, inputs: seq<TxIn>, m: nat)
    requires m <= |inputs| && !SpendInputs(bucket, inputs[..m]).1
    ensures SpendInputs(bucket, inputs) == SpendInputs(bucket, inputs[..m])
  {
    if m < |inputs| {
      var init := inputs[..|inputs| - 1];
      assert init[..m] == inputs[..m];
      SpendInputsStops(bucket, init, m);
    } else {
      assert inputs[..m] == inputs;
    }
  }

  /** Lists of transactions no input refers to keep their entries. */
  lemma {:induction false} SpendInputsOthers(bucket: Bucket, inputs: seq<TxIn>, t: Bytes)
    requires forall i :: 0 <= i < |inputs| ==> inputs[i].prevTxHash != t
    ensures var r := SpendInputs(bucket, inputs).0;
            (t in r <==> t in bucket) && (t in bucket ==> r[t] == bucket[t])
  {
    if inputs != [] {
      SpendInputsOthers(bucket, inputs[..|inputs| - 1], t);
    }
  }

  /** One record per output, at its position, carrying the transaction's hex id. */
  function FreshUtxos(c: Crypto, tx: Transaction): (r: seq<UTXO>)
    ensures |r| == |tx.outputs|
    ensures forall i :: 0 <= i < |r| ==> r[i].unspent == tx.outputs[i] && r[i].index == i && r[i].txid == TxId(c, tx)
  {
    seq(|tx.outputs|, i requires 0 <= i < |tx.outputs| => UTXO(tx.outputs[i], i, TxId(c, tx)))
  }

  /**
   * One transaction of the incremental pass: its inputs, then its own list
   * written as one record per output, then the checkpoint moved to the block.
   */
  function ApplyTx(c: Crypto, ix: UtxoIndex, tx: Transaction, blockHash: Bytes): (r: (UtxoIndex, bool))
    ensures r.1 == SpendInputs(ix.bucket, tx.inputs).1
    ensures !r.1 ==> r.0 == ix.(bucket := SpendInputs(ix.bucket, tx.inputs).0)
    ensures r.1 ==> r.0.top == Some(blockHash) && TxHash(c, tx) in r.0.bucket &&
                    r.0.bucket[TxHash(c, tx)] == FreshUtxos(c, tx)
  {
    var s := SpendInputs(ix.bucket, tx.inputs);
    if !s.1 then (ix.(bucket := s.0), false)
    else (UtxoIndex(s.0[TxHash(c, tx) := FreshUtxos(c, tx)], Some(blockHash)), true)
  }

  function ApplyTxs(c: Crypto, ix: UtxoIndex, txs: seq<Transaction>, blockHash: Bytes): (UtxoIndex, bool)
  {
    if txs == [] then (ix, true)
    else
      var p := ApplyTxs(c, ix, txs[..|txs| - 1], blockHash);
      if !p.1 then p else ApplyTx(c, p.0, txs[|txs| - 1], blockHash)
  }

  lemma {:induction false} ApplyTxsStops(c: Crypto, ix: UtxoIndex, txs: seq<Transaction>, blockHash: Bytes, m: nat)
    requires m <= |txs| && !ApplyTxs(c, ix, txs[..m], blockHash).1
    ensures ApplyTxs(c, ix, txs, blockHash) == ApplyTxs(c, ix, txs[..m], blockHash)
  {
    if m < |txs| {
      var init := txs[..|txs| - 1];
      assert init[..m] == txs[..m];
      ApplyTxsStops(c, ix, init, blockHash, m);
    } else {
      assert txs[..m] == txs;
    }
  }

  /** The blocks of `hashes` in order, each one's transactions in order, stopping at the first failure. */
  function ApplyBlocks(c: Crypto, blocks: Chains.Store, ix: UtxoIndex, hashes: seq<Bytes>): (UtxoIndex, bool)
    requires forall i :: 0 <= i < |hashes| ==> hashes[i] in blocks
  {
    if hashes == [] then (ix, true)
    else
      var p := ApplyBlocks(c, blocks, ix, hashes[..|hashes| - 1]);
      var b := blocks[hashes[|hashes| - 1]];
      if !p.1 then p else ApplyTxs(c, p.0, b.transactions, Blocks.BlockHash(c, b))
  }

  lemma {:induction false} ApplyBlocksStops(c: Crypto, blocks: Chains.Store, ix: UtxoIndex, hashes: seq<Bytes>, m: nat)
    requires forall i :: 0 <= i < |hashes| ==> hashes[i] in blocks
    requires m <= |hashes| && !ApplyBlocks(c, blocks, ix, hashes[..m]).1
    ensures ApplyBlocks(c, blocks, ix, hashes) == ApplyBlocks(c, blocks, ix, hashes[..m])
  {
    if m < |hashes| {
      var init := hashes[..|hashes| - 1];
      assert init[..m] == hashes[..m];
      ApplyBlocksStops(c, blocks, ix, init, m);
    } else {
      assert hashes[..m] == hashes;
    }
  }

  /** A pass over a block with transactions that succeeds leaves the checkpoint at that block's hash. */
  lemma ApplyTxsCheckpoint(c: Crypto, ix: UtxoIndex, txs: seq<Transaction>, blockHash: Bytes)
    requires txs != [] && ApplyTxs(c, ix, txs, blockHash).1
    ensures ApplyTxs(c, ix, txs, blockHash).0.top == Some(blockHash)
  {
  }

  /** The blocks strictly above `h` on the chain from `top`, lowest first (getBlockHashesAfterHash). */
  function Above(blocks: Chains.Store, top: Bytes, h: Bytes): (r: seq<Bytes>)
    ensures forall i :: 0 <= i < |r| ==> r[i] in blocks
  {
    var w := Chains.Walk(blocks, top, |blocks|);
    var p := Chains.Prefix(w, h);
    assert forall i :: 0 <= i < |p| ==> p[i] == w[i];
    Chains.Rev(p)
  }

  // ------------------------------------------------------------ full scan

  /** The running maps of scanUTXOs: hex txid to kept outputs, and hex txid to recorded spends. */
  datatype ScanState = ScanState(utxos: map<Bytes, seq<UTXO>>, spent: map<Bytes, seq<nat>>)

  /** The first n outputs whose position is not among the recorded spends `ids`. */
  function KeptOutputs(outputs: seq<TxOut>, n: nat, ids: seq<nat>, txid: Bytes): (r: seq<UTXO>)
    requires n <= |outputs|
  {
    if n == 0 then []
    else
      var p := KeptOutputs(outputs, n - 1, ids, txid);
      if n - 1 in ids then p else p + [UTXO(outputs[n - 1], n - 1, txid)]
  }

  /**
   * The kept outputs are exactly the records of the first n outputs whose
   * position is not among the spends, each with its own output and position.
   */
  lemma {:induction false} KeptOutputsSpec(outputs: seq<TxOut>, n: nat, ids: seq<nat>, txid: Bytes)
    requires n <= |outputs|
    ensures var r := KeptOutputs(outputs, n, ids, txid);
            (forall k :: 0 <= k < |r| ==>
               r[k].index < n && r[k].index !in ids && r[k] == UTXO(outputs[r[k].index], r[k].index, txid)) &&
            (forall i :: 0 <= i < n && i !in ids ==> UTXO(outputs[i], i, txid) in r)
  {
    if n > 0 {
      KeptOutputsSpec(outputs, n - 1, ids, txid);
    }
  }

  /** One more output: kept when its position is not among the spends. */
  lemma KeptOutputsNext(outputs: seq<TxOut>, n: nat, ids: seq<nat>, txid: Bytes)
    requires n < |outputs|
    ensures KeptOutputs(outputs, n + 1, ids, txid) ==
            if n in ids then KeptOutputs(outputs, n, ids, txid)
            else KeptOutputs(outputs, n, ids, txid) + [UTXO(outputs[n], n, txid)]
  {
  }

  /** The kept outputs appended under txid; an empty list leaves the map as it was. */
  function AppendKept(utxos: map<Bytes, seq<UTXO>>, txid: Bytes, kept: seq<UTXO>): (r: map<Bytes, seq<UTXO>>)
    ensures forall k :: k in r ==> k in utxos || k == txid
  {
    if kept == [] then utxos else utxos[txid := Get(utxos, txid) + kept]
  }

  /** Appending one more kept output is one more append under txid. */
  lemma AppendKeptSnoc(utxos: map<Bytes, seq<UTXO>>, txid: Bytes, kept: seq<UTXO>, u: UTXO)
    ensures var cur := AppendKept(utxos, txid, kept);
            AppendKept(utxos, txid, kept + [u]) == cur[txid := Get(cur, txid) + [u]]
  {
    var cur := AppendKept(utxos, txid, kept);
    assert Get(cur, txid) == Get(utxos, txid) + kept;
    assert Get(utxos, txid) + kept + [u] == Get(utxos, txid) + (kept + [u]);
  }

  /** The spends of the first n inputs: each input's position recorded under its hex previous id. */
  function AddSpends(spent: map<Bytes, seq<nat>>, inputs: seq<TxIn>, n: nat): map<Bytes, seq<nat>>
    requires n <= |inputs|
  {
    if n == 0 then spent
    else
      var s := AddSpends(spent, inputs, n - 1);
      var key := Hex.EncodeToString(inputs[n - 1].prevTxHash);
      s[key := Get(s, key) + [n - 1]]
  }

  /** Keys that are hex of 32-byte ids: HexStrToBytes turns them back into those ids. */
  predicate TxIdKeyed<V>(m: map<Bytes, V>)
  {
    forall k :: k in m ==> |Hex.HexStrToBytes(k)| == 32 && Hex.EncodeToString(Hex.HexStrToBytes(k)) == k
  }

  /** One transaction of the scan: its unspent outputs first, then (unless coinbase) its spends. */
  function ScanTx(c: Crypto, st: ScanState, tx: Transaction): (r: ScanState)
    ensures TxIdKeyed(st.utxos) ==> TxIdKeyed(r.utxos)
  {
    var txid := TxId(c, tx);
    Hex.HexStrToBytesOfEncoding(TxHash(c, tx));
    var kept := KeptOutputs(tx.outputs, |tx.outputs|, Get(st.spent, txid), txid);
    var utxos := AppendKept(st.utxos, txid, kept);
    var spent := if IsCoinBase(tx) then st.spent else AddSpends(st.spent, tx.inputs, |tx.inputs|);
    ScanState(utxos, spent)
  }

  function ScanTxs(c: Crypto, st: ScanState, txs: seq<Transaction>): (r: ScanState)
    ensures TxIdKeyed(st.utxos) ==> TxIdKeyed(r.utxos)
  {
    if txs == [] then st else ScanTx(c, ScanTxs(c, st, txs[..|txs| - 1]), txs[|txs| - 1])
  }

  function ScanBlocks(c: Crypto, blocks: Chains.Store, st: ScanState, hashes: seq<Bytes>): (r: ScanState)
    requires forall i :: 0 <= i < |hashes| ==> hashes[i] in blocks
    ensures TxIdKeyed(st.utxos) ==> TxIdKeyed(r.utxos)
  {
    if hashes == [] then st
    else ScanTxs(c, ScanBlocks(c, blocks, st, hashes[..|hashes| - 1]), blocks[hashes[|hashes| - 1]].transactions)
  }

  /** One more block at the end of the walk scans its transactions after the earlier ones. */
  lemma ScanBlocksStep(c: Crypto, blocks: Chains.Store, st: ScanState, hashes: seq<Bytes>, h: Bytes)
    requires forall i :: 0 <= i < |hashes| ==> hashes[i] in blocks
    requires h in blocks
    ensures forall i :: 0 <= i < |hashes + [h]| ==> (hashes + [h])[i] in blocks
    ensures ScanBlocks(c, blocks, st, hashes + [h]) == ScanTxs(c, ScanBlocks(c, blocks, st, hashes), blocks[h].transactions)
  {
    assert (hashes + [h])[..|hashes|] == hashes;
  }

  /** scanUTXOs: the scan over the chain from the tip, newest block first. */
  function Scan(c: Crypto, blocks: Chains.Store, top: Bytes): (r: map<Bytes, seq<UTXO>>)
    ensures TxIdKeyed(r)
  {
    ScanBlocks(c, blocks, ScanState(map[], map[]), Chains.Walk(blocks, top, |blocks|)).utxos
  }

  /** Recording the spends of a single input into no spends at all. */
  lemma AddOneSpend(inputs: seq<TxIn>)
    requires |inputs| == 1
    ensures AddSpends(map[], inputs, 1) == map[Hex.EncodeToString(inputs[0].prevTxHash) := [0]]
  {
    var key := Hex.EncodeToString(inputs[0].prevTxHash);
    var none: map<Bytes, seq<nat>> := map[];
    assert AddSpends(none, inputs, 0) == none;
    assert Get(none, key) + [0] == [0];
  }

  /** A scan of one non-coinbase transaction with one input records position 0 under the id it spends. */
  lemma ScanOneInput(c: Crypto, tx: Transaction)
    requires |tx.inputs| == 1 && !IsCoinbaseTxIn(tx.inputs[0])
    ensures var st := ScanTx(c, ScanState(map[], map[]), tx);
            st.spent == map[Hex.EncodeToString(tx.inputs[0].prevTxHash) := [0]] &&
            forall k :: k in st.utxos ==> k == TxId(c, tx)
  {
    assert !IsCoinBase(tx);
    AddOneSpend(tx.inputs);
  }

  /**
   * The scan records a spend under the spending input's position, not under
   * the output index it names: a later-scanned (older) transaction with two
   * outputs, whose second output is spent by the first input of a newer one,
   * keeps its second output and loses its first.
   */
  lemma ScanSpendsByPosition(c: Crypto, older: Transaction, newer: Transaction)
    requires |older.outputs| == 2 && |newer.inputs| == 1
    requires newer.inputs[0].prevTxHash == TxHash(c, older) && newer.inputs[0].prevTxOutIndex == 1
    requires TxHash(c, older) != TxHash(c, newer)
    ensures var st := ScanTx(c, ScanTx(c, ScanState(map[], map[]), newer), older);
            TxId(c, older) in st.utxos && st.utxos[TxId(c, older)] == [UTXO(older.outputs[1], 1, TxId(c, older))]
  {
    var idOld := TxId(c, older);
    var st1 := ScanTx(c, ScanState(map[], map[]), newer);
    NewerScanned(c, older, newer);
    KeptFirstSpent(older.outputs, idOld);
    ScanTxUtxos(c, st1, older);
  }

  /** After scanning only the newer transaction, the older id has position 0 spent and no outputs yet. */
  lemma NewerScanned(c: Crypto, older: Transaction, newer: Transaction)
    requires |newer.inputs| == 1
    requires newer.inputs[0].prevTxHash == TxHash(c, older) && newer.inputs[0].prevTxOutIndex == 1
    requires TxHash(c, older) != TxHash(c, newer)
    ensures var st1 := ScanTx(c, ScanState(map[], map[]), newer);
            Get(st1.spent, TxId(c, older)) == [0] && TxId(c, older) !in st1.utxos
  {
    assert TxId(c, older) != TxId(c, newer);
    assert Hex.EncodeToString(newer.inputs[0].prevTxHash) == TxId(c, older);
    ScanOneInput(c, newer);
  }

  /** With position 0 spent, only the second of two outputs is kept. */
  lemma KeptFirstSpent(outputs: seq<TxOut>, txid: Bytes)
    requires |outputs| == 2
    ensures KeptOutputs(outputs, 2, [0], txid) == [UTXO(outputs[1], 1, txid)]
  {
    assert KeptOutputs(outputs, 1, [0], txid) == [];
  }

  /** The unspent-output side of one scanned transaction: its kept outputs appended under its id. */
  lemma ScanTxUtxos(c: Crypto, st: ScanState, tx: Transaction)
    ensures ScanTx(c, st, tx).utxos ==
            AppendKept(st.utxos, TxId(c, tx), KeptOutputs(tx.outputs, |tx.outputs|, Get(st.spent, TxId(c, tx)), TxId(c, tx)))
  {
  }

  /** The bucket entries a full reindex writes: each hex id turned back into the raw id. */
  function RawKeyed(m: map<Bytes, seq<UTXO>>): (r: Bucket)
    requires TxIdKeyed(m)
    ensures forall t :: t in r ==> |t| == 32
  {
    map t | t in (set k | k in m :: Hex.HexStrToBytes(k)) :: m[Hex.EncodeToString(t)]
  }

  lemma MapsEqual<K, V>(l: map<K, V>, r: map<K, V>)
    requires forall t :: (t in l <==> t in r) && (t in l ==> l[t] == r[t])
    ensures l == r
  {
  }

  /** Adding one more hex-keyed entry keeps the keys hex of 32-byte ids. */
  lemma TxIdKeyedUpdate(done: map<Bytes, seq<UTXO>>, k: Bytes, v: seq<UTXO>)
    requires TxIdKeyed(done) && TxIdKeyed(map[k := v])
    ensures TxIdKeyed(done[k := v])
  {
    assert k in map[k := v];
  }

  /** A raw id is written by RawKeyed exactly when its hex is a key, with that key's list. */
  lemma RawKeyedAt(m: map<Bytes, seq<UTXO>>, t: Bytes)
    requires TxIdKeyed(m)
    ensures t in RawKeyed(m) <==> Hex.EncodeToString(t) in m
    ensures t in RawKeyed(m) ==> RawKeyed(m)[t] == m[Hex.EncodeToString(t)]
  {
    var e := Hex.EncodeToString(t);
    Hex.HexStrToBytesOfEncoding(t);
    if e in m {
      assert Hex.HexStrToBytes(e) in RawKeyed(m);
    }
    if t in RawKeyed(m) {
      var k :| k in m && Hex.HexStrToBytes(k) == t;
      assert e == k;
    }
  }

  /** Pointwise: writing X over b0 agrees at t with writing Y over b0 and then v at key. */
  lemma UnionUpdateAt(b0: Bucket, x: Bucket, y: Bucket, key: Bytes, v: seq<UTXO>, t: Bytes)
    requires t == key ==> t in x && x[t] == v
    requires t != key ==> (t in x <==> t in y) && (t in x ==> x[t] == y[t])
    ensures var l := b0 + x;
            var r := (b0 + y)[key := v];
            (t in l <==> t in r) && (t in l ==> l[t] == r[t])
  {
  }

  /** RawKeyedStep at one raw id t. */
  lemma RawKeyedStepAt(b0: Bucket, done: map<Bytes, seq<UTXO>>, k: Bytes, v: seq<UTXO>, t: Bytes)
    requires TxIdKeyed(done) && TxIdKeyed(done[k := v]) && k in done[k := v]
    ensures var l := b0 + RawKeyed(done[k := v]);
            var r := (b0 + RawKeyed(done))[Hex.HexStrToBytes(k) := v];
            (t in l <==> t in r) && (t in l ==> l[t] == r[t])
  {
    var m := done[k := v];
    RawKeyedAt(m, t);
    RawKeyedAt(done, t);
    Hex.HexStrToBytesOfEncoding(t);
    if t == Hex.HexStrToBytes(k) {
      assert Hex.EncodeToString(t) == k;
    } else {
      assert Hex.EncodeToString(t) != k;
    }
    UnionUpdateAt(b0, RawKeyed(m), RawKeyed(done), Hex.HexStrToBytes(k), v, t);
  }

  /** Writing one more scanned list into the bucket: the reindex loop's step. */
  lemma RawKeyedStep(b0: Bucket, done: map<Bytes, seq<UTXO>>, k: Bytes, v: seq<UTXO>)
    requires TxIdKeyed(done) && TxIdKeyed(map[k := v])
    ensures TxIdKeyed(done[k := v])
    ensures b0 + RawKeyed(done[k := v]) == (b0 + RawKeyed(done))[Hex.HexStrToBytes(k) := v]
  {
    TxIdKeyedUpdate(done, k, v);
    var l := b0 + RawKeyed(done[k := v]);
    var r := (b0 + RawKeyed(done))[Hex.HexStrToBytes(k) := v];
    forall t ensures (t in l <==> t in r) && (t in l ==> l[t] == r[t]) {
      RawKeyedStepAt(b0, done, k, v, t);
    }
    MapsEqual(l, r);
  }

  /** getUTXOs: the bucket keyed by hex id instead of raw id. */
  function HexKeyed(bucket: Bucket): (r: map<Bytes, seq<UTXO>>)
    ensures forall k :: k in r ==> |k| % 2 == 0
  {
    map k | k in (set t | t in bucket :: Hex.EncodeToString(t)) && Hex.HexStrToBytes(k) in bucket :: bucket[Hex.HexStrToBytes(k)]
  }

  /** A hex key is in HexKeyed exactly when it is the encoding of a stored raw id, with that id's list. */
  lemma HexKeyedAt(bucket: Bucket, k: Bytes)
    ensures k in HexKeyed(bucket) <==> Hex.HexStrToBytes(k) in bucket && Hex.EncodeToString(Hex.HexStrToBytes(k)) == k
    ensures k in HexKeyed(bucket) ==> HexKeyed(bucket)[k] == bucket[Hex.HexStrToBytes(k)]
  {
    var h := Hex.HexStrToBytes(k);
    if h in bucket && Hex.EncodeToString(h) == k {
      assert Hex.EncodeToString(h) in HexKeyed(bucket);
    }
    if k in HexKeyed(bucket) {
      var t :| t in bucket && Hex.EncodeToString(t) == k && h in bucket;
      Hex.HexStrToBytesOfEncoding(t);
      assert h == t;
    }
  }

  /** HexKeyedStep at one hex key k. */
  lemma HexKeyedStepAt(done: Bucket, t: Bytes, v: seq<UTXO>, k: Bytes)
    requires t !in done
    ensures var l := HexKeyed(done[t := v]);
            var r := HexKeyed(done)[Hex.EncodeToString(t) := v];
            (k in l <==> k in r) && (k in l ==> l[k] == r[k])
  {
    if k == Hex.EncodeToString(t) {
      HexKeyedStepNew(done, t, v);
    } else {
      HexKeyedStepOther(done, t, v, k);
    }
  }

  /** The new raw id's hex key holds the new list. */
  lemma HexKeyedStepNew(done: Bucket, t: Bytes, v: seq<UTXO>)
    ensures var k := Hex.EncodeToString(t);
            k in HexKeyed(done[t := v]) && HexKeyed(done[t := v])[k] == v
  {
    Hex.HexStrToBytesOfEncoding(t);
    HexKeyedAt(done[t := v], Hex.EncodeToString(t));
  }

  /** Every other hex key is unaffected by the new entry. */
  lemma HexKeyedStepOther(done: Bucket, t: Bytes, v: seq<UTXO>, k: Bytes)
    requires t !in done && k != Hex.EncodeToString(t)
    ensures var l := HexKeyed(done[t := v]);
            (k in l <==> k in HexKeyed(done)) && (k in l ==> l[k] == HexKeyed(done)[k])
  {
    var h := Hex.HexStrToBytes(k);
    HexKeyedAt(done[t := v], k);
    HexKeyedAt(done, k);
    if h == t {
      assert k !in HexKeyed(done[t := v]) && k !in HexKeyed(done);
    }
  }

  /** Adding one more bucket entry to the hex-keyed view: getUTXOs' loop step. */
  lemma HexKeyedStep(done: Bucket, t: Bytes, v: seq<UTXO>)
    requires t !in done
    ensures Hex.EncodeToString(t) !in HexKeyed(done)
    ensures HexKeyed(done[t := v]) == HexKeyed(done)[Hex.EncodeToString(t) := v]
  {
    Hex.HexStrToBytesOfEncoding(t);
    HexKeyedAt(done, Hex.EncodeToString(t));
    var l := HexKeyed(done[t := v]);
    var r := HexKeyed(done)[Hex.EncodeToString(t) := v];
    forall k ensures (k in l <==> k in r) && (k in l ==> l[k] == r[k]) {
      HexKeyedStepAt(done, t, v, k);
    }
    MapsEqual(l, r);
  }

  /** The entries of m whose keys are outside `pending`: what a loop over m's keys has handled. */
  function Outside<V>(m: map<Bytes, V>, pending: set<Bytes>): (r: map<Bytes, V>)
    ensures forall k :: k in r <==> k in m && k !in pending
    ensures forall k :: k in r ==> r[k] == m[k]
    ensures TxIdKeyed(m) ==> TxIdKeyed(r)
  {
    map k | k in m && k !in pending :: m[k]
  }

  /** Before the loop nothing is handled; after it, everything. */
  lemma OutsideEnds<V>(m: map<Bytes, V>)
    ensures Outside(m, m.Keys) == map[] && Outside(m, {}) == m
  {
    MapsEqual(Outside(m, {}), m);
  }

  /** Handling key k adds its entry to the handled part. */
  lemma OutsideStep<V>(m: map<Bytes, V>, pending: set<Bytes>, k: Bytes)
    requires k in pending && k in m
    ensures Outside(m, pending - {k}) == Outside(m, pending)[k := m[k]]
    ensures |pending - {k}| < |pending|
  {
    MapsEqual(Outside(m, pending - {k}), Outside(m, pending)[k := m[k]]);
  }

  /** Before the write loop nothing of the scan is written. */
  lemma RawKeyedNone(bucket: Bucket)
    ensures var none: map<Bytes, seq<UTXO>> := map[];
            TxIdKeyed(none) && bucket + RawKeyed(none) == bucket
  {
    var none: map<Bytes, seq<UTXO>> := map[];
    assert RawKeyed(none) == map[];
  }

  /** Before getUTXOs' loop the copy is empty. */
  lemma HexKeyedNone()
    ensures HexKeyed(map[]) == map[]
  {
  }

  /** The step of the full reindex's write loop: one more scanned list under its raw id. */
  lemma RawKeyedLoopStep(bucket: Bucket, scanned: map<Bytes, seq<UTXO>>, pending: set<Bytes>, k: Bytes)
    requires TxIdKeyed(scanned) && pending <= scanned.Keys && k in pending
    ensures (bucket + RawKeyed(Outside(scanned, pending)))[Hex.HexStrToBytes(k) := scanned[k]] ==
            bucket + RawKeyed(Outside(scanned, pending - {k}))
    ensures |pending - {k}| < |pending|
  {
    OutsideStep(scanned, pending, k);
    assert TxIdKeyed(map[k := scanned[k]]);
    RawKeyedStep(bucket, Outside(scanned, pending), k, scanned[k]);
  }

  /** Appending to the list of an absent key stores just the appended list. */
  lemma AppendToAbsent<V>(m: map<Bytes, seq<V>>, k: Bytes, v: seq<V>)
    requires k !in m
    ensures m[k := Get(m, k) + v] == m[k := v]
  {
    assert Get(m, k) + v == v;
  }

  /** The step of getUTXOs' loop: one more list appended under the hex of its raw id. */
  lemma HexKeyedLoopStep(bucket: Bucket, pending: set<Bytes>, t: Bytes)
    requires pending <= bucket.Keys && t in pending
    ensures var all := HexKeyed(Outside(bucket, pending));
            all[Hex.EncodeToString(t) := Get(all, Hex.EncodeToString(t)) + bucket[t]] ==
            HexKeyed(Outside(bucket, pending - {t}))
    ensures |pending - {t}| < |pending|
  {
    var done := Outside(bucket, pending);
    OutsideStep(bucket, pending, t);
    HexKeyedStep(done, t, bucket[t]);
    AppendToAbsent(HexKeyed(done), Hex.EncodeToString(t), bucket[t]);
  }

  // ------------------------------------------------------------ reindex

  /**
   * ReIndexUTXO: without a checkpoint, a full scan written over the bucket
   * and the checkpoint set to the tip; at the tip, nothing; otherwise the
   * incremental pass over the blocks above the checkpoint.
   */
  function ReIndexed(c: Crypto, blocks: Chains.Store, top: Bytes, ix: UtxoIndex): (r: (UtxoIndex, bool))
  {
    if ix.top.None? then (UtxoIndex(ix.bucket + RawKeyed(Scan(c, blocks, top)), Some(top)), true)
    else if ix.top.value == top then (ix, true)
    else ApplyBlocks(c, blocks, ix, Above(blocks, top, ix.top.value))
  }

  lemma ReIndexAtTip(c: Crypto, blocks: Chains.Store, top: Bytes, ix: UtxoIndex)
    requires ix.top == Some(top)
    ensures ReIndexed(c, blocks, top, ix) == (ix, true)
  {
  }

  /** Without a checkpoint the reindex succeeds, sets the checkpoint to the tip and keeps every other list. */
  lemma ReIndexRescan(c: Crypto, blocks: Chains.Store, top: Bytes, bucket: Bucket)
    ensures var r := ReIndexed(c, blocks, top, UtxoIndex(bucket, None));
            r.1 && r.0.top == Some(top) &&
            (forall k :: k in Scan(c, blocks, top) ==>
               Hex.HexStrToBytes(k) in r.0.bucket && r.0.bucket[Hex.HexStrToBytes(k)] == Scan(c, blocks, top)[k]) &&
            (forall t :: t in bucket && Hex.EncodeToString(t) !in Scan(c, blocks, top) ==> r.0.bucket[t] == bucket[t])
  {
    var s := Scan(c, blocks, top);
    var written := bucket + RawKeyed(s);
    forall k | k in s ensures Hex.HexStrToBytes(k) in written && written[Hex.HexStrToBytes(k)] == s[k] {
      RawKeyedAt(s, Hex.HexStrToBytes(k));
    }
    forall t | t in bucket && Hex.EncodeToString(t) !in s ensures written[t] == bucket[t] {
      RawKeyedAt(s, t);
    }
  }
}
