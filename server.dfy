/**
 * server.go: the per-peer bookkeeping (handshake state and announced
 * heights), the reply each handler sends, the getblocks divergence index,
 * the inv dispatch into reorganisation and getdata, the handshake gate on
 * block batches, and the wallet's unspent outputs, balance and coin
 * selection. Every send is recorded with whether the peer could be dialled.
 */
module Node {
  import opened Results
  import opened Bytes
  import opened Types
  import Hex
  import opened TxOutput
  import Chains
  import Utxos
  import Ledger
  import HashCodec
  import opened Wallets

  const BlockchainVersion: int := 1
  /** The inventory type "block", as bytes. */
  const BlockType: Bytes := [0x62, 0x6c, 0x6f, 0x63, 0x6b]
  /** The inventory type "tx", as bytes. */
  const TxType: Bytes := [0x74, 0x78]

  // ------------------------------------------------------------ messages

  datatype Version = Version(version: int, addrFrom: Bytes, startHeight: int)
  datatype Verack = Verack(addrFrom: Bytes)
  datatype Getblocks = Getblocks(addrFrom: Bytes, blockHashes: seq<Bytes>)
  datatype Inv = Inv(addrFrom: Bytes, kind: Bytes, hashes: seq<Bytes>)
  datatype Getdata = Getdata(addrFrom: Bytes, kind: Bytes, hashes: seq<Bytes>)
  /** A block message with its blocks already decoded. */
  datatype BlockBatch = BlockBatch(addrFrom: Bytes, blocks: seq<Block>)

  /** What the handlers send; a getdata built for an unknown inventory type carries a null payload. */
  datatype Message =
    | VersionMessage(version: Version)
    | VerackMessage(verack: Verack)
    | GetblocksMessage(getblocks: Getblocks)
    | InvMessage(inv: Inv)
    | GetdataMessage(getdata: Option<Getdata>)

  /** One send: the peer, the message, and whether the peer could be dialled. */
  datatype Sent = Sent(to: Bytes, message: Message, delivered: bool)

  /**
   * Why createTransaction produced no transaction. BadAddress stands for the
   * panic of AddressToPubkeyHash on an address it reaches that decodes to
   * fewer than 5 bytes.
   */
  datatype CreateError = NotEnoughCoin | BadAddress | SigningFailed

  // ---------------------------------------------------------- peer maps

  /** The handshake state of each peer (absent; false: sent version; true: acknowledged) and its announced height. */
  datatype Peers = Peers(connectMap: map<Bytes, bool>, blockMap: map<Bytes, int>)

  /**
   * The peer maps after a send to addr: a peer that cannot be dialled is
   * forgotten in both maps; otherwise its handshake state becomes `mark`
   * when the send sets one (version: false, verack: true).
   */
  function AfterSend(p: Peers, addr: Bytes, delivered: bool, mark: Option<bool>): Peers
  {
    if !delivered then Peers(p.connectMap - {addr}, p.blockMap - {addr})
    else if mark.Some? then p.(connectMap := p.connectMap[addr := mark.value])
    else p
  }

  /** A peer that was sent version and has not been acknowledged. */
  predicate Unacknowledged(p: Peers, addr: Bytes)
  {
    addr in p.connectMap && !p.connectMap[addr]
  }

  /** A peer whose handshake is complete; a missing entry reads as false. */
  predicate Acknowledged(p: Peers, addr: Bytes)
  {
    addr in p.connectMap && p.connectMap[addr]
  }

  /** handleVersion on the peer maps: for version 1, the announced height recorded, then verack to an unacknowledged peer and version to any other. */
  function OnVersion(p: Peers, msg: Version, delivered: bool): Peers
  {
    if msg.version != BlockchainVersion then p
    else
      var marked := p.(blockMap := p.blockMap[msg.addrFrom := msg.startHeight]);
      AfterSend(marked, msg.addrFrom, delivered, Some(Unacknowledged(p, msg.addrFrom)))
  }

  /** A new peer sending version twice, both replies delivered, ends acknowledged with its latest height. */
  lemma HandshakeFromNewPeer(p: Peers, from: Bytes, h1: int, h2: int)
    requires from !in p.connectMap
    ensures var p1 := OnVersion(p, Version(BlockchainVersion, from, h1), true);
            var p2 := OnVersion(p1, Version(BlockchainVersion, from, h2), true);
            from in p1.connectMap && !p1.connectMap[from] &&
            Acknowledged(p2, from) && from in p2.blockMap && p2.blockMap[from] == h2
  {
  }

  /** A version message from an acknowledged peer is answered with version and resets it to unacknowledged. */
  lemma AcknowledgedPeerReset(p: Peers, msg: Version)
    requires msg.version == BlockchainVersion && Acknowledged(p, msg.addrFrom)
    ensures Unacknowledged(OnVersion(p, msg, true), msg.addrFrom)
  {
  }

  /** A send to a peer touches only that peer's entries; a failed one removes them. */
  lemma SendTouchesOnlyPeer(p: Peers, addr: Bytes, delivered: bool, mark: Option<bool>, other: Bytes)
    requires other != addr
    ensures var q := AfterSend(p, addr, delivered, mark);
            (other in q.connectMap <==> other in p.connectMap) &&
            (other in q.connectMap ==> q.connectMap[other] == p.connectMap[other]) &&
            (other in q.blockMap <==> other in p.blockMap) &&
            (other in q.blockMap ==> q.blockMap[other] == p.blockMap[other])
    ensures !delivered ==> addr !in AfterSend(p, addr, delivered, mark).connectMap &&
                           addr !in AfterSend(p, addr, delivered, mark).blockMap
  {
  }

  /** blockMap[from] with Go's zero value for a missing peer. */
  function HeightOf(blockMap: map<Bytes, int>, addr: Bytes): int
  {
    if addr in blockMap then blockMap[addr] else 0
  }

  // ----------------------------------------------------------- getblocks

  /**
   * handleGetBlocks' reorgHeight after comparing the first n hashes: it
   * starts at the last index, and each mismatch at i overwrites it with
   * i - 1, or 0 at i = 0.
   */
  function ReorgHeight(hashes: seq<Bytes>, mine: seq<Bytes>, n: nat): int
    requires n <= |hashes| <= |mine|
  {
    if n == 0 then |hashes| - 1
    else if mine[n - 1] != hashes[n - 1] then (if n == 1 then 0 else n - 2)
    else ReorgHeight(hashes, mine, n - 1)
  }

  /** The divergence index is always an index of the peer's list. */
  lemma {:induction false} ReorgHeightInRange(hashes: seq<Bytes>, mine: seq<Bytes>, n: nat)
    requires 1 <= |hashes| <= |mine| && n <= |hashes|
    ensures 0 <= ReorgHeight(hashes, mine, n) < |hashes|
  {
    if n > 0 && mine[n - 1] == hashes[n - 1] {
      ReorgHeightInRange(hashes, mine, n - 1);
    }
  }

  /** With no mismatch among the first n hashes the index is the last one. */
  lemma {:induction false} ReorgHeightNoMismatch(hashes: seq<Bytes>, mine: seq<Bytes>, n: nat)
    requires n <= |hashes| <= |mine|
    requires forall i :: 0 <= i < n ==> mine[i] == hashes[i]
    ensures ReorgHeight(hashes, mine, n) == |hashes| - 1
  {
    if n > 0 {
      ReorgHeightNoMismatch(hashes, mine, n - 1);
    }
  }

  /**
   * The last mismatch wins: the index is the one before the last mismatch
   * among the first n hashes (0 for a mismatch at 0), whatever mismatches
   * come earlier.
   */
  lemma {:induction false} ReorgHeightLastMismatch(hashes: seq<Bytes>, mine: seq<Bytes>, n: nat, m: nat)
    requires n <= |hashes| <= |mine| && m < n && mine[m] != hashes[m]
    requires forall i :: m < i < n ==> mine[i] == hashes[i]
    ensures ReorgHeight(hashes, mine, n) == if m == 0 then 0 else m - 1
  {
    if m < n - 1 {
      ReorgHeightLastMismatch(hashes, mine, n - 1, m);
    }
  }

  /** handleGetBlocks' comparison loop. */
  method DivergenceIndex(hashes: seq<Bytes>, mine: seq<Bytes>) returns (reorgHeight: int)
    requires 1 <= |hashes| <= |mine|
    ensures reorgHeight == ReorgHeight(hashes, mine, |hashes|)
    ensures 0 <= reorgHeight < |hashes|
  {
    reorgHeight := |hashes| - 1;
    for i := 0 to |hashes|
      invariant reorgHeight == ReorgHeight(hashes, mine, i)
    {
      if mine[i] != hashes[i] {
        if i == 0 {
          reorgHeight := 0;
        } else {
          reorgHeight := i - 1;
        }
      }
    }
    ReorgHeightInRange(hashes, mine, |hashes|);
  }

  // ----------------------------------------------------------------- inv

  /** handleInv's getdata: blocks after the first of several hashes, or every hash; no payload for another type. */
  function GetdataFor(node: Bytes, inv: Inv): Option<Getdata>
  {
    if inv.kind == BlockType then Some(Getdata(node, BlockType, if |inv.hashes| > 1 then inv.hashes[1..] else inv.hashes))
    else if inv.kind == TxType then Some(Getdata(node, TxType, inv.hashes))
    else None
  }

  // --------------------------------------------------------------- block

  /** A batch in progress: the chain state so far and how many blocks were accepted. */
  datatype Batch = Batch(state: Ledger.ChainState, accepted: nat)

  /** AddBlock on the next block of a batch; the count grows when it is accepted. */
  function Then(c: Crypto, prev: Batch, block: Block): Batch
  {
    var next := Ledger.AddBlockSpec(c, prev.state, block);
    Batch(next.0, if next.1.None? then prev.accepted + 1 else prev.accepted)
  }

  /** An accepted block sits at the next height and raises the chain's height to it. */
  lemma ThenAccepted(c: Crypto, prev: Batch, block: Block)
    requires Then(c, prev, block).accepted == prev.accepted + 1
    ensures block.header.height == prev.state.height + 1
    ensures Then(c, prev, block).state.height == prev.state.height + 1
  {
    Ledger.AddBlockAccepted(c, prev.state, block);
  }

  /**
   * handleBlock's batch on a chain state: the blocks added in order until
   * the first one AddBlock refuses, and how many were accepted before it.
   * A refused block can still have been stored (when the index update
   * fails), so the state includes its effect.
   */
  function AddBlocks(c: Crypto, st: Ledger.ChainState, blocks: seq<Block>): (r: Batch)
    ensures r.accepted <= |blocks|
  {
    if blocks == [] then Batch(st, 0)
    else
      var prev := AddBlocks(c, st, blocks[..|blocks| - 1]);
      if prev.accepted < |blocks| - 1 then prev
      else Then(c, prev, blocks[|blocks| - 1])
  }

  /**
   * The wallet's list after the first n blocks of a batch were accepted:
   * untouched when none was, and otherwise rescanned on the state after
   * the last accepted block.
   */
  ghost predicate ScannedAfter(c: Crypto, keyPairs: KeyPairs, st0: Ledger.ChainState, utxos0: seq<UTXO>, blocks: seq<Block>,
                               n: nat, utxos: seq<UTXO>, order: seq<Bytes>, keyOrder: seq<Bytes>)
    requires n <= |blocks|
  {
    if n == 0 then utxos == utxos0
    else WalletScanned(c, keyPairs, AddBlocks(c, st0, blocks[..n]).state, utxos, order, keyOrder)
  }

  /** One more block after an unbroken run of accepted ones. */
  lemma AddBlocksStep(c: Crypto, st: Ledger.ChainState, blocks: seq<Block>, i: nat)
    requires i < |blocks| && AddBlocks(c, st, blocks[..i]).accepted == i
    ensures AddBlocks(c, st, blocks[..i + 1]) == Then(c, AddBlocks(c, st, blocks[..i]), blocks[i])
  {
    assert blocks[..i + 1][..i] == blocks[..i];
  }

  /** The batch after block i is accepted into state s. */
  lemma AddBlocksAccepted(c: Crypto, st: Ledger.ChainState, blocks: seq<Block>, i: nat, s: Ledger.ChainState)
    requires i < |blocks| && AddBlocks(c, st, blocks[..i]).accepted == i
    requires Ledger.AddBlockSpec(c, AddBlocks(c, st, blocks[..i]).state, blocks[i]) == (s, None)
    ensures AddBlocks(c, st, blocks[..i + 1]) == Batch(s, i + 1)
  {
    AddBlocksStep(c, st, blocks, i);
  }

  /** The batch when block i is refused, leaving state s: the rest is ignored. */
  lemma AddBlocksRefused(c: Crypto, st: Ledger.ChainState, blocks: seq<Block>, i: nat, s: Ledger.ChainState,
                         err: Option<Ledger.ChainError>)
    requires i < |blocks| && AddBlocks(c, st, blocks[..i]).accepted == i
    requires Ledger.AddBlockSpec(c, AddBlocks(c, st, blocks[..i]).state, blocks[i]) == (s, err) && err.Some?
    ensures AddBlocks(c, st, blocks) == Batch(s, i)
  {
    AddBlocksStep(c, st, blocks, i);
    AddBlocksStops(c, st, blocks, i + 1);
  }

  /** A block after a refusal is ignored. */
  lemma AddBlocksStopped(c: Crypto, st: Ledger.ChainState, blocks: seq<Block>)
    requires blocks != [] && AddBlocks(c, st, blocks[..|blocks| - 1]).accepted < |blocks| - 1
    ensures AddBlocks(c, st, blocks) == AddBlocks(c, st, blocks[..|blocks| - 1])
  {
  }

  /** After a refusal the rest of the batch is ignored. */
  lemma {:induction false} AddBlocksStops(c: Crypto, st: Ledger.ChainState, blocks: seq<Block>, m: nat)
    requires m <= |blocks| && AddBlocks(c, st, blocks[..m]).accepted < m
    ensures AddBlocks(c, st, blocks) == AddBlocks(c, st, blocks[..m])
  {
    if m == |blocks| {
      assert blocks[..m] == blocks;
    } else {
      var init := blocks[..|blocks| - 1];
      assert init[..m] == blocks[..m];
      AddBlocksStops(c, st, init, m);
      AddBlocksStopped(c, st, blocks);
    }
  }

  /** Block i of the list sits at height h + i + 1. */
  predicate ConsecutiveFrom(blocks: seq<Block>, h: int)
  {
    forall i :: 0 <= i < |blocks| ==> blocks[i].header.height == h + i + 1
  }

  lemma ConsecutiveSnoc(blocks: seq<Block>, h: int)
    requires blocks != [] && ConsecutiveFrom(blocks[..|blocks| - 1], h)
    requires blocks[|blocks| - 1].header.height == h + |blocks|
    ensures ConsecutiveFrom(blocks, h)
  {
    var init := blocks[..|blocks| - 1];
    forall i | 0 <= i < |blocks|
      ensures blocks[i].header.height == h + i + 1
    {
      if i < |init| {
        assert blocks[i] == init[i];
      }
    }
  }

  /** A batch accepted in full holds consecutive heights from the next one up, and raises the height by its length. */
  lemma {:induction false} AddBlocksHeights(c: Crypto, st: Ledger.ChainState, blocks: seq<Block>)
    requires AddBlocks(c, st, blocks).accepted == |blocks|
    ensures AddBlocks(c, st, blocks).state.height == st.height + |blocks|
    ensures ConsecutiveFrom(blocks, st.height)
  {
    if blocks != [] {
      var init := blocks[..|blocks| - 1];
      var last := blocks[|blocks| - 1];
      var prev := AddBlocks(c, st, init);
      assert prev.accepted == |init| && AddBlocks(c, st, blocks) == Then(c, prev, last);
      AddBlocksHeights(c, st, init);
      ThenAccepted(c, prev, last);
      ConsecutiveSnoc(blocks, st.height);
    }
  }

  // ------------------------------------------------------- wallet utxos

  /** The entries of `outs` locked to `pubkey`, in order. */
  function MatchOuts(outs: seq<UTXO>, pubkey: Bytes): seq<UTXO>
  {
    if outs == [] then []
    else
      var last := outs[|outs| - 1];
      MatchOuts(outs[..|outs| - 1], pubkey) + (if last.unspent.scriptPubKey == pubkey then [last] else [])
  }

  /** For each wallet hash in turn, the entries of `outs` locked to it. */
  function MatchAny(outs: seq<UTXO>, pubkeys: seq<Bytes>): seq<UTXO>
  {
    if pubkeys == [] then []
    else MatchAny(outs, pubkeys[..|pubkeys| - 1]) + MatchOuts(outs, pubkeys[|pubkeys| - 1])
  }

  /** For each list in the visiting order, its entries locked to a wallet hash. */
  function WalletScan(all: map<Bytes, seq<UTXO>>, order: seq<Bytes>, pubkeys: seq<Bytes>): seq<UTXO>
    requires forall i :: 0 <= i < |order| ==> order[i] in all
  {
    if order == [] then []
    else WalletScan(all, order[..|order| - 1], pubkeys) + MatchAny(all[order[|order| - 1]], pubkeys)
  }

  lemma {:induction false} MatchOutsMember(outs: seq<UTXO>, pubkey: Bytes, u: UTXO)
    ensures u in MatchOuts(outs, pubkey) <==> u in outs && u.unspent.scriptPubKey == pubkey
  {
    if outs != [] {
      var init := outs[..|outs| - 1];
      MatchOutsMember(init, pubkey, u);
      assert outs == init + [outs[|outs| - 1]];
    }
  }

  lemma {:induction false} MatchAnyMember(outs: seq<UTXO>, pubkeys: seq<Bytes>, u: UTXO)
    ensures u in MatchAny(outs, pubkeys) <==> u in outs && u.unspent.scriptPubKey in pubkeys
  {
    if pubkeys != [] {
      var init := pubkeys[..|pubkeys| - 1];
      MatchAnyMember(outs, init, u);
      MatchOutsMember(outs, pubkeys[|pubkeys| - 1], u);
      assert pubkeys == init + [pubkeys[|pubkeys| - 1]];
    }
  }

  /** Some list in the visiting order holds u. */
  predicate ListedIn(all: map<Bytes, seq<UTXO>>, order: seq<Bytes>, u: UTXO)
    requires forall i :: 0 <= i < |order| ==> order[i] in all
  {
    exists i :: 0 <= i < |order| && u in all[order[i]]
  }

  lemma {:induction false} WalletScanMember(all: map<Bytes, seq<UTXO>>, order: seq<Bytes>, pubkeys: seq<Bytes>, u: UTXO)
    requires forall i :: 0 <= i < |order| ==> order[i] in all
    ensures u in WalletScan(all, order, pubkeys) <==> ListedIn(all, order, u) && u.unspent.scriptPubKey in pubkeys
  {
    if order != [] {
      var init := order[..|order| - 1];
      WalletScanMember(all, init, pubkeys, u);
      MatchAnyMember(all[order[|order| - 1]], pubkeys, u);
      ListedInSnoc(all, order, u);
    }
  }

  lemma ListedInSnoc(all: map<Bytes, seq<UTXO>>, order: seq<Bytes>, u: UTXO)
    requires order != [] && forall i :: 0 <= i < |order| ==> order[i] in all
    ensures ListedIn(all, order, u) <==> ListedIn(all, order[..|order| - 1], u) || u in all[order[|order| - 1]]
  {
    var init := order[..|order| - 1];
    if ListedIn(all, order, u) {
      var i :| 0 <= i < |order| && u in all[order[i]];
      if i < |init| {
        assert init[i] == order[i];
      }
    }
    if ListedIn(all, init, u) {
      var i :| 0 <= i < |init| && u in all[init[i]];
      assert order[i] == init[i];
    }
  }

  /** The wallet's public-key hashes in the key order of getPublickeyHash. */
  function HashesOf(c: Crypto, keyPairs: KeyPairs, keyOrder: seq<Bytes>): (r: seq<Bytes>)
    requires AddressesDecode(c, keyPairs) && forall i :: 0 <= i < |keyOrder| ==> keyOrder[i] in keyPairs
    ensures |r| == |keyOrder|
    ensures forall i :: 0 <= i < |keyOrder| ==> r[i] == PubkeyHash(c, keyPairs[keyOrder[i]].publicKey)
  {
    seq(|keyOrder|, i requires 0 <= i < |keyOrder| => PubkeyHash(c, keyPairs[keyOrder[i]].publicKey))
  }

  /** In a well-keyed wallet, a script is one of the wallet's hashes exactly when its hex names a wallet key. */
  lemma HashesOwned(c: Crypto, keyPairs: KeyPairs, keyOrder: seq<Bytes>, script: Bytes)
    requires WellKeyed(c, keyPairs) && Enumerates(keyOrder, keyPairs)
    ensures script in HashesOf(c, keyPairs, keyOrder) <==> Hex.EncodeToString(script) in keyPairs
  {
    if script in HashesOf(c, keyPairs, keyOrder) {
      HashOfListedKey(c, keyPairs, keyOrder, script);
    }
    if Hex.EncodeToString(script) in keyPairs {
      ListedKeyHash(c, keyPairs, keyOrder, script);
    }
  }

  lemma HashOfListedKey(c: Crypto, keyPairs: KeyPairs, keyOrder: seq<Bytes>, script: Bytes)
    requires WellKeyed(c, keyPairs) && Enumerates(keyOrder, keyPairs)
    requires script in HashesOf(c, keyPairs, keyOrder)
    ensures Hex.EncodeToString(script) in keyPairs
  {
    var hashes := HashesOf(c, keyPairs, keyOrder);
    var i :| 0 <= i < |hashes| && hashes[i] == script;
    assert keyOrder[i] == Hex.EncodeToString(script);
  }

  lemma ListedKeyHash(c: Crypto, keyPairs: KeyPairs, keyOrder: seq<Bytes>, script: Bytes)
    requires WellKeyed(c, keyPairs) && Enumerates(keyOrder, keyPairs)
    requires Hex.EncodeToString(script) in keyPairs
    ensures script in HashesOf(c, keyPairs, keyOrder)
  {
    var key := Hex.EncodeToString(script);
    var h := PubkeyHash(c, keyPairs[key].publicKey);
    Hex.EncodeInjective(script, h);
    var i :| 0 <= i < |keyOrder| && keyOrder[i] == key;
    assert HashesOf(c, keyPairs, keyOrder)[i] == script;
  }

  /** getPublickeyHash's list is HashesOf its key order. */
  lemma HashesOfListed(c: Crypto, keyPairs: KeyPairs, keyOrder: seq<Bytes>, hashes: seq<Bytes>)
    requires AddressesDecode(c, keyPairs) && forall i :: 0 <= i < |keyOrder| ==> keyOrder[i] in keyPairs
    requires |hashes| == |keyOrder| && forall i :: 0 <= i < |keyOrder| ==> hashes[i] == PubkeyHash(c, keyPairs[keyOrder[i]].publicKey)
    ensures hashes == HashesOf(c, keyPairs, keyOrder)
  {
  }

  /** ScanWalletUTXOs' result for a chain state and the two visiting orders. */
  predicate WalletScanned(c: Crypto, keyPairs: KeyPairs, st: Ledger.ChainState, utxos: seq<UTXO>,
                          order: seq<Bytes>, keyOrder: seq<Bytes>)
  {
    var all := Utxos.HexKeyed(st.utxoIndex.bucket);
    AddressesDecode(c, keyPairs) && Enumerates(order, all) && Enumerates(keyOrder, keyPairs) &&
    utxos == WalletScan(all, order, HashesOf(c, keyPairs, keyOrder))
  }

  /**
   * Whatever the visiting orders, the wallet's outputs are exactly the
   * listed unspent outputs whose script's hex names a key of the wallet.
   */
  lemma WalletUtxosOwned(c: Crypto, keyPairs: KeyPairs, st: Ledger.ChainState, utxos: seq<UTXO>,
                         order: seq<Bytes>, keyOrder: seq<Bytes>, u: UTXO)
    requires WellKeyed(c, keyPairs) && WalletScanned(c, keyPairs, st, utxos, order, keyOrder)
    ensures var all := Utxos.HexKeyed(st.utxoIndex.bucket);
            u in utxos <==> (exists k :: k in all && u in all[k]) && Hex.EncodeToString(u.unspent.scriptPubKey) in keyPairs
  {
    var all := Utxos.HexKeyed(st.utxoIndex.bucket);
    WalletScanMember(all, order, HashesOf(c, keyPairs, keyOrder), u);
    HashesOwned(c, keyPairs, keyOrder, u.unspent.scriptPubKey);
    ListedInAll(all, order, u);
  }

  /** Listed in a full enumeration of the map's keys: held by some list of the map. */
  lemma ListedInAll(all: map<Bytes, seq<UTXO>>, order: seq<Bytes>, u: UTXO)
    requires Enumerates(order, all)
    ensures ListedIn(all, order, u) <==> exists k :: k in all && u in all[k]
  {
    if exists k :: k in all && u in all[k] {
      var k :| k in all && u in all[k];
      var i :| 0 <= i < |order| && order[i] == k;
    }
  }

  /** The step of the innermost loop of ScanWalletUTXOs. */
  lemma MatchOutsStep(outs: seq<UTXO>, m: nat, pubkey: Bytes)
    requires m < |outs|
    ensures MatchOuts(outs[..m + 1], pubkey) ==
            MatchOuts(outs[..m], pubkey) + (if outs[m].unspent.scriptPubKey == pubkey then [outs[m]] else [])
  {
    assert outs[..m + 1][..m] == outs[..m];
  }

  /** The step of the middle loop of ScanWalletUTXOs. */
  lemma MatchAnyStep(outs: seq<UTXO>, pubkeys: seq<Bytes>, j: nat)
    requires j < |pubkeys|
    ensures MatchAny(outs, pubkeys[..j + 1]) == MatchAny(outs, pubkeys[..j]) + MatchOuts(outs, pubkeys[j])
  {
    assert pubkeys[..j + 1][..j] == pubkeys[..j];
  }

  /** The step of the outer loop of ScanWalletUTXOs. */
  lemma WalletScanSnoc(all: map<Bytes, seq<UTXO>>, order: seq<Bytes>, k: Bytes, pubkeys: seq<Bytes>)
    requires (forall i :: 0 <= i < |order| ==> order[i] in all) && k in all
    ensures forall i :: 0 <= i < |order + [k]| ==> (order + [k])[i] in all
    ensures WalletScan(all, order + [k], pubkeys) == WalletScan(all, order, pubkeys) + MatchAny(all[k], pubkeys)
  {
    assert (order + [k])[..|order|] == order;
  }

  /** ScanWalletUTXOs' two inner loops for one list: its entries locked to each wallet hash in turn. */
  method MatchList(outs: seq<UTXO>, pubkeys: seq<Bytes>) returns (found: seq<UTXO>)
    ensures found == MatchAny(outs, pubkeys)
  {
    found := [];
    for j := 0 to |pubkeys|
      invariant found == MatchAny(outs, pubkeys[..j])
    {
      var pubkey := pubkeys[j];
      ghost var before := found;
      for m := 0 to |outs|
        invariant found == before + MatchOuts(outs[..m], pubkey)
      {
        MatchOutsStep(outs, m, pubkey);
        if outs[m].unspent.scriptPubKey == pubkey {
          AppendAssoc(before, MatchOuts(outs[..m], pubkey), [outs[m]]);
          found := found + [outs[m]];
        }
      }
      assert outs[..|outs|] == outs;
      MatchAnyStep(outs, pubkeys, j);
    }
    assert pubkeys[..|pubkeys|] == pubkeys;
  }

  /** ScanWalletUTXOs' outer loop: the lists of the map in some visiting order. */
  method CollectWalletUtxos(all: map<Bytes, seq<UTXO>>, pubkeys: seq<Bytes>) returns (found: seq<UTXO>, ghost order: seq<Bytes>)
    ensures Enumerates(order, all)
    ensures found == WalletScan(all, order, pubkeys)
  {
    found := [];
    order := [];
    var pending := all.Keys;
    while pending != {}
      invariant pending <= all.Keys
      invariant Chains.NoDup(order)
      invariant forall i :: 0 <= i < |order| ==> order[i] in all && order[i] !in pending
      invariant forall k :: k in all ==> k in pending || k in order
      invariant found == WalletScan(all, order, pubkeys)
      decreases pending
    {
      var k :| k in pending;
      var matched := MatchList(all[k], pubkeys);
      WalletScanSnoc(all, order, k, pubkeys);
      found := found + matched;
      order := order + [k];
      pending := pending - {k};
    }
  }

  // ---------------------------------------------------- coin selection

  /** The total value of a list of unspent outputs. */
  function SumValues(utxos: seq<UTXO>): int
  {
    if utxos == [] then 0 else SumValues(utxos[..|utxos| - 1]) + utxos[|utxos| - 1].unspent.value
  }

  lemma {:induction false} SumValuesAppend(a: seq<UTXO>, b: seq<UTXO>)
    ensures SumValues(a + b) == SumValues(a) + SumValues(b)
    decreases |b|
  {
    if b == [] {
      assert a + b == a;
    } else {
      var init := b[..|b| - 1];
      assert (a + b)[..|a + b| - 1] == a + init;
      SumValuesAppend(a, init);
    }
  }

  /**
   * How many outputs createTransaction takes, counting from n: it takes the
   * next one while the total of those taken is below `target`.
   */
  function FirstReaching(utxos: seq<UTXO>, target: int, n: nat): (r: nat)
    requires n <= |utxos|
    ensures n <= r <= |utxos|
    decreases |utxos| - n
  {
    if n == |utxos| || SumValues(utxos[..n]) >= target then n
    else FirstReaching(utxos, target, n + 1)
  }

  /**
   * The selection is the shortest prefix whose total reaches the target:
   * every shorter prefix falls short, and unless the whole list is taken
   * the selected prefix reaches it.
   */
  lemma {:induction false} FirstReachingMinimal(utxos: seq<UTXO>, target: int, n: nat)
    requires n <= |utxos| && forall k :: 0 <= k < n ==> SumValues(utxos[..k]) < target
    ensures var r := FirstReaching(utxos, target, n);
            (forall k :: 0 <= k < r ==> SumValues(utxos[..k]) < target) &&
            (r < |utxos| ==> SumValues(utxos[..r]) >= target)
    decreases |utxos| - n
  {
    if n < |utxos| && SumValues(utxos[..n]) < target {
      FirstReachingMinimal(utxos, target, n + 1);
    }
  }

  /** createTransaction's selection loop: the outputs taken while the total is below the target, and their total. */
  method SelectUtxos(utxos: seq<UTXO>, target: int) returns (uses: seq<UTXO>, cost: int)
    ensures uses == utxos[..FirstReaching(utxos, target, 0)]
    ensures cost == SumValues(uses)
  {
    uses := [];
    cost := 0;
    var i := 0;
    while i < |utxos|
      invariant 0 <= i <= |utxos|
      invariant uses == utxos[..i] && cost == SumValues(uses)
      invariant FirstReaching(utxos, target, 0) == FirstReaching(utxos, target, i)
    {
      if cost < target {
        assert utxos[..i + 1][..i] == utxos[..i];
        uses := uses + [utxos[i]];
        cost := cost + utxos[i].unspent.value;
        i := i + 1;
      } else {
        break;
      }
    }
  }

  /** The inputs createTransaction builds: one per used output, its script preset to that output's script. */
  function InputsFor(uses: seq<UTXO>): (r: seq<TxIn>)
    ensures |r| == |uses|
    ensures forall i :: 0 <= i < |uses| ==>
              r[i].prevTxHash == Hex.HexStrToBytes(uses[i].txid) && r[i].prevTxOutIndex == uses[i].index &&
              r[i].scriptSig == uses[i].unspent.scriptPubKey
  {
    seq(|uses|, i requires 0 <= i < |uses| =>
          TxIn(Hex.HexStrToBytes(uses[i].txid), uses[i].index, uses[i].unspent.scriptPubKey))
  }

  /** The addresses createTransaction decodes: `to` always, `change` only when there is change. */
  predicate OutputsDecodable(amount: int, fee: int, cost: int, to: Bytes, change: Bytes)
  {
    DecodableAddress(to) && (cost - amount - fee > 0 ==> DecodableAddress(change))
  }

  /** The payment to `to`, then the change to `change` when it is positive. */
  function OutputsFor(amount: int, fee: int, cost: int, to: Bytes, change: Bytes): seq<TxOut>
    requires OutputsDecodable(amount, fee, cost, to, change)
  {
    var pay := [TxOut(amount, AddressToPubkeyHash(to))];
    if cost - amount - fee > 0 then pay + [TxOut(cost - amount - fee, AddressToPubkeyHash(change))] else pay
  }

  function OutputTotal(outputs: seq<TxOut>): int
  {
    if outputs == [] then 0 else OutputTotal(outputs[..|outputs| - 1]) + outputs[|outputs| - 1].value
  }

  /** When the selection covers amount and fee, the outputs pay out everything selected except the fee. */
  lemma OutputsBalance(amount: int, fee: int, cost: int, to: Bytes, change: Bytes)
    requires OutputsDecodable(amount, fee, cost, to, change) && cost >= amount + fee
    ensures OutputTotal(OutputsFor(amount, fee, cost, to, change)) == cost - fee
    ensures |OutputsFor(amount, fee, cost, to, change)| == if cost - amount - fee > 0 then 2 else 1
  {
    var outputs := OutputsFor(amount, fee, cost, to, change);
    assert OutputTotal(outputs[..1]) == amount;
    if cost - amount - fee > 0 {
      assert outputs[..1] == [outputs[0]];
    }
  }

  /** The inputs loop of createTransaction. */
  method BuildInputs(uses: seq<UTXO>) returns (inputs: seq<TxIn>)
    ensures inputs == InputsFor(uses)
  {
    inputs := [];
    for i := 0 to |uses|
      invariant |inputs| == i
      invariant forall k :: 0 <= k < i ==> inputs[k] == InputsFor(uses)[k]
    {
      inputs := inputs + [TxIn(Hex.HexStrToBytes(uses[i].txid), uses[i].index, uses[i].unspent.scriptPubKey)];
    }
  }

  /** Every output of the wallet's list has a script whose hex names a wallet key. */
  lemma WalletUtxosSignable(c: Crypto, keyPairs: KeyPairs, st: Ledger.ChainState, utxos: seq<UTXO>,
                            order: seq<Bytes>, keyOrder: seq<Bytes>)
    requires WellKeyed(c, keyPairs) && WalletScanned(c, keyPairs, st, utxos, order, keyOrder)
    ensures forall i :: 0 <= i < |utxos| ==> Hex.EncodeToString(utxos[i].unspent.scriptPubKey) in keyPairs
  {
    forall i | 0 <= i < |utxos|
      ensures Hex.EncodeToString(utxos[i].unspent.scriptPubKey) in keyPairs
    {
      WalletUtxosOwned(c, keyPairs, st, utxos, order, keyOrder, utxos[i]);
    }
  }

  /** The transaction createTransaction signs: the selected outputs spent to `to`, with change to `change`. */
  function Unsigned(utxos: seq<UTXO>, amount: int, fee: int, to: Bytes, change: Bytes): Transaction
    requires OutputsDecodable(amount, fee, SumValues(utxos[..FirstReaching(utxos, amount + fee, 0)]), to, change)
  {
    var n := FirstReaching(utxos, amount + fee, 0);
    Transaction(InputsFor(utxos[..n]), OutputsFor(amount, fee, SumValues(utxos[..n]), to, change), 0)
  }

  /**
   * createTransaction's outcome on the wallet's list: too little coin when
   * the whole list stays below amount + fee, before any address is read; a
   * bad address when `to`, or `change` with positive change, does not
   * decode; a signing failure when an input cannot be signed; and otherwise
   * the signed transaction's JSON.
   */
  function Created(c: Crypto, keyPairs: KeyPairs, utxos: seq<UTXO>, amount: int, fee: int, to: Bytes, change: Bytes)
    : Result<Bytes, CreateError>
  {
    var n := FirstReaching(utxos, amount + fee, 0);
    var cost := SumValues(utxos[..n]);
    if cost < amount + fee then Err(NotEnoughCoin)
    else if !OutputsDecodable(amount, fee, cost, to, change) then Err(BadAddress)
    else
      var tx := Unsigned(utxos, amount, fee, to, change);
      if SignsBefore(c, keyPairs, tx, |tx.inputs|) then Ok(c.txJson(WithScripts(tx, Scripts(c, keyPairs, tx))))
      else Err(SigningFailed)
  }

  /**
   * Too little coin is reported, whatever the addresses, exactly when no
   * prefix of the wallet's list (the whole list included) reaches amount + fee.
   */
  lemma NotEnoughCoinFirst(c: Crypto, keyPairs: KeyPairs, utxos: seq<UTXO>, amount: int, fee: int, to: Bytes, change: Bytes)
    ensures Created(c, keyPairs, utxos, amount, fee, to, change) == Err(NotEnoughCoin) <==>
              forall k :: 0 <= k <= |utxos| ==> SumValues(utxos[..k]) < amount + fee
  {
    var n := FirstReaching(utxos, amount + fee, 0);
    FirstReachingMinimal(utxos, amount + fee, 0);
    if SumValues(utxos[..n]) < amount + fee {
      assert n == |utxos|;
    }
  }

  /** Without change the change address is never read: any other address gives the same outcome. */
  lemma ChangeUnreadWithoutChange(c: Crypto, keyPairs: KeyPairs, utxos: seq<UTXO>, amount: int, fee: int,
                                  to: Bytes, change: Bytes, other: Bytes)
    requires SumValues(utxos[..FirstReaching(utxos, amount + fee, 0)]) <= amount + fee
    ensures Created(c, keyPairs, utxos, amount, fee, to, change) == Created(c, keyPairs, utxos, amount, fee, to, other)
  {
  }

  /** createTransaction's construction of the transaction from the selected outputs. */
  method BuildTransaction(uses: seq<UTXO>, amount: int, fee: int, cost: int, to: Bytes, change: Bytes) returns (tx: Transaction)
    requires OutputsDecodable(amount, fee, cost, to, change)
    ensures tx == Transaction(InputsFor(uses), OutputsFor(amount, fee, cost, to, change), 0)
  {
    var inputs := BuildInputs(uses);
    var outputs := [TxOut(amount, AddressToPubkeyHash(to))];
    if cost - amount - fee > 0 {
      outputs := outputs + [TxOut(cost - amount - fee, AddressToPubkeyHash(change))];
    }
    tx := Transaction(inputs, outputs, 0);
  }

  /** Outputs of the wallet give inputs whose scripts name wallet keys. */
  lemma UnsignedSignable(keyPairs: KeyPairs, utxos: seq<UTXO>, amount: int, fee: int, to: Bytes, change: Bytes)
    requires OutputsDecodable(amount, fee, SumValues(utxos[..FirstReaching(utxos, amount + fee, 0)]), to, change)
    requires forall i :: 0 <= i < |utxos| ==> Hex.EncodeToString(utxos[i].unspent.scriptPubKey) in keyPairs
    ensures var tx := Unsigned(utxos, amount, fee, to, change);
            forall i :: 0 <= i < |tx.inputs| ==> KeyOf(tx.inputs[i]) in keyPairs
  {
    var n := FirstReaching(utxos, amount + fee, 0);
    var inputs := InputsFor(utxos[..n]);
    forall i | 0 <= i < |inputs|
      ensures KeyOf(inputs[i]) in keyPairs
    {
      assert inputs[i].scriptSig == utxos[i].unspent.scriptPubKey;
    }
  }

  /** createTransaction after the rescan: select, build and sign. */
  method SpendFrom(c: Crypto, keyPairs: KeyPairs, utxos: seq<UTXO>, amount: int, fee: int, to: Bytes, change: Bytes)
    returns (r: Result<Bytes, CreateError>)
    requires forall i :: 0 <= i < |utxos| ==> Hex.EncodeToString(utxos[i].unspent.scriptPubKey) in keyPairs
    ensures r == Created(c, keyPairs, utxos, amount, fee, to, change)
  {
    var uses, cost := SelectUtxos(utxos, amount + fee);
    if cost < amount + fee {
      return Err(NotEnoughCoin);
    }
    if !OutputsDecodable(amount, fee, cost, to, change) {
      return Err(BadAddress);
    }
    var tx := BuildTransaction(uses, amount, fee, cost, to, change);
    UnsignedSignable(keyPairs, utxos, amount, fee, to, change);
    var signed, raw := SignTransaction(c, keyPairs, tx);
    if raw.None? {
      return Err(SigningFailed);
    }
    r := Ok(raw.value);
  }

  // --------------------------------------------------------------- server

  class Server {
    const node: Bytes
    const keyPairs: KeyPairs
    const chain: Ledger.BlockChain
    var utxos: seq<UTXO>
    var connectMap: map<Bytes, bool>
    var blockMap: map<Bytes, int>
    /** Every message sent so far, in order, with its outcome. */
    var outbox: seq<Sent>

    /** The chain's blocks are stored under their hashes and the wallet is keyed as NewWallet keys it. */
    ghost predicate Valid()
      reads this, chain
    {
      chain.Valid() && WellKeyed(chain.crypto, keyPairs)
    }

    function PeerMaps(): Peers
      reads this
    {
      Peers(connectMap, blockMap)
    }

    /** NewServer without its files and sockets: no peers, nothing sent, and the wallet's outputs scanned. */
    constructor(node: Bytes, keyPairs: KeyPairs, chain: Ledger.BlockChain)
      requires chain.Valid() && WellKeyed(chain.crypto, keyPairs)
      ensures Valid() && this.node == node && this.keyPairs == keyPairs && this.chain == chain
      ensures connectMap == map[] && blockMap == map[] && outbox == []
      ensures exists order, keyOrder :: WalletScanned(chain.crypto, keyPairs, chain.State(), utxos, order, keyOrder)
    {
      this.node := node;
      this.keyPairs := keyPairs;
      this.chain := chain;
      utxos := [];
      connectMap := map[];
      blockMap := map[];
      outbox := [];
      new;
      ghost var order, keyOrder := ScanWalletUTXOs();
    }

    /** send: the message is recorded; a peer that cannot be dialled is forgotten in both maps. */
    method Send(addr: Bytes, message: Message, delivered: bool)
      modifies this
      ensures PeerMaps() == AfterSend(old(PeerMaps()), addr, delivered, None)
      ensures outbox == old(outbox) + [Sent(addr, message, delivered)]
      ensures utxos == old(utxos)
    {
      outbox := outbox + [Sent(addr, message, delivered)];
      if !delivered {
        blockMap := blockMap - {addr};
        connectMap := connectMap - {addr};
      }
    }

    /** sendVersion: version 1 with our height; once delivered the peer awaits its verack. */
    method SendVersion(addr: Bytes, delivered: bool)
      modifies this
      ensures PeerMaps() == AfterSend(old(PeerMaps()), addr, delivered, Some(false))
      ensures outbox == old(outbox) + [Sent(addr, VersionMessage(Version(BlockchainVersion, node, chain.height)), delivered)]
      ensures utxos == old(utxos)
    {
      Send(addr, VersionMessage(Version(BlockchainVersion, node, chain.height)), delivered);
      if delivered {
        connectMap := connectMap[addr := false];
      }
    }

    /** sendVerack: once delivered the peer is acknowledged. */
    method SendVerack(addr: Bytes, delivered: bool)
      modifies this
      ensures PeerMaps() == AfterSend(old(PeerMaps()), addr, delivered, Some(true))
      ensures outbox == old(outbox) + [Sent(addr, VerackMessage(Verack(node)), delivered)]
      ensures utxos == old(utxos)
    {
      Send(addr, VerackMessage(Verack(node)), delivered);
      if delivered {
        connectMap := connectMap[addr := true];
      }
    }

    /** sendGetblocks: our hashes, genesis first. */
    method SendGetblocks(addr: Bytes, delivered: bool)
      requires chain.Valid()
      modifies this
      ensures PeerMaps() == AfterSend(old(PeerMaps()), addr, delivered, None)
      ensures outbox == old(outbox) + [Sent(addr, GetblocksMessage(Getblocks(node, Chains.Rev(chain.Chain()))), delivered)]
      ensures utxos == old(utxos)
    {
      var hashes := chain.GetBlockHashes(false);
      var blockHashes := HashCodec.BytesToHashes(hashes);
      assert blockHashes == hashes;
      Send(addr, GetblocksMessage(Getblocks(node, blockHashes)), delivered);
    }

    /** handleVersion: see OnVersion; the reply is verack exactly to an unacknowledged peer. */
    method HandleVersion(msg: Version, delivered: bool)
      modifies this
      ensures PeerMaps() == OnVersion(old(PeerMaps()), msg, delivered)
      ensures msg.version != BlockchainVersion ==> outbox == old(outbox)
      ensures msg.version == BlockchainVersion ==>
                outbox == old(outbox) + [Sent(msg.addrFrom,
                                              if Unacknowledged(old(PeerMaps()), msg.addrFrom) then VerackMessage(Verack(node))
                                              else VersionMessage(Version(BlockchainVersion, node, chain.height)),
                                              delivered)]
      ensures utxos == old(utxos)
    {
      if msg.version == BlockchainVersion {
        blockMap := blockMap[msg.addrFrom := msg.startHeight];
        if msg.addrFrom in connectMap {
          var conn := connectMap[msg.addrFrom];
          if !conn {
            SendVerack(msg.addrFrom, delivered);
          } else {
            SendVersion(msg.addrFrom, delivered);
          }
        } else {
          SendVersion(msg.addrFrom, delivered);
        }
      }
    }

    /**
     * handleVerack: nothing for an unknown peer, verack to an
     * unacknowledged one, and getblocks to an acknowledged one whose
     * announced height exceeds ours.
     */
    method HandleVerack(msg: Verack, delivered: bool)
      requires chain.Valid()
      modifies this
      ensures var from := msg.addrFrom;
              var p := old(PeerMaps());
              (from !in p.connectMap ==> PeerMaps() == p && outbox == old(outbox)) &&
              (Unacknowledged(p, from) ==>
                 PeerMaps() == AfterSend(p, from, delivered, Some(true)) &&
                 outbox == old(outbox) + [Sent(from, VerackMessage(Verack(node)), delivered)]) &&
              (Acknowledged(p, from) && HeightOf(p.blockMap, from) > chain.height ==>
                 PeerMaps() == AfterSend(p, from, delivered, None) &&
                 outbox == old(outbox) + [Sent(from, GetblocksMessage(Getblocks(node, Chains.Rev(chain.Chain()))), delivered)]) &&
              (Acknowledged(p, from) && HeightOf(p.blockMap, from) <= chain.height ==>
                 PeerMaps() == p && outbox == old(outbox))
      ensures utxos == old(utxos)
    {
      var from := msg.addrFrom;
      var height := chain.height;
      if from !in connectMap {
        return;
      }
      var conn := connectMap[from];
      if !conn {
        SendVerack(from, delivered);
        return;
      }
      var block := HeightOf(blockMap, from);
      if block > height {
        SendGetblocks(from, delivered);
      }
    }

    /**
     * handleGetBlocks: our hashes, genesis first, from the divergence index
     * on, announced as blocks to the asking peer. The peer's list must be
     * non-empty and no longer than ours.
     */
    method HandleGetBlocks(msg: Getblocks, delivered: bool)
      requires chain.Valid() && 1 <= |msg.blockHashes| <= |chain.Chain()|
      modifies this
      ensures var mine := Chains.Rev(chain.Chain());
              var r := ReorgHeight(msg.blockHashes, mine, |msg.blockHashes|);
              0 <= r < |mine| &&
              outbox == old(outbox) + [Sent(msg.addrFrom, InvMessage(Inv(node, BlockType, mine[r..])), delivered)]
      ensures PeerMaps() == AfterSend(old(PeerMaps()), msg.addrFrom, delivered, None)
      ensures utxos == old(utxos)
    {
      var myhashes := chain.GetBlockHashes(false);
      var reorgHeight := DivergenceIndex(msg.blockHashes, myhashes);
      var all := HashCodec.BytesToHashes(myhashes);
      assert all == myhashes;
      Send(msg.addrFrom, InvMessage(Inv(node, BlockType, all[reorgHeight..])), delivered);
    }

    /**
     * handleInv: with more than one hash, the chain is reorganised onto the
     * first one before the getdata is sent; with at most one, the chain is
     * left alone.
     */
    method HandleInv(msg: Inv, delivered: bool)
      requires Valid() && (|msg.hashes| > 1 ==> msg.hashes[0] in chain.blocks)
      modifies this, chain
      ensures Valid()
      ensures |msg.hashes| > 1 ==>
                var h := msg.hashes[0];
                chain.blocks == Chains.Without(old(chain.blocks), Utxos.Above(old(chain.blocks), old(chain.top), h)) &&
                chain.top == h && chain.height == old(chain.blocks)[h].header.height &&
                (chain.utxoIndex, true) == Utxos.ReIndexed(chain.crypto, chain.blocks, h, old(chain.utxoIndex).(top := None)) &&
                chain.utxosMap == old(chain.utxosMap)
      ensures |msg.hashes| <= 1 ==> chain.State() == old(chain.State())
      ensures outbox == old(outbox) + [Sent(msg.addrFrom, GetdataMessage(GetdataFor(node, msg)), delivered)]
      ensures PeerMaps() == AfterSend(old(PeerMaps()), msg.addrFrom, delivered, None)
      ensures utxos == old(utxos)
    {
      var getdata: Option<Getdata>;
      if |msg.hashes| > 1 {
        chain.ReOrg(msg.hashes[0]);
        if msg.kind == BlockType {
          getdata := Some(Getdata(node, BlockType, msg.hashes[1..]));
        } else if msg.kind == TxType {
          getdata := Some(Getdata(node, TxType, msg.hashes));
        } else {
          getdata := None;
        }
      } else {
        if msg.kind == BlockType {
          getdata := Some(Getdata(node, BlockType, msg.hashes));
        } else if msg.kind == TxType {
          getdata := Some(Getdata(node, TxType, msg.hashes));
        } else {
          getdata := None;
        }
      }
      Send(msg.addrFrom, GetdataMessage(getdata), delivered);
    }

    /**
     * ScanWalletUTXOs: for each list of getUTXOs, for each wallet hash, the
     * entries locked to it, in the visiting orders `order` (lists) and
     * `keyOrder` (keys).
     */
    method ScanWalletUTXOs() returns (ghost order: seq<Bytes>, ghost keyOrder: seq<Bytes>)
      requires Valid()
      modifies this
      ensures Valid()
      ensures WalletScanned(chain.crypto, keyPairs, chain.State(), utxos, order, keyOrder)
      ensures PeerMaps() == old(PeerMaps()) && outbox == old(outbox)
    {
      var all := chain.GetUTXOs();
      var pubkeys;
      pubkeys, keyOrder := GetPublickeyHash(chain.crypto, keyPairs);
      HashesOfListed(chain.crypto, keyPairs, keyOrder, pubkeys);
      utxos, order := CollectWalletUtxos(all, pubkeys);
    }

    /** GetWalletBalance: the total value of the wallet's outputs. */
    method GetWalletBalance() returns (sum: int)
      ensures sum == SumValues(utxos)
    {
      sum := 0;
      for i := 0 to |utxos|
        invariant sum == SumValues(utxos[..i])
      {
        assert utxos[..i + 1][..i] == utxos[..i];
        sum := sum + utxos[i].unspent.value;
      }
      assert utxos[..|utxos|] == utxos;
    }

    /**
     * createTransaction: rescan the wallet, take outputs in order while
     * their total is below amount + fee, refuse when it stays below, and
     * otherwise sign the transaction spending them to `to` with change to
     * `change`.
     */
    method CreateTransaction(amount: int, fee: int, to: Bytes, change: Bytes)
      returns (r: Result<Bytes, CreateError>, ghost order: seq<Bytes>, ghost keyOrder: seq<Bytes>)
      requires Valid()
      modifies this
      ensures Valid()
      ensures WalletScanned(chain.crypto, keyPairs, chain.State(), utxos, order, keyOrder)
      ensures PeerMaps() == old(PeerMaps()) && outbox == old(outbox)
      ensures r == Created(chain.crypto, keyPairs, utxos, amount, fee, to, change)
    {
      order, keyOrder := ScanWalletUTXOs();
      WalletUtxosSignable(chain.crypto, keyPairs, chain.State(), utxos, order, keyOrder);
      r := SpendFrom(chain.crypto, keyPairs, utxos, amount, fee, to, change);
    }

    /**
     * handleBlock: from an acknowledged peer, the blocks are added in order
     * until AddBlock refuses one, the wallet rescanned after each accepted
     * block; any other peer is only sent version.
     */
    method HandleBlock(msg: BlockBatch, delivered: bool) returns (ghost order: seq<Bytes>, ghost keyOrder: seq<Bytes>)
      requires Valid()
      modifies this, chain
      ensures Valid()
      ensures Acknowledged(old(PeerMaps()), msg.addrFrom) ==>
                var batch := AddBlocks(chain.crypto, old(chain.State()), msg.blocks);
                chain.State() == batch.state && PeerMaps() == old(PeerMaps()) && outbox == old(outbox) &&
                ScannedAfter(chain.crypto, keyPairs, old(chain.State()), old(utxos), msg.blocks, batch.accepted, utxos, order, keyOrder)
      ensures !Acknowledged(old(PeerMaps()), msg.addrFrom) ==>
                chain.State() == old(chain.State()) && utxos == old(utxos) &&
                PeerMaps() == AfterSend(old(PeerMaps()), msg.addrFrom, delivered, Some(false)) &&
                outbox == old(outbox) + [Sent(msg.addrFrom, VersionMessage(Version(BlockchainVersion, node, chain.height)), delivered)]
    {
      if msg.addrFrom in connectMap && connectMap[msg.addrFrom] {
        order, keyOrder := AcceptBlocks(msg.blocks);
      } else {
        order, keyOrder := [], [];
        SendVersion(msg.addrFrom, delivered);
      }
    }

    /** handleBlock's loop: AddBlock on each block until one is refused, rescanning the wallet after each accepted one. */
    method AcceptBlocks(blocks: seq<Block>) returns (ghost order: seq<Bytes>, ghost keyOrder: seq<Bytes>)
      requires Valid()
      modifies this, chain
      ensures Valid() && PeerMaps() == old(PeerMaps()) && outbox == old(outbox)
      ensures chain.State() == AddBlocks(chain.crypto, old(chain.State()), blocks).state
      ensures ScannedAfter(chain.crypto, keyPairs, old(chain.State()), old(utxos), blocks,
                           AddBlocks(chain.crypto, old(chain.State()), blocks).accepted, utxos, order, keyOrder)
    {
      order, keyOrder := [], [];
      ghost var st0 := chain.State();
      var i := 0;
      while i < |blocks|
        invariant 0 <= i <= |blocks|
        invariant Valid() && PeerMaps() == old(PeerMaps()) && outbox == old(outbox)
        invariant AddBlocks(chain.crypto, st0, blocks[..i]) == Batch(chain.State(), i)
        invariant ScannedAfter(chain.crypto, keyPairs, st0, old(utxos), blocks, i, utxos, order, keyOrder)
      {
        ghost var before := chain.State();
        var ok;
        ghost var o, k;
        ok, o, k := AcceptOne(blocks[i]);
        if !ok {
          AddBlocksRefused(chain.crypto, st0, blocks, i, chain.State(), Ledger.AddBlockSpec(chain.crypto, before, blocks[i]).1);
          return;
        }
        AddBlocksAccepted(chain.crypto, st0, blocks, i, chain.State());
        order, keyOrder := o, k;
        i := i + 1;
      }
      assert blocks[..i] == blocks;
    }

    /** One block of handleBlock's loop: AddBlock, then the wallet rescanned when it was accepted. */
    method AcceptOne(block: Block) returns (ok: bool, ghost order: seq<Bytes>, ghost keyOrder: seq<Bytes>)
      requires Valid()
      modifies this, chain
      ensures Valid() && PeerMaps() == old(PeerMaps()) && outbox == old(outbox)
      ensures var (st', err) := Ledger.AddBlockSpec(chain.crypto, old(chain.State()), block);
              chain.State() == st' && ok == err.None?
      ensures ok ==> WalletScanned(chain.crypto, keyPairs, chain.State(), utxos, order, keyOrder)
      ensures !ok ==> utxos == old(utxos)
    {
      order, keyOrder := [], [];
      var err := chain.AddBlock(block);
      ok := err.None?;
      if ok {
        order, keyOrder := ScanWalletUTXOs();
      }
    }
  }
}
