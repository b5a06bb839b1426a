# simpleBlockchain core in Dafny

This project models the sequential core of simpleBlockchain, a toy Bitcoin-style node written in Go. The model covers the following parts:

- **Ledger.** The `BlockChain` class holds the block store (hash → block), the tip hash, the height, the UTXO store with its checkpoint, and the in-memory `utxosMap`. It accepts blocks only at height + 1 and advances the tip in `putBlock`. It walks the chain from tip to genesis (`BlockIterator`), lists hashes in both orders, and cuts the chain back in `ReOrg`. It rebuilds the UTXO store, either incrementally in `ReIndexUTXO` or by the full rescan `scanUTXOs`. It also answers lookup questions from `verifyTransaction`.
- **Node.** The `Server` class holds the per-peer handshake map `connectMap` (absent, false = version sent, true = acknowledged), the announced heights in `blockMap`, the wallet's UTXO list, and an outbox of recorded sends. Each send carries a delivered/failed outcome. The model covers the handlers `version`, `verack`, `getblocks`, `inv` and `block`, the wallet scan and balance, and coin selection and change in `createTransaction`.
- **Wallet.** Key listing, and per-input signing over the ScriptSig-cleaned copy of a transaction. This is the same message that `verifyTransaction` rebuilds.
- **Data model.** Transactions, inputs, outputs, headers and blocks. It covers coinbase recognition and construction, the cleaned copy, the deep header copy, and block assembly in `MiningNewBlock`.
- **Merkle root.** The flat node list that grows by appending parents of pairs.
- **Proof of work.** The compact-bits target buffer, the 80-byte mining serialization, and the nonce search.
- **Byte codecs.**
  - the CompactSize-style varint and the 7-bit index varint;
  - little-endian integers;
  - reverse, concatenate and cut helpers;
  - hex, including the `Hashes` JSON/text codec;
  - Base58.

SHA-256, RIPEMD-160, ECDSA and `encoding/json` are foreign code. They are modelled as the fields of a `Crypto` value (`Types.Crypto`), passed as a parameter or held as a constant. So every statement holds for any hash, signature scheme and serializer.

Go strings and byte slices are both `Bytes` (`seq<Byte>`). The bolt buckets are Dafny maps held in fields of the `BlockChain` class. Methods that loop or update fields in Go are Dafny methods with loop invariants. Each is proved equal to a specification function, and the properties are lemmas about those functions.

Several quirks of the source are modelled as written, not fixed:

- spends found by the full rescan are keyed by the input's position, not its `PrevTxOutIndex` (`Utxos.ScanSpendsByPosition`);
- `handleVersion` answers a known but unacknowledged peer with verack;
- getblocks keeps the last mismatching index;
- proof of work always uses the genesis bits;
- the block identity hashes the JSON header, not the mining bytes;
- the Merkle tree uses a single SHA-256;
- Base58 keeps only one leading zero byte (`Base58.SecondLeadingZeroLost`).

## Model

| member | source | states |
|---|---|---|
| Bytes.ReverseBytes | utils.go:90-97 | the swap loop on a copy returns a sequence of the same length with position i holding input position len-1-i |
| Bytes.ReversedInvolution | utils.go:90-97 | reversing twice gives the input back |
| Bytes.ReversedConcat | utils.go:90-97 | reversing a concatenation reverses each part and swaps them |
| Bytes.ConcatCopy | utils.go:77-88 | the copy loop returns exactly the concatenation of the slices, whose length is the sum of theirs |
| Bytes.FlattenAppend | utils.go:77-88 | concatenating two lists of slices concatenates their flattenings |
| Bytes.AddHeadSlice | utils.go:64-69 | the result is head followed by slice |
| Bytes.CutBytes | utils.go:71-75 | the first part has the requested length and the two parts concatenate back to the input |
| Bytes.LittleEndianRoundTrip | utils.go:105-136 | reading the little-endian bytes of a value that fits the width gives the value back |
| Bytes.IntToLittleEndianBytes | utils.go:105-136 | yields 1/2/4/8/4/8/8 bytes for uint8/16/32/64/int32/int64/int; reading them back gives the value modulo 256^width, which is the value itself when it is not negative |
| Bytes.DecodeVarint | utils.go:13-29 | every first byte is accepted, so the error branch cannot be reached; the width is 1/3/5/9 by the marker, and the value is the byte itself or the little-endian field after the marker |
| Bytes.EncodeVarint | utils.go:43-62 | emits the bare byte below 253, otherwise the marker 0xfd/0xfe/0xff by range, followed by the little-endian value |
| Bytes.VarintRoundTrip | utils.go:13-62 | decoding an encoding gives back the value, with the width the encoding chose |
| Bytes.DecodeVarIntForIndex | utils.go:31-41 | pos is one past the first byte with its high bit clear, and n is the 7-bit accumulation with the +1 continuation bias, as a signed 64-bit value |
| Bytes.BigEndianRoundTrip | base58.go:35 | the minimal big-endian bytes of n read back as n and never start with a zero byte |
| Bytes.MinimalOfValue | base58.go:35 | bytes with no leading zero are the minimal encoding of their own value |
| Hex.EncodeToString | blockchain.go:345 | the hex text of b has two lower-case digits per byte |
| Hex.DecodeString | utils.go:156 | decodes the longest valid prefix and reports an error exactly when the text is not valid hex |
| Hex.DecodePrefixComplete | utils.go:156 | the whole text decodes iff it has even length and only hex digits |
| Hex.DecodeEncode | utils.go:146-158 | decoding the hex text of b gives b back |
| Hex.EncodeDecode | utils.go:146-158 | encoding the decoding of lower-case valid hex gives the text back |
| Hex.EncodeInjective | utils.go:146-158 | different byte strings have different hex texts |
| Hex.HexStrToBytes | utils.go:146-158 | maps "" to empty and never yields more than ceil(len/2) bytes |
| Hex.HexStrToBytesOfEncoding | utils.go:146-158 | HexStrToBytes inverts hex encoding, with or without a leading "0x" |
| Hex.HexStrToBytesLength | utils.go:146-158 | after stripping "0x" and left-padding odd lengths with '0', valid hex yields exactly ceil(len/2) bytes |
| HashCodec.MarshalJSON | hash.go:10-16 | the JSON is a quoted string whose contents decode as hex to the bytes |
| HashCodec.UnmarshalText | hash.go:18-25 | fails exactly on invalid hex and then leaves the target unchanged; on success it stores len/2 bytes, byte i being the value of hex digits 2i and 2i+1 in either case, and for lower-case text their hex is the text |
| HashCodec.MarshalThenUnmarshal | hash.go:10-25 | unmarshalling the text that MarshalJSON emits restores the bytes |
| HashCodec.HashesToBytes | hash.go:32-38 | keeps the length and every element |
| HashCodec.BytesToHashes | hash.go:40-46 | keeps the length and every element |
| HashCodec.ConversionsRoundTrip | hash.go:32-46 | the two conversions are mutual inverses |
| Base58.Base58Encode | base58.go:12-26 | the DivMod loop computes Encoding: the base-58 digits of the big-endian value, most significant first, with one '1' prefixed when the first byte is zero |
| Base58.Encoding | base58.go:8-26 | the output is non-empty and uses only the 58-character alphabet |
| Base58.Base58Decode | base58.go:28-39 | the accumulation loop computes Decoding: the minimal big-endian bytes of the digit sum, with one 0x00 prepended when the text starts with '1' |
| Base58.IndexByte | base58.go:31 | the index of the first occurrence of b, or -1 exactly when b is absent |
| Base58.RoundTrip | base58.go:12-39 | decoding the encoding of non-empty bytes with at most one leading zero byte gives them back |
| Base58.SecondLeadingZeroLost | base58.go:12-39 | [0, 0] and [0] encode alike, so the round trip loses the second zero byte |
| TxInput.IsCoinbaseTxIn | txinput.go:36-41 | only an input with a 32-byte previous hash and index 0 is coinbase-shaped |
| TxInput.CoinbaseTxInShape | txinput.go:9-41 | an input is coinbase-shaped iff its previous hash is exactly 32 zero bytes and its index is 0 |
| TxInput.CreateCoinbaseTxIn | txinput.go:24-31 | the created input is coinbase-shaped and carries the data as its script |
| TxInput.RecoverCoinbaseScriptsig | txinput.go:32-34 | a coinbase input is exactly the one created from its recovered script |
| TxInput.RecoverCreated | txinput.go:24-34 | recovering the script of a created coinbase input returns the data |
| TxOutput.CoinbaseTxOutAnyScript | txoutput.go:19-21 | whether an output is a reward output does not depend on its locking script |
| TxOutput.AddressToPubkeyHash | txoutput.go:27-30 | drops the version byte and the 4-byte checksum from the decoded address |
| TxOutput.PubkeyHashOfStandardAddress | txoutput.go:23-30 | a 25-byte decoded address yields a 20-byte hash |
| TxOutput.AddressRoundTrip | txoutput.go:23-30 | the hash is recovered from the address built from it when the hash does not start with 0x00 |
| TxOutput.ZeroLeadingHashShrinks | txoutput.go:23-30 | a hash starting with 0x00 comes back one byte short, because Base58 drops the second zero |
| TxOutput.CreateCoinbaseTxOut | txoutput.go:5-21 | the output pays the 5000000000 reward, so it counts as a coinbase output, to the address's pubkey hash |
| Transactions.IsCoinBase | transaction.go:12-14 | a coinbase transaction has one input, with a 32-byte previous hash and index 0, and one output paying the reward |
| Transactions.CreateCoinBaseTransaction | transaction.go:16-24 | one input and one output, LockTime 0, the data as script, the miner's hash as payee, and the result is a coinbase |
| Transactions.CopyCleanScriptSigTx | transaction.go:26-47 | keeps every input's outpoint and empties its script, and keeps the outputs in order and the LockTime |
| Transactions.CopyCleanIdempotent | transaction.go:26-47 | cleaning twice is cleaning once |
| Transactions.CopyCleanIgnoresScripts | transaction.go:26-47 | transactions that differ only in scripts have the same clean copy |
| Transactions.SigningMessage | wallet.go:112-115 | the message for input i is the clean copy with only input i's script restored |
| Transactions.TxHash | transaction.go:50-53 | the identity is the reversed double hash of the JSON, 32 bytes |
| BlockHeaders.CopyBlockHeader | blockheader.go:25-40 | the copy keeps every scalar field and the bytes of both hashes |
| BlockHeaders.CopyIsEqual | blockheader.go:25-40 | the copy equals the original as a value |
| Blocks.BlockHash | block.go:30-33 | the block hash is 32 bytes long |
| Blocks.BlockHashUnreversed | block.go:30-33 | un-reversing the block hash gives the double hash of the JSON header |
| Blocks.LittleEndianUint32 | block.go:49 | Bits is the little-endian reading of the first four bytes |
| Blocks.GenesisBitsValue | block.go:49 | the genesis bits read as 4294967071 |
| Blocks.BlockTransactions | block.go:41-42 | the coinbase paying the miner comes first, followed by the given transactions |
| Blocks.DecimalDigits | block.go:41 | the decimal digits of the height in the coinbase text denote the height |
| Blocks.MiningNewBlock | block.go:40-61 | on success, the header has version 0, the given previous hash and height, the Merkle root of the assembled transactions, and the first nonce that meets the genesis target |
| Blocks.CreateGenesisBlock | block.go:35-37 | mines height 1 on 32 zero bytes with only the coinbase |
| Merkle.NewMerkleNode | merkleTree.go:46-57 | a node has children iff it is built from two nodes; a leaf's hash is SHA-256 of its data, a parent's SHA-256 of its left then right child's hash |
| Merkle.Padded | merkleTree.go:31-33 | an odd dataset gets its last element repeated once, and an even one is unchanged |
| Merkle.NewMerkleTree | merkleTree.go:26-44 | one leaf gives a single leaf node; otherwise the loop builds 2m-1 nodes where node m+j has children 2j and 2j+1, and the last node's hash is the Merkle root |
| Merkle.AppendParent | merkleTree.go:41-54 | appending the parent of the next pair keeps the node list well built |
| Merkle.RootOfPadded | merkleTree.go:34-43 | the root is the node at position 2m-2 of the padded tree |
| Merkle.CalculateMerkleRoot | merkleTree.go:17-24 | the root over the transactions' identity hashes in list order |
| Merkle.TwoLeafRoot | merkleTree.go:41-52 | for two leaves the root is H(H(a) ‖ H(b)) |
| Merkle.ThreeLeafRoot | merkleTree.go:31-33 | three leaves pad to four by repeating the last |
| ProofOfWork.CalculateTarget | proofofwork.go:60-72 | the target is the big-endian value of a zeroed 32-byte buffer holding bits[1..3] at 32-e, which equals coeff·256^(e-3) |
| ProofOfWork.GenesisTarget | proofofwork.go:60-72 | for the genesis bits, bytes 1-3 of the target are 0xff and the rest are zero |
| ProofOfWork.SerializeHeaderForMining | proofofwork.go:21-30 | the mining bytes are LE version, reversed previous hash, reversed root, then LE time, bits and nonce |
| ProofOfWork.MiningBytesLength | proofofwork.go:21-30 | 80 bytes for 32-byte hashes |
| ProofOfWork.MiningBytesIgnoreHeight | proofofwork.go:21-30 | the height does not enter the mining bytes |
| ProofOfWork.ProofOfWork.constructor | proofofwork.go:33-41 | the target is always the genesis target, whatever the block's bits |
| ProofOfWork.ProofOfWork.Mining | proofofwork.go:43-53 | only the nonce changes; when a nonce is found it is the first from 0 whose hash is below the target; none is found exactly when no 32-bit nonce works |
| Chains.Walk | blockchain.go:557-601 | the walk from a hash follows previous-block links through stored blocks and is empty iff the start is not stored |
| Chains.WalkLinks | blockchain.go:587-601 | each step of the walk goes to the stored block's previous hash |
| Chains.WalkBudgetSuffices | blockchain.go:580-601 | for a store whose previous-block links repeat no hash, a walk never visits more blocks than the store holds, so the fuel bound is never the reason it stops |
| Chains.Prefix | blockchain.go:405-417 | the hashes before the first occurrence of h, or all of them when h is absent |
| Chains.Without | blockchain.go:179-184 | exactly the stored blocks whose hash is not listed, unchanged |
| Chains.ReOrgLeavesSuffix | blockchain.go:174-197 | after deleting the blocks above h, the walk from h in what remains is the old chain's suffix from h |
| Utxos.FilterIndex | blockchain.go:324-328 | an entry is in the result iff it is in the list and its index differs from the spent one |
| Utxos.FilterIndexCount | blockchain.go:324-328 | each entry with another index is kept as often as it occurs, and none with the spent index |
| Utxos.FilterIndexSingle | blockchain.go:324-328 | one entry is kept exactly when its index differs from the spent one |
| Utxos.FilterIndexAppend | blockchain.go:324-328 | filtering a concatenation filters each part, so the kept entries keep their order |
| Utxos.SpendOne | blockchain.go:313-339 | a non-coinbase input fails iff its list is absent, and otherwise drops exactly the matching entries from it; a coinbase input changes nothing |
| Utxos.SpendInputsStops | blockchain.go:313-339 | after the first failing input nothing more happens |
| Utxos.FreshUtxos | blockchain.go:341-347 | one entry per output, with its position as index and the transaction's hex id |
| Utxos.ApplyTx | blockchain.go:311-360 | a transaction that spends successfully overwrites its own list with its fresh outputs and moves the checkpoint to the block |
| Utxos.ApplyTxsCheckpoint | blockchain.go:352-357 | after a block's transactions the checkpoint is the block's hash |
| Utxos.Above | blockchain.go:308 | the hashes above the checkpoint are stored blocks |
| Utxos.KeptOutputsSpec | blockchain.go:481-496 | keeps the outputs whose position is not recorded as spent, each with its position and txid |
| Utxos.ScanTxUtxos | blockchain.go:479-502 | scanning one transaction appends its unspent outputs under its txid |
| Utxos.ScanBlocksStep | blockchain.go:474-504 | scanning one more block scans its transactions in order |
| Utxos.Scan | blockchain.go:456-506 | every key of the rescan result is a transaction's hex id |
| Utxos.ScanSpendsByPosition | blockchain.go:497-500 | a spend by an older transaction's input at position p removes output p of the newer one, whatever the input's PrevTxOutIndex |
| Utxos.HexKeyedAt | blockchain.go:419-441 | a key of the hex-keyed view is present iff it is the hex of a stored raw key, and carries that key's list |
| Utxos.HexKeyedStep | blockchain.go:424-434 | adding one raw key adds its hex text to the view |
| Utxos.RawKeyedAt | blockchain.go:290-296 | writing hex-keyed lists under their decoded keys stores each list under the bytes whose hex is its key |
| Utxos.ReIndexAtTip | blockchain.go:304-307 | when the checkpoint equals the tip, the index is left as it is |
| Utxos.ReIndexRescan | blockchain.go:282-303 | without a checkpoint, the store becomes the old entries overwritten by the rescan, with the tip as checkpoint |
| Ledger.FilterUtxos | blockchain.go:324-328 | the loop computes FilterIndex |
| Ledger.SpendTxInputs | blockchain.go:313-339 | the input loop computes SpendInputs |
| Ledger.NewFreshUtxos | blockchain.go:341-347 | the output loop computes FreshUtxos |
| Ledger.IndexBlockTxs | blockchain.go:311-361 | the transaction loop computes ApplyTxs |
| Ledger.IndexBlocks | blockchain.go:308-362 | the block loop computes ApplyBlocks |
| Ledger.WriteScanned | blockchain.go:290-296 | the loop over the rescan map computes the raw-keyed store update, in any map order |
| Ledger.HexKeyedCopy | blockchain.go:424-434 | the cursor loop computes the hex-keyed view, in any key order |
| Ledger.ListedSpend | blockchain.go:485-489 | finds the output index iff it is among the recorded spends |
| Ledger.AppendUnspent | blockchain.go:482-496 | the output loop appends exactly the kept outputs |
| Ledger.RecordSpends | blockchain.go:497-502 | the input loop records each input's position under its referenced txid, unless the transaction is a coinbase |
| Ledger.ScanTransaction | blockchain.go:479-502 | the per-transaction body computes ScanTx |
| Ledger.ScanBlockTxs | blockchain.go:479-503 | the transaction loop computes ScanTxs |
| Ledger.DeleteBlocks | blockchain.go:179-184 | the delete loop computes Without |
| Ledger.LastUnspent | blockchain.go:515-523 | the output found is the last entry with the input's index, and none exactly when no entry has that index |
| Ledger.FindUnspent | blockchain.go:515-523 | the loop finds LastUnspent |
| Ledger.VerifyInput | blockchain.go:513-535 | an input verifies iff its outpoint is unspent and the first 64 script bytes, split 32/32, verify under the key in the rest, over the clean copy with this input's script replaced by the spent output's script |
| Ledger.FindInTxs | blockchain.go:447-451 | finds the first transaction with the id, or none iff none has it |
| Ledger.FindIn | blockchain.go:443-454 | searches the chain tip first and finds the first transaction with the id, or none iff no block on it holds one |
| Ledger.AddBlockAccepted | blockchain.go:222-241 | a block at height + 1 is stored under its hash and becomes the tip, and the UTXO store becomes its re-index over the new store; utxosMap is refreshed from it when re-indexing succeeds, and otherwise kept with an unspent-list-missing error; any other height errs and leaves the state unchanged |
| Ledger.ReOrgChain | blockchain.go:174-197 | for h on the chain, the chain after the reorg is the old chain from h down |
| Ledger.BlockChain.constructor | blockchain.go:76-84 | an empty store, tip, height, UTXO store and utxosMap |
| Ledger.BlockChain.PutBlock | blockchain.go:244-269 | stores the block under its hash; the tip and height move to it only when its height exceeds the current one |
| Ledger.BlockChain.AddBlock | blockchain.go:222-241 | succeeds only at height + 1; any other height gives the missing-height error with store, tip, height and utxosMap unchanged; the new state is AddBlockSpec's |
| Ledger.BlockChain.ReIndexUTXO | blockchain.go:272-364 | the new UTXO store is ReIndexed of the old one; blocks, tip, height and utxosMap are unchanged |
| Ledger.BlockChain.ScanUTXOs | blockchain.go:456-506 | the iterator loop computes the full rescan Scan of the chain |
| Ledger.BlockChain.GetBlocks | blockchain.go:366-378 | the blocks of the chain, tip first when desc and genesis first otherwise |
| Ledger.BlockChain.GetBlockHashes | blockchain.go:380-392 | the chain's hashes tip first, or exactly the reverse |
| Ledger.BlockChain.GetBlockByHash | blockchain.go:394-402 | the stored block, or none iff the hash is not stored |
| Ledger.BlockChain.GetBlockHashesAfterHash | blockchain.go:405-417 | the hashes strictly above h in ascending order, never h itself, and the whole chain when h is not on it |
| Ledger.BlockChain.GetUTXOs | blockchain.go:419-441 | the hex-keyed view of the UTXO store without the checkpoint |
| Ledger.BlockChain.FindTransaction | blockchain.go:443-454 | the first transaction with the id on the chain, tip first |
| Ledger.BlockChain.VerifyTransaction | blockchain.go:508-538 | true iff the transaction is a coinbase or every input has a script of at least 64 bytes and verifies; only inputs reached before the first failure need such a script |
| Ledger.UnlistedFirstInputStops | blockchain.go:512-526 | when the first input's output is not listed, verification stops there, so the later inputs' scripts are never sliced |
| Ledger.BlockChain.ReOrgBlockchain | blockchain.go:174-197 | deletes exactly the blocks above h, sets the tip to h and the height to h's, and leaves the other blocks alone |
| Ledger.BlockChain.ReOrgUTXO | blockchain.go:199-210 | after the checkpoint is dropped, the store is rescanned and the checkpoint becomes the tip |
| Ledger.BlockChain.ReOrg | blockchain.go:162-172 | both steps in order: the chain is cut back to h and the UTXO store is rebuilt for it |
| Ledger.BlockIterator.constructor | blockchain.go:557-573 | the iterator will yield exactly the chain from the tip |
| Ledger.BlockIterator.HasNext | blockchain.go:580-585 | true iff blocks remain |
| Ledger.BlockIterator.Next | blockchain.go:587-601 | returns the current block and moves to its predecessor, dropping it from what remains |
| Wallets.PubkeyHashOfAddress | keypair.go:69-85 | the pubkey hash read back from a key's address is RIPEMD-160 of SHA-256 of 0x04 and the key |
| Wallets.GetAddresses | wallet.go:63-73 | one address per key pair, in the map's iteration order |
| Wallets.GetPublickeyHash | wallet.go:75-86 | one hash per address, in getAddresses order |
| Wallets.GetPublickeys | wallet.go:88-95 | one public key per key pair |
| Wallets.SignMessageByKey | wallet.go:97-105 | succeeds iff ECDSA signing with the key's private key succeeds, and then gives r's minimal big-endian bytes followed by s's |
| Wallets.Scripts | wallet.go:110-121 | input i's new script is the signature over its message followed by the public key of the wallet key named by its old script |
| Wallets.WithScripts | wallet.go:122-124 | only the scripts change, so the clean copy is unchanged |
| Wallets.SignTransaction | wallet.go:107-127 | when every input signs, the transaction gets all new scripts and its JSON is returned; on the first signing error nothing is modified |
| Wallets.SignInputs | wallet.go:110-121 | the loop succeeds iff every input signs, and then produces Scripts |
| Wallets.SignInput | wallet.go:111-120 | the script for input i is signed over the clean copy with its own old script restored |
| Wallets.WriteScripts | wallet.go:122-124 | the loop writes exactly the computed scripts |
| Wallets.SignThenVerify | wallet.go:112-115 | when the pre-signing scripts are the spent outputs' scripts, each signed message is the one verification rebuilds |
| Wallets.ShortSignatureMisread | wallet.go:103 | a signature whose r is shorter than 32 bytes is split at the wrong place by verification |
| Wallets.PaddedSignatureBytes | wallet.go:103 | r and s left-padded to 32 bytes each give 64 bytes |
| Wallets.PaddedSignatureVerifies | blockchain.go:513-532 | with padded r and s, verification reads back the same r and s |
| Node.HandshakeFromNewPeer | server.go:468-482 | a version from an unknown peer is answered with version, and the peer's next version with verack |
| Node.AcknowledgedPeerReset | server.go:473-481 | an acknowledged peer that sends version again is marked unacknowledged |
| Node.SendTouchesOnlyPeer | server.go:693-797 | a send changes the maps only at the addressed peer; a failed send forgets it in both maps |
| Node.ReorgHeightInRange | server.go:523-531 | the divergence index is within the received list |
| Node.ReorgHeightNoMismatch | server.go:523-531 | with no mismatch the index is len-1 |
| Node.ReorgHeightLastMismatch | server.go:523-531 | with last mismatch at m the index is m-1, or 0 when m is 0 |
| Node.DivergenceIndex | server.go:523-531 | the loop computes ReorgHeight |
| Node.AddBlocksStops | server.go:631-640 | once a block is refused, the later blocks of the batch have no effect |
| Node.AddBlocksHeights | server.go:631-640 | a fully accepted batch has consecutive heights from the old height + 1 and raises the height by its length |
| Node.MatchOutsMember | server.go:305-311 | an output is collected for a pubkey hash iff its script equals it |
| Node.WalletScanMember | server.go:303-313 | an output is collected iff it is in the store and its script is one of the wallet's hashes |
| Node.HashesOwned | wallet.go:75-86 | a script is among the wallet's pubkey hashes iff its hex names a wallet key |
| Node.WalletUtxosOwned | server.go:298-317 | after a scan, the wallet list holds exactly the stored UTXOs whose script's hex names a wallet key |
| Node.MatchList | server.go:305-311 | the inner loops compute MatchAny |
| Node.CollectWalletUtxos | server.go:303-313 | the loop over the map computes the wallet scan, in the map's order |
| Node.SumValuesAppend | server.go:319-326 | the balance of two lists is the sum of their balances |
| Node.FirstReachingMinimal | server.go:332-342 | the selection is the shortest prefix reaching amount + fee, or the whole list when none does |
| Node.SelectUtxos | server.go:332-342 | the loop takes the outputs in order while cost < amount + fee, and the cost is their sum |
| Node.InputsFor | server.go:343-350 | one input per selected output, naming its outpoint, with the spent script as provisional script |
| Node.OutputsBalance | server.go:351-363 | when the selection covers amount + fee, the outputs total cost - fee, and the change output exists iff cost - amount - fee is positive |
| Node.BuildInputs | server.go:343-350 | the loop computes InputsFor |
| Node.BuildTransaction | server.go:343-363 | the transaction pays amount first, then any change, with the inputs in order |
| Node.WalletUtxosSignable | server.go:298-317 | every output the scan collects can be signed by a wallet key |
| Node.UnsignedSignable | server.go:343-364 | every input of the built transaction names a wallet key, so signing cannot miss a key |
| Node.SpendFrom | server.go:332-368 | the loop outcome is Created: not enough coin when the selection stays below amount + fee; then a bad address when `to`, or `change` with positive change, does not decode; then the signed JSON or a signing error |
| Node.NotEnoughCoinFirst | server.go:332-342 | not enough coin is reported, whatever the addresses, exactly when no prefix of the wallet's list reaches amount + fee |
| Node.ChangeUnreadWithoutChange | server.go:351-363 | without positive change the change address is never read: any other address gives the same outcome |
| Node.Server.constructor | server.go:157-185 | empty peer maps and outbox, and the wallet list is a scan of the chain's store |
| Node.Server.Send | server.go:791-797 | records the send; a failure forgets the peer in both maps |
| Node.Server.SendVersion | server.go:676-696 | sends version with the local height; when delivered, the peer is marked unacknowledged |
| Node.Server.SendVerack | server.go:698-714 | sends verack; when delivered, the peer is marked acknowledged |
| Node.Server.SendGetblocks | server.go:716-731 | sends getblocks with the local hashes genesis first |
| Node.Server.HandleVersion | server.go:461-483 | acts only on version 1: records the peer's height and answers verack to an unacknowledged peer, version otherwise |
| Node.Server.HandleVerack | server.go:485-511 | ignores unknown peers, answers an unacknowledged peer with verack, and sends getblocks only to an acknowledged peer that is higher than us |
| Node.Server.HandleGetBlocks | server.go:513-542 | answers an inv of the local hashes from the divergence index on |
| Node.Server.HandleInv | server.go:544-591 | with more than one hash it reorgs onto the first, then asks for the rest for blocks or all of them for tx; otherwise it asks for all and does not reorg |
| Node.Server.ScanWalletUTXOs | server.go:298-317 | the wallet list becomes the scan of the store for the wallet's hashes |
| Node.Server.GetWalletBalance | server.go:319-326 | the balance is the sum of the wallet list's values |
| Node.Server.CreateTransaction | server.go:328-369 | rescans, then selects, builds and signs as SpendFrom states |
| Node.Server.HandleBlock | server.go:619-643 | an acknowledged peer's blocks are added in order up to the first refusal; anyone else only gets a version |
| Node.Server.AcceptBlocks | server.go:631-640 | the chain ends as the batch fold says, and the wallet list is rescanned after the last accepted block |
| Node.Server.AcceptOne | server.go:632-639 | adds one block as AddBlock states and rescans the wallet only when it was accepted |

## Left out

- SHA-256, RIPEMD-160, ECDSA P-256 and `encoding/json` are fields of `Crypto`, not implementations. A JSON failure is not modelled: the Go code ignores most of these errors.
- ECDSA's randomness becomes part of the `ecdsaSign` function. The RIPEMD-160 `Write` error in keypair.go:73-76 cannot occur for an in-memory hasher and is left out.
- Network I/O is left out: sockets, dialing, `handleConnection`, `contructMsg`, the HTTP API, conn.go, cmd/* and logging. A send is a recorded event with a delivered flag passed in.
- Concurrency and the mutex are left out. Each handler is one atomic step.
- bolt storage and its errors are replaced by maps held in class fields. So are `NewBlockChain`, `CreateBlockChain`, known-node files and wallet files (`NewWallet`, `GetExistWallet`). A stored value that fails to deserialize cannot occur in the model.
- `handleTx`, `handleGetData`, `SendTransaction`, `MiningEmptyBlockAndBroadcast`, `MiningEmptyBlock`, `BlockChain.mining` and the broadcasts are left out. They orchestrate mining and network fan-out.
- `BlockchainWallet` (wallet.go:158-257) is left out. It is never constructed.
- `time.Now` in `MiningNewBlock` is left out. The timestamp is a parameter.
- Chains.Walk: the tip-to-genesis walk carries a fuel bound equal to the store's size. `Chains.WalkBudgetSuffices` shows the bound never cuts a walk short for a store whose previous-block links repeat no hash.
- Chains.Walk: a store whose previous-block links form a cycle is walked for only as many blocks as it holds, where Go's iterator never terminates. Such a store needs a cycle of SHA-256 hashes, which the model's uninterpreted hash does not rule out.
- Aliasing is not modelled. Go shares transactions, outputs and headers by reference. The model copies values, so the in-place update of `tx.Inputs[i].ScriptSig` in `signTransaction` is modelled as a returned transaction. The deep-copy promise of `copyBlockHeader` therefore holds trivially.
- Node.Server.HandleGetBlocks requires 1 <= len(hashes) <= len(local hashes). Outside that range the Go slice operations panic.
- Node.Server.HandleInv requires that the first hash be stored when more than one hash is announced. The Go reorg dereferences the missing block and panics.
- Ledger.BlockChain.VerifyTransaction requires that every input it reaches, up to the first one that fails, has a script of at least 64 bytes. `ScriptSig[:64]` panics on a shorter one.
- Wallets.SignTransaction requires every input's script to name a wallet key. The Go lookup returns a nil key pair and panics otherwise.
- Wallets.SignMessageByKey requires the key to be in the wallet, for the same reason.
- Node.Server.CreateTransaction returns the error `BadAddress` where Go's `AddressToPubkeyHash` panics: enough coin was found, but `to`, or `change` with positive change, decodes to fewer than 5 bytes. Node.BuildTransaction and Node.OutputsFor require those addresses to decode, because they run after that check.
- TxOutput.AddressToPubkeyHash, TxOutput.CreateCoinbaseTxOut, Transactions.CreateCoinBaseTransaction, Blocks.BlockTransactions, Blocks.MiningNewBlock and Blocks.CreateGenesisBlock require the miner's or payee's address to decode to at least 5 bytes. Go's `decodeAddr[1:len(decodeAddr)-4]` panics on a shorter one.
- Integer width is not modelled. Go's `int` holds TxOut.Value, the cost and balance sums in createTransaction and GetWalletBalance, Height and the UTXO indices. The model uses unbounded integers, so a 64-bit wrap-around of those sums is not captured.
- Bytes.CutBytes requires its bounds to lie within the slice. The Go slice expression panics otherwise.
- Merkle.NewMerkleTree and Merkle.CalculateMerkleRoot require at least one leaf. The Go code indexes the empty node list and panics otherwise.
- Blocks.LittleEndianUint32 requires at least 4 bytes. `binary.LittleEndian.Uint32` panics on fewer.
- Ledger.BlockChain.ReOrgBlockchain and Ledger.BlockChain.ReOrg require the hash to be stored. The Go code dereferences the missing block and panics otherwise.
- Base58.Base58Encode and Base58.Base58Decode require non-empty input, because the Go code indexes `input[0]`. An unknown character adds -1 in both, and the model takes the absolute value of a negative sum where Go's `big.Int.Bytes` does.
- ProofOfWork.ProofOfWork.Mining searches the 2^32 nonces once and reports whether it found one. The Go loop never returns when none works, because its counter wraps.
- Ledger.BlockChain.ReOrg does not refresh `utxosMap`, just as the source does not.

## Findings

| source | as written | input that shows it | evidently intended | confidence | as-written member | corrected member |
|---|---|---|---|---|---|---|
| wallet.go:103, blockchain.go:513-531 | the signature is `r.Bytes()` followed by `s.Bytes()`, each of minimal length, but verification splits the first 64 bytes into two 32-byte halves | r = 1 and s = 2^248 with a 64-byte key: the first 32 script bytes read back as a value other than r | r and s each left-padded to 32 bytes, so the 32/32 split reads back the same r and s | not executed | Wallets.ShortSignatureMisread | Wallets.PaddedSignatureVerifies |

The model's `SignTransaction` keeps the source's minimal-length layout. `Wallets.PaddedSignatureBytes` is the corrected layout, and `Wallets.PaddedSignatureVerifies` proves that verification then recovers r and s.
