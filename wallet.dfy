/**
 * wallet.go: a wallet's key pairs, the listings of their public keys,
 * addresses and public-key hashes, and the signing of every input of a
 * transaction.
 */
module Wallets {
  import opened Results
  import opened Bytes
  import opened Types
  import Hex
  import Base58
  import opened TxOutput
  import opened Transactions
  import Chains
  import Utxos
  import Ledger

  /** Wallet.KeyPairs: the key pairs by the hex of their public-key hash. */
  type KeyPairs = map<Bytes, KeyPair>

  const NetworkVersion: Byte := 0x00
  const ChecksumLength: nat := 4
  /** The uncompressed-point marker publicKeyToAddr puts before the key. */
  const UncompressedPrefix: Byte := 0x04

  // ---------------------------------------------------------- addresses

  /** The RIPEMD-160 of the SHA-256 of 0x04 ‖ key. */
  function Hash160(c: Crypto, publicKey: Bytes): Bytes
  {
    c.ripemd160(c.sha256([UncompressedPrefix] + publicKey))
  }

  /** publicKeyToAddr: Base58 of the version byte, the key's hash and the first four bytes of their double SHA-256. */
  function PublicKeyToAddr(c: Crypto, publicKey: Bytes): Bytes
  {
    var hash := [NetworkVersion] + Hash160(c, publicKey);
    Base58.Encoding(hash + DoubleSha256(c, hash)[..ChecksumLength])
  }

  /**
   * The public-key hash read back out of a key's address is the key's
   * RIPEMD-160 hash whenever that hash does not start with a zero byte.
   */
  lemma PubkeyHashOfAddress(c: Crypto, publicKey: Bytes)
    requires |Hash160(c, publicKey)| >= 1 && Hash160(c, publicKey)[0] != 0
    ensures DecodableAddress(PublicKeyToAddr(c, publicKey))
    ensures AddressToPubkeyHash(PublicKeyToAddr(c, publicKey)) == Hash160(c, publicKey)
  {
    var h := Hash160(c, publicKey);
    var hash := [NetworkVersion] + h;
    var checksum := DoubleSha256(c, hash)[..ChecksumLength];
    AddressRoundTrip(h, checksum);
    assert hash + checksum == [0] + h + checksum;
  }

  /** getPublickeyHash's entry for one key: its address without version byte and checksum. */
  function PubkeyHash(c: Crypto, publicKey: Bytes): Bytes
    requires DecodableAddress(PublicKeyToAddr(c, publicKey))
  {
    AddressToPubkeyHash(PublicKeyToAddr(c, publicKey))
  }

  /** Every key's address decodes to at least five bytes, so that its hash can be sliced out. */
  predicate AddressesDecode(c: Crypto, keyPairs: KeyPairs)
  {
    forall k :: k in keyPairs ==> DecodableAddress(PublicKeyToAddr(c, keyPairs[k].publicKey))
  }

  /** Every key pair is stored under the hex of its public-key hash, as NewWallet stores it. */
  predicate WellKeyed(c: Crypto, keyPairs: KeyPairs)
  {
    AddressesDecode(c, keyPairs) &&
    forall k :: k in keyPairs ==> k == Hex.EncodeToString(PubkeyHash(c, keyPairs[k].publicKey))
  }

  // ------------------------------------------------------------ listings

  /** `order` lists every key of `m` exactly once: one visiting order of a range over the map. */
  predicate Enumerates<V>(order: seq<Bytes>, m: map<Bytes, V>)
  {
    Chains.NoDup(order) &&
    (forall i :: 0 <= i < |order| ==> order[i] in m) &&
    (forall k :: k in m ==> k in order)
  }

  /** An enumeration has one entry per key. */
  lemma EnumeratesCard<V>(order: seq<Bytes>, m: map<Bytes, V>)
    requires Enumerates(order, m)
    ensures |order| == |m|
  {
    Chains.NoDupCard(order);
    assert (set x | x in order) == m.Keys;
  }

  /** getAddresses: one address per key pair, in the map's visiting order. */
  method GetAddresses(c: Crypto, keyPairs: KeyPairs) returns (addresses: seq<Bytes>, ghost order: seq<Bytes>)
    ensures Enumerates(order, keyPairs) && |addresses| == |keyPairs|
    ensures |addresses| == |order|
    ensures forall i :: 0 <= i < |order| ==> addresses[i] == PublicKeyToAddr(c, keyPairs[order[i]].publicKey)
  {
    addresses := [];
    order := [];
    var pending := keyPairs.Keys;
    while pending != {}
      invariant pending <= keyPairs.Keys
      invariant Chains.NoDup(order)
      invariant forall i :: 0 <= i < |order| ==> order[i] in keyPairs && order[i] !in pending
      invariant forall k :: k in keyPairs ==> k in pending || k in order
      invariant |addresses| == |order|
      invariant forall i :: 0 <= i < |order| ==> addresses[i] == PublicKeyToAddr(c, keyPairs[order[i]].publicKey)
      decreases pending
    {
      var k :| k in pending;
      addresses := addresses + [PublicKeyToAddr(c, keyPairs[k].publicKey)];
      order := order + [k];
      pending := pending - {k};
    }
    EnumeratesCard(order, keyPairs);
  }

  /** getPublickeyHash: one public-key hash per key pair, in getAddresses' order. */
  method GetPublickeyHash(c: Crypto, keyPairs: KeyPairs) returns (hashes: seq<Bytes>, ghost order: seq<Bytes>)
    requires AddressesDecode(c, keyPairs)
    ensures Enumerates(order, keyPairs) && |hashes| == |keyPairs|
    ensures |hashes| == |order|
    ensures forall i :: 0 <= i < |order| ==> hashes[i] == PubkeyHash(c, keyPairs[order[i]].publicKey)
  {
    var addresses;
    addresses, order := GetAddresses(c, keyPairs);
    hashes := [];
    for i := 0 to |addresses|
      invariant |hashes| == i
      invariant forall k :: 0 <= k < i ==> hashes[k] == PubkeyHash(c, keyPairs[order[k]].publicKey)
    {
      hashes := hashes + [AddressToPubkeyHash(addresses[i])];
    }
  }

  /** getPublickeys: one public key per key pair, in the map's visiting order. */
  method GetPublickeys(keyPairs: KeyPairs) returns (publicKeys: seq<Bytes>, ghost order: seq<Bytes>)
    ensures Enumerates(order, keyPairs) && |publicKeys| == |keyPairs|
    ensures |publicKeys| == |order|
    ensures forall i :: 0 <= i < |order| ==> publicKeys[i] == keyPairs[order[i]].publicKey
  {
    publicKeys := [];
    order := [];
    var pending := keyPairs.Keys;
    while pending != {}
      invariant pending <= keyPairs.Keys
      invariant Chains.NoDup(order)
      invariant forall i :: 0 <= i < |order| ==> order[i] in keyPairs && order[i] !in pending
      invariant forall k :: k in keyPairs ==> k in pending || k in order
      invariant |publicKeys| == |order|
      invariant forall i :: 0 <= i < |order| ==> publicKeys[i] == keyPairs[order[i]].publicKey
      decreases pending
    {
      var k :| k in pending;
      publicKeys := publicKeys + [keyPairs[k].publicKey];
      order := order + [k];
      pending := pending - {k};
    }
    EnumeratesCard(order, keyPairs);
  }

  // ------------------------------------------------------------- signing

  /** r then s, each in big.Int's minimal big-endian form, as signMessageByKey joins them. */
  function SignatureBytes(r: nat, s: nat): Bytes
  {
    MinimalBigEndian(r) + MinimalBigEndian(s)
  }

  /** signMessageByKey: ECDSA with the private key stored under `key`; None when signing fails. */
  function SignMessageByKey(c: Crypto, keyPairs: KeyPairs, key: Bytes, message: Bytes): (r: Option<Bytes>)
    requires key in keyPairs
    ensures r.Some? <==> c.ecdsaSign(keyPairs[key].privateKey, message).Some?
    ensures r.Some? ==>
              var rs := c.ecdsaSign(keyPairs[key].privateKey, message).value;
              r.value == MinimalBigEndian(rs.0) + MinimalBigEndian(rs.1)
  {
    match c.ecdsaSign(keyPairs[key].privateKey, message)
    case None => None
    case Some(rs) => Some(SignatureBytes(rs.0, rs.1))
  }

  /** The wallet key signTransaction uses for an input: the hex of its pre-signing script. */
  function KeyOf(input: TxIn): Bytes
  {
    Hex.EncodeToString(input.scriptSig)
  }

  /**
   * The new script of input i: the signature of the message in which only
   * input i keeps its pre-signing script, followed by the public key.
   */
  function InputScript(c: Crypto, keyPairs: KeyPairs, tx: Transaction, i: nat): Option<Bytes>
    requires i < |tx.inputs| && KeyOf(tx.inputs[i]) in keyPairs
  {
    var key := KeyOf(tx.inputs[i]);
    var signature := SignMessageByKey(c, keyPairs, key, c.txJson(SigningMessage(tx, i, tx.inputs[i].scriptSig)));
    if signature.None? then None else Some(signature.value + keyPairs[key].publicKey)
  }

  /** The first n inputs have their keys in the wallet and sign without error. */
  predicate SignsBefore(c: Crypto, keyPairs: KeyPairs, tx: Transaction, n: nat)
    requires n <= |tx.inputs|
  {
    forall i :: 0 <= i < n ==> KeyOf(tx.inputs[i]) in keyPairs && InputScript(c, keyPairs, tx, i).Some?
  }

  /** One more input signs, or the signing stops there for good. */
  lemma SignsBeforeStep(c: Crypto, keyPairs: KeyPairs, tx: Transaction, i: nat)
    requires i < |tx.inputs| && SignsBefore(c, keyPairs, tx, i) && KeyOf(tx.inputs[i]) in keyPairs
    ensures InputScript(c, keyPairs, tx, i).Some? ==> SignsBefore(c, keyPairs, tx, i + 1)
    ensures InputScript(c, keyPairs, tx, i).None? ==> !SignsBefore(c, keyPairs, tx, |tx.inputs|)
  {
  }

  /** The new scripts of all inputs, when every input signs. */
  function Scripts(c: Crypto, keyPairs: KeyPairs, tx: Transaction): (r: seq<Bytes>)
    requires SignsBefore(c, keyPairs, tx, |tx.inputs|)
    ensures |r| == |tx.inputs|
    ensures forall i :: 0 <= i < |tx.inputs| ==> Some(r[i]) == InputScript(c, keyPairs, tx, i)
  {
    seq(|tx.inputs|, i requires 0 <= i < |tx.inputs| => InputScript(c, keyPairs, tx, i).value)
  }

  /** The transaction with its unlocking scripts replaced: nothing else changes. */
  function WithScripts(tx: Transaction, scripts: seq<Bytes>): (r: Transaction)
    requires |scripts| == |tx.inputs|
    ensures |r.inputs| == |tx.inputs|
    ensures forall i :: 0 <= i < |tx.inputs| ==> r.inputs[i].scriptSig == scripts[i]
    ensures CopyCleanScriptSigTx(r) == CopyCleanScriptSigTx(tx)
  {
    var inputs := seq(|tx.inputs|, i requires 0 <= i < |tx.inputs| => tx.inputs[i].(scriptSig := scripts[i]));
    var r := Transaction(inputs, tx.outputs, tx.lockTime);
    CopyCleanIgnoresScripts(r, tx);
    r
  }

  /**
   * signTransaction: every input's new script is computed from the unsigned
   * transaction first; only when all of them sign are the scripts written,
   * and the JSON of the signed transaction returned. A failure returns
   * before any script is written.
   */
  method SignTransaction(c: Crypto, keyPairs: KeyPairs, tx: Transaction) returns (signed: Transaction, raw: Option<Bytes>)
    requires forall i :: 0 <= i < |tx.inputs| && SignsBefore(c, keyPairs, tx, i) ==> KeyOf(tx.inputs[i]) in keyPairs
    ensures SignsBefore(c, keyPairs, tx, |tx.inputs|) ==>
              signed == WithScripts(tx, Scripts(c, keyPairs, tx)) && raw == Some(c.txJson(signed))
    ensures !SignsBefore(c, keyPairs, tx, |tx.inputs|) ==> signed == tx && raw == None
  {
    var scriptSigs, ok := SignInputs(c, keyPairs, tx);
    if !ok {
      return tx, None;
    }
    signed := WriteScripts(tx, scriptSigs);
    raw := Some(c.txJson(signed));
  }

  /** signTransaction's first loop: each input's new script, stopping at the first signing error. */
  method SignInputs(c: Crypto, keyPairs: KeyPairs, tx: Transaction) returns (scripts: seq<Bytes>, ok: bool)
    requires forall i :: 0 <= i < |tx.inputs| && SignsBefore(c, keyPairs, tx, i) ==> KeyOf(tx.inputs[i]) in keyPairs
    ensures ok <==> SignsBefore(c, keyPairs, tx, |tx.inputs|)
    ensures ok ==> scripts == Scripts(c, keyPairs, tx)
  {
    var scriptSigs := new Bytes[|tx.inputs|];
    for i := 0 to |tx.inputs|
      invariant SignsBefore(c, keyPairs, tx, i)
      invariant forall k :: 0 <= k < i ==> Some(scriptSigs[k]) == InputScript(c, keyPairs, tx, k)
    {
      var script := SignInput(c, keyPairs, tx, i);
      SignsBeforeStep(c, keyPairs, tx, i);
      if script.None? {
        return [], false;
      }
      scriptSigs[i] := script.value;
    }
    scripts, ok := scriptSigs[..], true;
    assert scripts == Scripts(c, keyPairs, tx);
  }

  /** The body of signTransaction's first loop for input i. */
  method SignInput(c: Crypto, keyPairs: KeyPairs, tx: Transaction, i: nat) returns (script: Option<Bytes>)
    requires i < |tx.inputs| && KeyOf(tx.inputs[i]) in keyPairs
    ensures script == InputScript(c, keyPairs, tx, i)
  {
    var input := tx.inputs[i];
    var key := Hex.EncodeToString(input.scriptSig);
    var temp := input.scriptSig;
    var cleanTx := CopyCleanScriptSigTx(tx);
    cleanTx := cleanTx.(inputs := cleanTx.inputs[i := cleanTx.inputs[i].(scriptSig := temp)]);
    assert cleanTx == SigningMessage(tx, i, input.scriptSig);
    var signature := SignMessageByKey(c, keyPairs, key, c.txJson(cleanTx));
    if signature.None? {
      return None;
    }
    script := Some(signature.value + keyPairs[key].publicKey);
  }

  /** signTransaction's second loop: the scripts written into the inputs, one by one. */
  method WriteScripts(tx: Transaction, scriptSigs: seq<Bytes>) returns (signed: Transaction)
    requires |scriptSigs| == |tx.inputs|
    ensures signed == WithScripts(tx, scriptSigs)
  {
    var inputs := tx.inputs;
    for i := 0 to |scriptSigs|
      invariant |inputs| == |tx.inputs|
      invariant forall k :: 0 <= k < i ==> inputs[k] == tx.inputs[k].(scriptSig := scriptSigs[k])
      invariant forall k :: i <= k < |inputs| ==> inputs[k] == tx.inputs[k]
    {
      inputs := inputs[i := inputs[i].(scriptSig := scriptSigs[i])];
    }
    signed := tx.(inputs := inputs);
    assert signed.inputs == WithScripts(tx, scriptSigs).inputs;
  }

  /**
   * Signing then verifying: when input i's pre-signing script is the
   * script of the output verifyTransaction finds for it, ECDSA accepts its
   * own signature, and r and s are both 32 bytes long, verifyTransaction
   * accepts input i of the signed transaction.
   */
  lemma SignThenVerify(c: Crypto, keyPairs: KeyPairs, tx: Transaction, i: nat, utxosMap: map<Bytes, seq<UTXO>>)
    requires SignsBefore(c, keyPairs, tx, |tx.inputs|) && i < |tx.inputs|
    requires var input := tx.inputs[i];
             var prev := Ledger.LastUnspent(Utxos.Get(utxosMap, Hex.EncodeToString(input.prevTxHash)), input.prevTxOutIndex);
             prev.Some? && prev.value.scriptPubKey == input.scriptSig
    requires var kp := keyPairs[KeyOf(tx.inputs[i])];
             var m := c.txJson(SigningMessage(tx, i, tx.inputs[i].scriptSig));
             var rs := c.ecdsaSign(kp.privateKey, m);
             rs.Some? && |MinimalBigEndian(rs.value.0)| == 32 && |MinimalBigEndian(rs.value.1)| == 32 &&
             c.ecdsaVerify(kp.publicKey, m, rs.value.0, rs.value.1)
    ensures var signed := WithScripts(tx, Scripts(c, keyPairs, tx));
            |signed.inputs[i].scriptSig| >= 64 && Ledger.InputVerifies(c, utxosMap, signed, i)
  {
    var signed := WithScripts(tx, Scripts(c, keyPairs, tx));
    var input := tx.inputs[i];
    var kp := keyPairs[KeyOf(input)];
    var m := SigningMessage(tx, i, input.scriptSig);
    var rs := c.ecdsaSign(kp.privateKey, c.txJson(m)).value;
    var rb, sb := MinimalBigEndian(rs.0), MinimalBigEndian(rs.1);
    var script := signed.inputs[i].scriptSig;
    assert script == rb + sb + kp.publicKey;
    assert script[..32] == rb && script[32..64] == sb && script[64..] == kp.publicKey;
    BigEndianRoundTrip(rs.0);
    BigEndianRoundTrip(rs.1);
    assert signed.inputs[i].prevTxHash == input.prevTxHash && signed.inputs[i].prevTxOutIndex == input.prevTxOutIndex;
    assert SigningMessage(signed, i, input.scriptSig) == m;
  }

  // --------------------------------------------- signature layout (finding)

  /**
   * The signature layout as written: when r has fewer than 32 significant
   * bytes, the first 32 bytes of the script that verifyTransaction reads
   * as r take in a byte of s, so a different r is verified.
   */
  lemma ShortSignatureMisread(publicKey: Bytes)
    requires |publicKey| == 64
    ensures var s := FromBigEndian([1] + Zeros(31));
            var script := SignatureBytes(1, s) + publicKey;
            |script| >= 64 && FromBigEndian(script[..32]) != 1
  {
    var sb := [1] + Zeros(31);
    MinimalOfValue(sb);
    MinimalOfValue([1]);
    assert FromBigEndian([1]) == 1;
    var script := SignatureBytes(1, FromBigEndian(sb)) + publicKey;
    assert script == [1] + sb + publicKey;
    var rest := [1] + Zeros(30);
    assert script[..32] == [1] + rest;
    FromBigEndianAppend([1], rest);
    assert Pow256(31) == 256 * Pow256(30);
  }

  /** `b` preceded by zero bytes up to length n: the same big-endian value. */
  function LeftPad(b: Bytes, n: nat): (r: Bytes)
    requires |b| <= n
    ensures |r| == n && FromBigEndian(r) == FromBigEndian(b)
  {
    ZerosPrefixValue(n - |b|, b);
    Zeros(n - |b|) + b
  }

  lemma {:induction false} ZerosPrefixValue(k: nat, b: Bytes)
    ensures FromBigEndian(Zeros(k) + b) == FromBigEndian(b)
  {
    FromBigEndianAppend(Zeros(k), b);
    ZerosValue(k);
  }

  /** A value below 256^n has at most n significant bytes. */
  lemma {:induction false} MinimalBigEndianLength(v: nat, n: nat)
    requires v < Pow256(n)
    ensures |MinimalBigEndian(v)| <= n
  {
    if v > 0 {
      assert n > 0;
      MinimalBigEndianLength(v / 256, n - 1);
    }
  }

  /** The corrected layout: r and s each left-padded to 32 bytes. */
  function PaddedSignatureBytes(r: nat, s: nat): (sig: Bytes)
    requires r < Pow256(32) && s < Pow256(32)
    ensures |sig| == 64
  {
    MinimalBigEndianLength(r, 32);
    MinimalBigEndianLength(s, 32);
    LeftPad(MinimalBigEndian(r), 32) + LeftPad(MinimalBigEndian(s), 32)
  }

  /** With the corrected layout verifyTransaction's check is ECDSA over exactly the signed r, s and key. */
  lemma PaddedSignatureVerifies(c: Crypto, r: nat, s: nat, publicKey: Bytes, message: Transaction)
    requires r < Pow256(32) && s < Pow256(32)
    ensures var script := PaddedSignatureBytes(r, s) + publicKey;
            |script| >= 64 &&
            (Ledger.SignatureVerifies(c, script, message) <==> c.ecdsaVerify(publicKey, c.txJson(message), r, s))
  {
    MinimalBigEndianLength(r, 32);
    MinimalBigEndianLength(s, 32);
    var rb := LeftPad(MinimalBigEndian(r), 32);
    var sb := LeftPad(MinimalBigEndian(s), 32);
    var script := PaddedSignatureBytes(r, s) + publicKey;
    assert script[..32] == rb && script[32..64] == sb && script[64..] == publicKey;
    BigEndianRoundTrip(r);
    BigEndianRoundTrip(s);
  }
}
