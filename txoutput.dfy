/** Outputs (txoutput.go): the block reward and addresses turned into public-key hashes. */
module TxOutput {
  import opened Bytes
  import opened Types
  import Base58

  const CoinbaseReward: int := 5000000000

  /** isCoinbaseTxOut looks at the value only. */
  predicate IsCoinbaseTxOut(txOut: TxOut)
  {
    txOut.value == CoinbaseReward
  }

  /** Whether an output counts as a reward does not depend on its locking script. */
  lemma CoinbaseTxOutAnyScript(txOut: TxOut, script: Bytes)
    ensures IsCoinbaseTxOut(txOut.(scriptPubKey := script)) == IsCoinbaseTxOut(txOut)
  {
  }

  /** An address whose Base58 decoding has room for a version byte and a 4-byte checksum. */
  predicate DecodableAddress(address: Bytes)
  {
    |address| >= 1 && |Base58.Decoding(address)| >= 5
  }

  /** AddressToPubkeyHash: the decoded address without its version byte and checksum. */
  function AddressToPubkeyHash(address: Bytes): (r: Bytes)
    requires DecodableAddress(address)
    ensures var d := Base58.Decoding(address); |r| == |d| - 5 && r == d[1..|d| - 4]
  {
    var decoded := Base58.Decoding(address);
    decoded[1..|decoded| - 4]
  }

  /** A 25-byte decoded address (version, 20-byte hash, checksum) yields a 20-byte hash. */
  lemma PubkeyHashOfStandardAddress(address: Bytes)
    requires |address| >= 1 && |Base58.Decoding(address)| == 25
    ensures |AddressToPubkeyHash(address)| == 20
  {
  }

  /**
   * An address built as Base58(0x00 ‖ hash ‖ checksum) gives the hash back
   * when the hash does not itself start with a zero byte.
   */
  lemma AddressRoundTrip(hash: Bytes, checksum: Bytes)
    requires |checksum| == 4 && |hash| >= 1 && hash[0] != 0
    ensures var address := Base58.Encoding([0] + hash + checksum);
            DecodableAddress(address) && AddressToPubkeyHash(address) == hash
  {
    var payload := [0] + hash + checksum;
    Base58.RoundTrip(payload);
    assert payload[1..|payload| - 4] == hash;
  }

  /** A hash that starts with one zero byte loses it: the two leading zeros of the payload decode as one. */
  lemma ZeroLeadingHashShrinks(hash: Bytes, checksum: Bytes)
    requires |checksum| == 4 && |hash| >= 2 && hash[0] == 0 && hash[1] != 0
    ensures var address := Base58.Encoding([0] + hash + checksum);
            DecodableAddress(address) && AddressToPubkeyHash(address) == hash[1..]
  {
    var payload := [0] + hash + checksum;
    var shorter := hash + checksum;
    Base58.LeadingZeroValue(payload);
    assert payload[1..] == shorter;
    assert Base58.Encoding(payload) == Base58.Encoding(shorter);
    Base58.RoundTrip(shorter);
    assert shorter[1..|shorter| - 4] == hash[1..];
  }

  /** CreateCoinbaseTxOut: the reward, locked to the miner's public-key hash. */
  function CreateCoinbaseTxOut(address: Bytes): (r: TxOut)
    requires DecodableAddress(address)
    ensures IsCoinbaseTxOut(r)
    ensures r.scriptPubKey == AddressToPubkeyHash(address)
  {
    TxOut(CoinbaseReward, AddressToPubkeyHash(address))
  }
}
