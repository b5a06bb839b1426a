/** Block headers (blockheader.go). */
module BlockHeaders {
  import opened Types

  /**
   * copyBlockHeader: a header with freshly allocated PrevBlock and
   * MerkleRoot holding the same bytes, and every other field copied.
   */
  function CopyBlockHeader(h: BlockHeader): (r: BlockHeader)
    ensures r.version == h.version && r.timeStamp == h.timeStamp && r.bits == h.bits
    ensures r.nonce == h.nonce && r.height == h.height
    ensures |r.prevBlock| == |h.prevBlock| && forall k :: 0 <= k < |h.prevBlock| ==> r.prevBlock[k] == h.prevBlock[k]
    ensures |r.merkleRoot| == |h.merkleRoot| && forall k :: 0 <= k < |h.merkleRoot| ==> r.merkleRoot[k] == h.merkleRoot[k]
  {
    var newPrevBlock := seq(|h.prevBlock|, k requires 0 <= k < |h.prevBlock| => h.prevBlock[k]);
    var newMerkleRoot := seq(|h.merkleRoot|, k requires 0 <= k < |h.merkleRoot| => h.merkleRoot[k]);
    BlockHeader(h.version, newPrevBlock, newMerkleRoot, h.timeStamp, h.bits, h.nonce, h.height)
  }

  /** As values, the copy equals the original. */
  lemma CopyIsEqual(h: BlockHeader)
    ensures CopyBlockHeader(h) == h
  {
  }
}
