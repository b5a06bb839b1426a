/**
 * The block store of blockchain.go as a map from identity hash to block,
 * and the walk its BlockIterator makes: from a hash, the stored block,
 * then the block stored under its PrevBlock, until a lookup misses.
 *
 * A store in which PrevBlock links form a cycle (which would take a block
 * committing to the hash of one of its own descendants) makes the original
 * walk run forever; here the walk takes at most as many steps as there are
 * stored blocks, and WalkBudgetSuffices shows that this cuts only walks
 * that would repeat a hash.
 */
module Chains {
  import opened Results
  import opened Bytes
  import opened Types

  type Store = map<Bytes, Block>

  /** getBlockByHash: the stored block, or nothing (the original's nil). */
  function Lookup(blocks: Store, h: Bytes): (r: Option<Block>)
    ensures r.Some? <==> h in blocks
    ensures r.Some? ==> r.value == blocks[h]
  {
    if h in blocks then Some(blocks[h]) else None
  }

  /** The hashes the walk visits from `h`, at most `fuel` of them. */
  function Walk(blocks: Store, h: Bytes, fuel: nat): (r: seq<Bytes>)
    ensures |r| <= fuel
    ensures forall i :: 0 <= i < |r| ==> r[i] in blocks
    ensures r != [] <==> fuel > 0 && h in blocks
    ensures r != [] ==> r[0] == h
    decreases fuel
  {
    if fuel == 0 || h !in blocks then [] else [h] + Walk(blocks, blocks[h].header.prevBlock, fuel - 1)
  }

  /** Each visited block's successor in the walk is the one stored under its PrevBlock. */
  lemma {:induction false} WalkLinks(blocks: Store, h: Bytes, fuel: nat, i: nat)
    requires i + 1 < |Walk(blocks, h, fuel)|
    ensures Walk(blocks, h, fuel)[i + 1] == blocks[Walk(blocks, h, fuel)[i]].header.prevBlock
    decreases i
  {
    if i > 0 {
      WalkLinks(blocks, blocks[h].header.prevBlock, fuel - 1, i - 1);
    }
  }

  /** The walk from the k-th visited hash is the rest of the walk. */
  lemma {:induction false} WalkSuffix(blocks: Store, h: Bytes, fuel: nat, k: nat)
    requires k < |Walk(blocks, h, fuel)|
    ensures Walk(blocks, h, fuel)[k..] == Walk(blocks, Walk(blocks, h, fuel)[k], fuel - k)
    decreases k
  {
    if k > 0 {
      var w := Walk(blocks, h, fuel);
      WalkSuffix(blocks, blocks[h].header.prevBlock, fuel - 1, k - 1);
      assert w[k..] == w[1..][k - 1..];
    }
  }

  /** A walk that only visits hashes kept in a smaller store is the same walk there. */
  lemma {:induction false} WalkRestrict(blocks: Store, rest: Store, h: Bytes, fuel: nat)
    requires forall x :: x in rest ==> x in blocks && rest[x] == blocks[x]
    requires forall i :: 0 <= i < |Walk(blocks, h, fuel)| ==> Walk(blocks, h, fuel)[i] in rest
    ensures Walk(rest, h, fuel) == Walk(blocks, h, fuel)
    decreases fuel
  {
    var w := Walk(blocks, h, fuel);
    if fuel > 0 && h in blocks {
      assert w[0] in rest;
      var p := blocks[h].header.prevBlock;
      var pw := Walk(blocks, p, fuel - 1);
      assert pw == w[1..];
      forall i | 0 <= i < |pw| ensures pw[i] in rest {
        assert pw[i] == w[i + 1];
      }
      WalkRestrict(blocks, rest, p, fuel - 1);
    }
  }

  // ------------------------------------------------------- repeated hashes

  predicate NoDup(s: seq<Bytes>)
  {
    forall i, j :: 0 <= i < j < |s| ==> s[i] != s[j]
  }

  lemma {:induction false} NoDupCard(s: seq<Bytes>)
    requires NoDup(s)
    ensures |set x | x in s| == |s|
  {
    if s != [] {
      var t := s[1..];
      NoDupCard(t);
      assert (set x | x in s) == {s[0]} + (set x | x in t);
      assert s[0] !in (set x | x in t);
    }
  }

  lemma SubsetCard(a: set<Bytes>, b: set<Bytes>)
    requires a <= b
    ensures |a| <= |b|
  {
    assert b == a + (b - a);
  }

  /**
   * With as many steps as there are stored blocks plus one, a walk that
   * repeats no hash has already missed a lookup within the stored-block count.
   */
  lemma WalkBudgetSuffices(blocks: Store, h: Bytes)
    requires NoDup(Walk(blocks, h, |blocks| + 1))
    ensures |Walk(blocks, h, |blocks| + 1)| <= |blocks|
  {
    var w := Walk(blocks, h, |blocks| + 1);
    NoDupCard(w);
    SubsetCard((set x | x in w), blocks.Keys);
  }

  // ---------------------------------------------------------- listings

  /** The elements of `s` before the first `h`; all of `s` when `h` is absent. */
  function Prefix(s: seq<Bytes>, h: Bytes): (r: seq<Bytes>)
    ensures h !in r
    ensures |r| <= |s| && r == s[..|r|]
    ensures h !in s <==> r == s
    ensures h in s ==> s[|r|] == h
  {
    if s == [] then [] else if s[0] == h then [] else [s[0]] + Prefix(s[1..], h)
  }

  /** A sequence in the opposite order. */
  function Rev(s: seq<Bytes>): (r: seq<Bytes>)
    ensures |r| == |s|
    ensures forall i :: 0 <= i < |s| ==> r[i] == s[|s| - 1 - i]
  {
    seq(|s|, i requires 0 <= i < |s| => s[|s| - 1 - i])
  }

  lemma RevInvolution(s: seq<Bytes>)
    ensures Rev(Rev(s)) == s
  {
  }

  /** Removing a list of keys from the store. */
  function Without(blocks: Store, hashes: seq<Bytes>): (r: Store)
    ensures forall x :: x in r <==> x in blocks && x !in hashes
    ensures forall x :: x in r ==> r[x] == blocks[x]
  {
    map x | x in blocks && x !in hashes :: blocks[x]
  }

  /** Removing k distinct stored hashes leaves k blocks fewer. */
  lemma WithoutCard(blocks: Store, hashes: seq<Bytes>)
    requires NoDup(hashes)
    requires forall i :: 0 <= i < |hashes| ==> hashes[i] in blocks
    ensures |Without(blocks, hashes)| == |blocks| - |hashes|
  {
    var gone := set x | x in hashes;
    NoDupCard(hashes);
    assert gone <= blocks.Keys;
    assert Without(blocks, hashes).Keys == blocks.Keys - gone;
    assert blocks.Keys == Without(blocks, hashes).Keys + gone;
  }

  /** In a sequence without repeats, nothing from position k on occurs before k. */
  lemma LaterNotBefore(s: seq<Bytes>, k: nat)
    requires NoDup(s) && k <= |s|
    ensures NoDup(s[..k])
    ensures forall i :: k <= i < |s| ==> s[i] !in s[..k]
  {
  }

  /** Positions from k on of a sequence of stored hashes, none of which occurs before k, stay stored. */
  lemma TailKept(blocks: Store, w: seq<Bytes>, k: nat)
    requires k <= |w|
    requires forall i :: 0 <= i < |w| ==> w[i] in blocks
    requires forall i :: k <= i < |w| ==> w[i] !in w[..k]
    ensures forall i :: k <= i < |w| ==> w[i] in Without(blocks, w[..k])
  {
  }

  /** Removing the first k hashes of a walk, when none of them comes back later, leaves the rest of the walk. */
  lemma RestWalk(blocks: Store, rest: Store, top: Bytes, k: nat, h: Bytes, fuel: nat)
    requires k < |Walk(blocks, top, |blocks|)|
    requires h == Walk(blocks, top, |blocks|)[k] && fuel == |blocks| - k
    requires forall x :: x in rest ==> x in blocks && rest[x] == blocks[x]
    requires var w := Walk(blocks, top, |blocks|);
             forall i :: k <= i < |w| ==> w[i] in rest
    ensures Walk(rest, h, fuel) == Walk(blocks, top, |blocks|)[k..]
  {
    var w := Walk(blocks, top, |blocks|);
    WalkSuffix(blocks, top, |blocks|, k);
    var tail := Walk(blocks, h, fuel);
    forall i | 0 <= i < |tail| ensures tail[i] in rest {
      assert tail[i] == w[k + i];
    }
    WalkRestrict(blocks, rest, h, fuel);
  }

  /**
   * ReOrgBlockchain's effect on the chain: when the walk from the tip
   * repeats no hash and passes h, removing the hashes above h leaves exactly
   * the walk's rest from h as the chain from h, and one block fewer per
   * removed hash.
   */
  lemma ReOrgLeavesSuffix(blocks: Store, top: Bytes, h: Bytes)
    requires NoDup(Walk(blocks, top, |blocks|))
    requires h in Walk(blocks, top, |blocks|)
    ensures var w := Walk(blocks, top, |blocks|);
            var above := Prefix(w, h);
            var rest := Without(blocks, above);
            |rest| == |blocks| - |above| && Walk(rest, h, |rest|) == w[|above|..]
  {
    var w := Walk(blocks, top, |blocks|);
    var above := Prefix(w, h);
    var k := |above|;
    assert above == w[..k] && w[k] == h;
    LaterNotBefore(w, k);
    WithoutCard(blocks, above);
    TailKept(blocks, w, k);
    var rest := Without(blocks, above);
    RestWalk(blocks, rest, top, k, h, |rest|);
  }
}
