/** The Merkle root of an ordered list of digests (merkle_tree.js). */
module MerkleTree {
  import opened Hashing
  import opened Outcomes

  /** The message of the Error thrown for an empty input. */
  const InvalidHashArray := "Invalid hash array for Merkle Root calculation"

  /** The parent of a left and a right node: the right operand is
      `right || left`, so a missing right node (modelled as "") and an empty
      right string both give way to a copy of the left one. */
  function Combine(sha: Hasher, left: string, right: string): string
  {
    sha(left + (if right != "" then right else left))
  }

  /** One round, pairing the level from the left: the first two nodes make
      the first parent, and an odd last node is paired with itself. */
  function NextLevel(sha: Hasher, level: seq<string>): (parents: seq<string>)
    ensures |level| <= 2 * |parents| <= |level| + 1
    decreases |level|
  {
    if |level| == 0 then []
    else if |level| == 1 then [Combine(sha, level[0], "")]
    else [Combine(sha, level[0], level[1])] + NextLevel(sha, level[2..])
  }

  /** The root: rounds are applied until a single digest remains. */
  function MerkleRoot(sha: Hasher, leaves: seq<string>): string
    requires |leaves| > 0
    decreases |leaves|
  {
    if |leaves| == 1 then leaves[0] else MerkleRoot(sha, NextLevel(sha, leaves))
  }

  /** The parent formed at position i of a level, read index by index as the
      inner loop does: node i with node i + 1, or with itself when i + 1 is
      past the end or holds "". */
  function ParentAt(sha: Hasher, level: seq<string>, i: nat): string
    requires i < |level|
  {
    sha(level[i] + (if i + 1 < |level| && level[i + 1] != "" then level[i + 1] else level[i]))
  }

  /** Parent k of a round is the pair starting at node 2k: the round pairs
      strictly from the left. */
  lemma {:induction false} NextLevelAt(sha: Hasher, level: seq<string>, k: nat)
    requires 2 * k < |level|
    ensures k < |NextLevel(sha, level)|
    ensures NextLevel(sha, level)[k] == ParentAt(sha, level, 2 * k)
    decreases k
  {
    if k > 0 {
      NextLevelAt(sha, level[2..], k - 1);
      assert level[2..][2 * k - 2] == level[2 * k];
    }
  }

  /** A round is the sequence of the parents at the even positions. */
  lemma NextLevelIsParents(sha: Hasher, level: seq<string>, parents: seq<string>)
    requires |level| <= 2 * |parents| <= |level| + 1
    requires forall k :: 0 <= k < |parents| ==> parents[k] == ParentAt(sha, level, 2 * k)
    ensures parents == NextLevel(sha, level)
  {
    forall k | 0 <= k < |parents|
      ensures parents[k] == NextLevel(sha, level)[k]
    {
      NextLevelAt(sha, level, k);
    }
  }

  /** A round shrinks every level of two or more nodes, so the rounds stop. */
  lemma RoundShrinks(sha: Hasher, level: seq<string>)
    requires |level| > 1
    ensures 0 < |NextLevel(sha, level)| < |level|
  {
  }

  /** A single leaf is its own root: no round runs and nothing is hashed. */
  lemma SingleLeafIsRoot(sha: Hasher, leaf: string)
    ensures MerkleRoot(sha, [leaf]) == leaf
  {
  }

  /** Two leaves: the root is the digest of their concatenation, in order. */
  lemma TwoLeaves(sha: Hasher, a: string, b: string)
    requires b != ""
    ensures MerkleRoot(sha, [a, b]) == sha(a + b)
  {
    assert NextLevel(sha, [a, b]) == [sha(a + b)] + NextLevel(sha, []);
  }

  /** Three leaves, as the ledger commits its customer, location and payment
      digests: the odd third leaf is duplicated, giving H(H(a+b) + H(c+c)). */
  lemma ThreeLeaves(sha: Hasher, a: string, b: string, c: string)
    requires b != "" && NonEmptyDigests(sha)
    ensures MerkleRoot(sha, [a, b, c]) == sha(sha(a + b) + sha(c + c))
  {
    var level := [a, b, c];
    assert level[2..] == [c];
    assert NextLevel(sha, level) == [sha(a + b), sha(c + c)];
    TwoLeaves(sha, sha(a + b), sha(c + c));
  }

  /** The `||` in the pairing: an empty right leaf counts as missing, so the
      left leaf is paired with itself. */
  lemma EmptyRightLeafIsReplaced(sha: Hasher, a: string)
    ensures MerkleRoot(sha, [a, ""]) == sha(a + a)
  {
    assert NextLevel(sha, [a, ""]) == [sha(a + a)] + NextLevel(sha, []);
  }

  /** One pass of calculateMerkleRoot's inner loop: walk the level two nodes
      at a time, pushing each parent into a fresh level. */
  method PairUp(sha: Hasher, hashes: seq<string>) returns (temp: seq<string>)
    ensures temp == NextLevel(sha, hashes)
  {
    temp := [];
    var i := 0;
    while i < |hashes|
      invariant i == 2 * |temp| && i <= |hashes| + 1
      invariant forall k :: 0 <= k < |temp| ==> temp[k] == ParentAt(sha, hashes, 2 * k)
      decreases |hashes| - i
    {
      var left := hashes[i];
      var right := if i + 1 < |hashes| && hashes[i + 1] != "" then hashes[i + 1] else hashes[i];
      temp := temp + [sha(left + right)];
      i := i + 2;
    }
    NextLevelIsParents(sha, hashes, temp);
  }

  /** calculateMerkleRoot: replace the level by its parents until one digest
      remains. An empty input throws; otherwise the result is the root of the
      ordered input. */
  method CalculateMerkleRoot(sha: Hasher, leaves: seq<string>) returns (r: Result<string>)
    ensures |leaves| == 0 ==> r == Err(InvalidHashArray)
    ensures |leaves| > 0 ==> r == Ok(MerkleRoot(sha, leaves))
  {
    if |leaves| == 0 {
      return Err(InvalidHashArray);
    }
    var hashes := leaves;
    while |hashes| > 1
      invariant |hashes| > 0
      invariant MerkleRoot(sha, hashes) == MerkleRoot(sha, leaves)
      decreases |hashes|
    {
      var temp := PairUp(sha, hashes);
      hashes := temp;
    }
    return Ok(hashes[0]);
  }
}
