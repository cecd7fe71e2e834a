/** The primitives shared by the Merkle tree, the block and the chain: the
    digest function, the rendering of numbers into the hashed strings, and the
    proof-of-work prefix test. */
module Hashing {

  /** The digest function (SHA-256 rendered as hexadecimal text in the
      JavaScript). It is left abstract: every member that hashes takes it as a
      parameter, so every property proved here holds for any digest function,
      collision resistant or not. */
  type Hasher = string -> string

  /** A digest function that never yields the empty string, as the
      64-character hexadecimal output of SHA-256 never is. */
  ghost predicate NonEmptyDigests(sha: Hasher)
  {
    forall s :: sha(s) != ""
  }

  /** What a block hash is built from, both parts left abstract: the digest
      function, and the text a number field becomes when `+` joins it to a
      string (decimal in the JavaScript). */
  datatype BlockHashing = BlockHashing(sha: Hasher, render: int -> string)

  /** `'0'.repeat(n)`: n copies of the character '0'. */
  function Zeros(n: nat): (r: string)
    ensures |r| == n
    ensures forall i :: 0 <= i < n ==> r[i] == '0'
  {
    if n == 0 then "" else Zeros(n - 1) + "0"
  }

  /** `Array(n).join(sep)`: n empty elements joined by sep, that is n - 1
      copies of sep (none when n is 0 or 1). */
  function JoinEmpty(n: nat, sep: string): string
  {
    if n <= 1 then "" else JoinEmpty(n - 1, sep) + sep
  }

  /** The two spellings of the zero prefix in block.js and blockchain.js agree: the miner's
      `Array(d + 1).join("0")` and the validator's `'0'.repeat(d)`. */
  lemma {:induction false} JoinedZerosAreZeros(d: nat)
    ensures JoinEmpty(d + 1, "0") == Zeros(d)
  {
    if d > 0 {
      JoinedZerosAreZeros(d - 1);
    }
  }

  /** `s.startsWith(prefix)`. */
  predicate StartsWith(s: string, prefix: string)
  {
    |prefix| <= |s| && s[..|prefix|] == prefix
  }

  /** The proof-of-work test: the digest's first `difficulty` characters
      exist and are all '0'. */
  predicate MeetsDifficulty(digest: string, difficulty: nat)
    decreases difficulty
  {
    difficulty == 0 || (|digest| > 0 && digest[0] == '0' && MeetsDifficulty(digest[1..], difficulty - 1))
  }

  /** isValid's test in blockchain.js, `digest.startsWith('0'.repeat(difficulty))`, is
      exactly the proof-of-work test. */
  lemma {:induction false} StartsWithZerosIsMeetsDifficulty(digest: string, difficulty: nat)
    ensures StartsWith(digest, Zeros(difficulty)) <==> MeetsDifficulty(digest, difficulty)
    decreases difficulty
  {
    if difficulty > 0 && |digest| > 0 {
      StartsWithZerosIsMeetsDifficulty(digest[1..], difficulty - 1);
      var z := Zeros(difficulty);
      assert z == "0" + Zeros(difficulty - 1);
      if StartsWith(digest, z) {
        assert digest[1..][..difficulty - 1] == digest[..difficulty][1..];
      }
      if MeetsDifficulty(digest, difficulty) {
        assert digest[..difficulty] == [digest[0]] + digest[1..][..difficulty - 1];
      }
    }
  }

  /** What the proof-of-work test means, character by character. */
  lemma {:induction false} MeetsDifficultyMeans(digest: string, difficulty: nat)
    ensures MeetsDifficulty(digest, difficulty) <==>
            difficulty <= |digest| && forall i :: 0 <= i < difficulty ==> digest[i] == '0'
    decreases difficulty
  {
    if difficulty > 0 && |digest| > 0 {
      MeetsDifficultyMeans(digest[1..], difficulty - 1);
      if difficulty <= |digest| && forall i :: 0 <= i < difficulty ==> digest[i] == '0' {
        assert forall i :: 0 <= i < difficulty - 1 ==> digest[1..][i] == digest[i + 1];
      }
    }
  }

  /** Every digest passes at difficulty 0, and none passes a difficulty
      longer than itself. */
  lemma {:induction false} DifficultyBounds(digest: string, difficulty: nat)
    ensures MeetsDifficulty(digest, 0)
    ensures difficulty > |digest| ==> !MeetsDifficulty(digest, difficulty)
    decreases difficulty
  {
    if difficulty > 0 && |digest| > 0 {
      DifficultyBounds(digest[1..], difficulty - 1);
    }
  }
}
