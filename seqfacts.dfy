/** Small facts about slicing sequences, kept apart so that the proofs that
    use them do not have to rediscover them among many other facts. */
module SeqFacts {

  /** Extending a slice by the next element gives the next slice. */
  lemma SliceExtend<T>(s: seq<T>, lo: nat, hi: nat)
    requires lo <= hi < |s|
    ensures s[lo..hi] + [s[hi]] == s[lo..hi + 1]
  {
  }

  /** Extending a prefix by the next element gives the next prefix. */
  lemma PrefixExtend<T>(s: seq<T>, j: nat)
    requires j < |s|
    ensures s[..j] + [s[j]] == s[..j + 1]
  {
  }

  /** A sequence is what comes before index k, the element at k, and what
      comes after it. */
  lemma SplitAround<T>(s: seq<T>, k: nat)
    requires k < |s|
    ensures s == s[..k] + [s[k]] + s[k + 1..]
  {
  }
}
