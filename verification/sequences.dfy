/**
 * Block surgery on sequences: the three shapes every outline edit is made
 * of — exchanging two adjacent blocks, splicing a block in, cutting one out.
 * The lemmas take the index where a moved block ends up as a parameter, so
 * that callers name it once instead of rebuilding the sum.
 */
module Sequences {

  /** Exchanges the adjacent blocks s[a..b] and s[b..c]. */
  function Swap<T>(s: seq<T>, a: nat, b: nat, c: nat): (t: seq<T>)
    requires a <= b <= c <= |s|
    ensures |t| == |s|
  {
    s[..a] + s[b..c] + s[a..b] + s[c..]
  }

  /**
   * After a swap the second block comes first, at a, and the first block
   * second, at m; everything before a and from c on stays where it is, and
   * nothing is lost or duplicated.
   */
  lemma SwapSpec<T>(s: seq<T>, a: nat, b: nat, c: nat, m: nat)
    requires a <= b <= c <= |s| && m == a + (c - b)
    ensures var t := Swap(s, a, b, c);
            && multiset(t) == multiset(s)
            && t[..a] == s[..a]
            && t[a..m] == s[b..c]
            && t[m..c] == s[a..b]
            && t[c..] == s[c..]
  {
    assert s == s[..a] + s[a..b] + s[b..c] + s[c..];
    var t := Swap(s, a, b, c);
    assert t[..a] == s[..a];
    assert t[a..m] == s[b..c];
    assert t[m..c] == s[a..b];
    assert t[c..] == s[c..];
  }

  /** Exchanging the two blocks back, the first now ending at c and starting at m, restores the sequence. */
  lemma SwapInverse<T>(s: seq<T>, a: nat, b: nat, c: nat, m: nat)
    requires a <= b <= c <= |s| && m == a + (c - b)
    ensures Swap(Swap(s, a, b, c), a, m, c) == s
  {
    var t := Swap(s, a, b, c);
    SwapSpec(s, a, b, c, m);
    calc {
      Swap(t, a, m, c);
      t[..a] + t[m..c] + t[a..m] + t[c..];
      s[..a] + s[a..b] + s[b..c] + s[c..];
      { assert s == s[..a] + s[a..b] + s[b..c] + s[c..]; }
      s;
    }
  }

  /** Puts `block` in front of position `p`. */
  function Splice<T>(s: seq<T>, p: nat, block: seq<T>): (t: seq<T>)
    requires p <= |s|
    ensures |t| == |s| + |block|
  {
    s[..p] + block + s[p..]
  }

  /** The block lands at p and ends at q; what was before stays, what was from p on follows the block. */
  lemma SpliceSpec<T>(s: seq<T>, p: nat, block: seq<T>, q: nat)
    requires p <= |s| && q == p + |block|
    ensures var t := Splice(s, p, block);
            && multiset(t) == multiset(s) + multiset(block)
            && t[..p] == s[..p]
            && t[p..q] == block
            && t[q..] == s[p..]
  {
    assert s == s[..p] + s[p..];
    var t := Splice(s, p, block);
    assert t[..p] == s[..p];
    assert t[p..q] == block;
    assert t[q..] == s[p..];
  }

  /** Removes the block s[a..b]. */
  function Cut<T>(s: seq<T>, a: nat, b: nat): (t: seq<T>)
    requires a <= b <= |s|
    ensures |t| == |s| - (b - a)
  {
    s[..a] + s[b..]
  }

  /** What was before the block stays, what was after it closes up, and only the block is lost. */
  lemma CutSpec<T>(s: seq<T>, a: nat, b: nat)
    requires a <= b <= |s|
    ensures var t := Cut(s, a, b);
            && multiset(t) + multiset(s[a..b]) == multiset(s)
            && t[..a] == s[..a]
            && t[a..] == s[b..]
  {
    assert s == s[..a] + s[a..b] + s[b..];
    var t := Cut(s, a, b);
    assert t[..a] == s[..a];
    assert t[a..] == s[b..];
  }

  /** Cutting out, from p to q, a block just spliced in at p restores the sequence. */
  lemma CutSplice<T>(s: seq<T>, p: nat, block: seq<T>, q: nat)
    requires p <= |s| && q == p + |block|
    ensures Cut(Splice(s, p, block), p, q) == s
  {
    var t := Splice(s, p, block);
    SpliceSpec(s, p, block, q);
    calc {
      Cut(t, p, q);
      t[..p] + t[q..];
      s[..p] + s[p..];
      { assert s == s[..p] + s[p..]; }
      s;
    }
  }
}
