/** How many tokens every rank processes in each chunk of a chunked, lock-stepped forward pass. */
module DpChunks {
  import opened Arithmetic

  /** The size of chunk `c` on a rank holding `n` tokens; a rank that is done still processes one. */
  function LocalSize(n: nat, max: nat, c: nat): int {
    var rest := n - max * c;
    var size := if max < rest then max else rest;
    if size <= 0 then 1 else size
  }

  function Total(n: nat, max: nat, chunks: nat): int {
    if chunks == 0 then 0 else Total(n, max, chunks - 1) + LocalSize(n, max, chunks - 1)
  }

  /** A chunk is active if it begins before the tokens end, and then stops where the next one begins. */
  lemma ChunkTiles(n: nat, max: nat, c: nat)
    requires max > 0
    ensures 1 <= LocalSize(n, max, c) <= max
    ensures c < CeilDiv(n, max) <==> c * max < n
    ensures c < CeilDiv(n, max) ==>
            c * max + LocalSize(n, max, c) == if (c + 1) * max <= n then (c + 1) * max else n
    ensures c >= CeilDiv(n, max) ==> LocalSize(n, max, c) == 1
  {
    CeilBounds(n, max);
    var q := CeilDiv(n, max);
    assert max * c == c * max && (c + 1) * max == c * max + max;
    if c < q { MulLe(c, q - 1, max); } else { MulLe(q, c, max); }
  }

  /** Up to its last active chunk a rank processes its tokens and nothing else. */
  lemma {:induction false} ActiveTotal(n: nat, max: nat, c: nat)
    requires max > 0 && c <= CeilDiv(n, max)
    ensures Total(n, max, c) == if c * max <= n then c * max else n
  {
    if c == 0 {
      assert 0 * max == 0;
    } else {
      ActiveTotal(n, max, c - 1);
      ChunkTiles(n, max, c - 1);
    }
  }

  /**
   Over enough chunks a rank processes its tokens once each, and one more in every chunk after it is
   done.
   */
  lemma {:induction false} TotalIs(n: nat, max: nat, chunks: nat)
    requires max > 0 && chunks >= CeilDiv(n, max)
    ensures Total(n, max, chunks) == n + chunks - CeilDiv(n, max)
  {
    if chunks == CeilDiv(n, max) {
      ActiveTotal(n, max, chunks);
      CeilBounds(n, max);
    } else {
      TotalIs(n, max, chunks - 1);
      ChunkTiles(n, max, chunks - 1);
    }
  }

  // ---- All ranks ----

  /** Each rank's tokens are split over `sp` shards, rounded up; shards of a rank are neighbours. */
  function ShardTokens(tokens: seq<nat>, sp: nat): (r: seq<nat>)
    requires sp > 0
    ensures |r| == |tokens| * sp
  {
    if tokens == [] then []
    else
      var front := ShardTokens(tokens[..|tokens| - 1], sp);
      var last := seq(sp, _ => CeilDiv(tokens[|tokens| - 1], sp));
      assert |tokens| * sp == (|tokens| - 1) * sp + sp;
      front + last
  }

  lemma {:induction false} ShardAt(tokens: seq<nat>, sp: nat, rank: nat, shard: nat)
    requires sp > 0 && rank < |tokens| && shard < sp
    ensures rank * sp + shard < |tokens| * sp
    ensures ShardTokens(tokens, sp)[rank * sp + shard] == CeilDiv(tokens[rank], sp)
  {
    var n := |tokens| - 1;
    assert |tokens| * sp == n * sp + sp;
    hide CeilDiv;
    if rank < n {
      MulLe(rank + 1, n, sp);
      assert (rank + 1) * sp == rank * sp + sp;
      ShardAt(tokens[..n], sp, rank, shard);
    }
  }

  method ChunkSizes(tokens: seq<nat>, sp: nat, max: nat, chunk: nat) returns (sizes: seq<int>)
    requires sp > 0
    ensures |sizes| == |tokens| * sp
    ensures forall i :: 0 <= i < |sizes| ==> sizes[i] == LocalSize(ShardTokens(tokens, sp)[i], max, chunk)
  {
    var shards := ShardTokens(tokens, sp);
    sizes := seq(|shards|, _ => -1);
    for i := 0 to |shards|
      invariant |sizes| == |shards|
      invariant forall j :: 0 <= j < i ==> sizes[j] == LocalSize(shards[j], max, chunk)
    {
      var rest := shards[i] - max * chunk;
      sizes := sizes[i := if max < rest then max else rest];
      if sizes[i] <= 0 {
        sizes := sizes[i := 1];
      }
    }
  }

  lemma SumEmpty()
    ensures Sum([]) == 0
  {
  }

  lemma SumNext(s: seq<int>, n: nat)
    requires n < |s|
    ensures Sum(s[..n + 1]) == Sum(s[..n]) + s[n]
  {
    assert s[..n + 1][..n] == s[..n];
  }

  /** Running totals over the shards, with the rounding written the other way around. */
  method CumulativeTokens(tokens: seq<nat>, sp: nat) returns (cu: seq<nat>)
    requires sp > 0
    ensures |cu| == |tokens| * sp
    ensures forall i :: 0 <= i < |cu| ==> cu[i] == Sum(ShardTokens(tokens, sp)[..i + 1])
  {
    hide Sum;
    ghost var shards := ShardTokens(tokens, sp);
    cu := [];
    var total: nat := 0;
    SumEmpty();
    for rank := 0 to |tokens|
      invariant |cu| == rank * sp <= |shards| && total == Sum(shards[..|cu|])
      invariant forall j :: 0 <= j < |cu| ==> cu[j] == Sum(shards[..j + 1])
    {
      var each := (tokens[rank] - 1 + sp) / sp;
      assert (rank + 1) * sp == rank * sp + sp;
      MulLe(rank + 1, |tokens|, sp);
      for shard := 0 to sp
        invariant |cu| == rank * sp + shard && total == Sum(shards[..|cu|])
        invariant forall j :: 0 <= j < |cu| ==> cu[j] == Sum(shards[..j + 1])
      {
        ShardAt(tokens, sp, rank, shard);
        SumNext(shards, |cu|);
        total := total + each;
        cu := cu + [total];
      }
    }
  }

  lemma {:induction false} SumConcat(a: seq<nat>, b: seq<nat>)
    ensures Sum(a + b) == Sum(a) + Sum(b)
  {
    if b == [] {
      assert a + b == a;
    } else {
      SumConcat(a, b[..|b| - 1]);
      assert (a + b)[..|a + b| - 1] == a + b[..|b| - 1];
    }
  }

  lemma {:induction false} SumSame(n: nat, x: nat)
    ensures Sum(seq(n, _ => x)) == n * x
  {
    var s := seq(n, _ => x);
    if n > 0 {
      SumSame(n - 1, x);
      assert s[..n - 1] == seq(n - 1, _ => x);
      assert n * x == (n - 1) * x + x;
    }
  }

  /** The shards of all ranks hold every token, and fewer than `sp` padding tokens a rank. */
  lemma {:induction false} ShardsCover(tokens: seq<nat>, sp: nat)
    requires sp > 0
    ensures Sum(tokens) <= Sum(ShardTokens(tokens, sp)) <= Sum(tokens) + |tokens| * (sp - 1)
  {
    if tokens != [] {
      var front, n := tokens[..|tokens| - 1], tokens[|tokens| - 1];
      ShardsCover(front, sp);
      SumConcat(ShardTokens(front, sp), seq(sp, _ => CeilDiv(n, sp)));
      SumSame(sp, CeilDiv(n, sp));
      CeilBounds(n, sp);
      var q := CeilDiv(n, sp);
      assert sp * q == q * sp;
      if q > 0 { assert (q - 1) * sp == q * sp - sp; }
      assert |tokens| * (sp - 1) == (|tokens| - 1) * (sp - 1) + (sp - 1);
    }
  }
}
