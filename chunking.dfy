/** The bounded-step plan shared by the encode loop of src/index.ts (steps of
    at most ANALYSIS_SAMPLE_COUNT samples) and the reader of
    c-source/middle-layer.c (steps of at most 8192 bytes): starting at an
    offset, each step takes `min(m, n - offset)` items and advances by that
    much until the offset reaches `n`. */
module Chunking {

  /** One step of the plan: `count` items starting at `from`. */
  datatype Chunk = Chunk(from: nat, count: nat)

  function Min(a: nat, b: nat): nat {
    if a <= b then a else b
  }

  /** The steps a loop `while from < n { count := min(m, n - from); ...; from := from + count }`
      takes when it starts at `from`. */
  function Chunks(n: nat, m: nat, from: nat): seq<Chunk>
    requires m > 0
    decreases n - from
  {
    if from >= n then []
    else [Chunk(from, Min(m, n - from))] + Chunks(n, m, from + Min(m, n - from))
  }

  /** The sizes of the steps, in order. */
  function Counts(cs: seq<Chunk>): (r: seq<nat>)
    ensures |r| == |cs|
    ensures forall i :: 0 <= i < |cs| ==> r[i] == cs[i].count
  {
    if cs == [] then [] else [cs[0].count] + Counts(cs[1..])
  }

  function Sum(s: seq<nat>): nat {
    if s == [] then 0 else s[0] + Sum(s[1..])
  }

  /** Unfolds one step of the plan. */
  lemma ChunksStep(n: nat, m: nat, from: nat)
    requires m > 0 && from < n
    ensures Chunks(n, m, from) == [Chunk(from, Min(m, n - from))] + Chunks(n, m, from + Min(m, n - from))
  {
  }

  /** Every step is non-empty, no larger than `m`, starts at or after `from`
      and ends at or before `n`. */
  lemma {:induction false} ChunksBounded(n: nat, m: nat, from: nat)
    requires m > 0
    ensures forall i :: 0 <= i < |Chunks(n, m, from)| ==>
      var c := Chunks(n, m, from)[i];
      0 < c.count <= m && from <= c.from && c.from + c.count <= n
    decreases n - from
  {
    if from < n {
      ChunksBounded(n, m, from + Min(m, n - from));
    }
  }

  /** The steps tile `[from, n)`: the first starts at `from`, each next one
      starts where the previous ended, and the last ends exactly at `n`. */
  lemma {:induction false} ChunksContiguous(n: nat, m: nat, from: nat)
    requires m > 0
    ensures var cs := Chunks(n, m, from);
      && (|cs| == 0 <==> from >= n)
      && (|cs| > 0 ==> cs[0].from == from && cs[|cs| - 1].from + cs[|cs| - 1].count == n)
      && forall i :: 0 <= i < |cs| - 1 ==> cs[i + 1].from == cs[i].from + cs[i].count
    decreases n - from
  {
    if from < n {
      var next := from + Min(m, n - from);
      ChunksContiguous(n, m, next);
      var cs, rest := Chunks(n, m, from), Chunks(n, m, next);
      assert cs == [Chunk(from, Min(m, n - from))] + rest;
      forall i | 0 <= i < |cs| - 1
        ensures cs[i + 1].from == cs[i].from + cs[i].count
      {
        if i > 0 {
          assert cs[i] == rest[i - 1] && cs[i + 1] == rest[i];
        }
      }
    }
  }

  /** The step sizes add up to the number of items covered. */
  lemma {:induction false} ChunksSum(n: nat, m: nat, from: nat)
    requires m > 0 && from <= n
    ensures Sum(Counts(Chunks(n, m, from))) == n - from
    decreases n - from
  {
    if from < n {
      var c := Min(m, n - from);
      ChunksSum(n, m, from + c);
      var cs := Chunks(n, m, from);
      assert cs[1..] == Chunks(n, m, from + c);
      assert Counts(cs) == [c] + Counts(cs[1..]);
    }
  }

  /** The number of steps is the ceiling of `(n - from) / m`: `m` times it
      covers what is left, one step fewer would not, and there is no step
      when nothing is left. */
  lemma {:induction false} ChunksCount(n: nat, m: nat, from: nat)
    requires m > 0 && from <= n
    ensures var k := |Chunks(n, m, from)|;
      && (k == 0 <==> from == n)
      && n - from <= k * m
      && (k > 0 ==> (k - 1) * m < n - from)
    decreases n - from
  {
    var d := n - from;
    if 0 < d <= m {
      assert Chunks(n, m, n) == [];
    } else if d > m {
      ChunksCount(n, m, from + m);
      var k := |Chunks(n, m, from + m)|;
      assert |Chunks(n, m, from)| == k + 1;
      assert (k + 1) * m == k * m + m;
      assert k * m == (k - 1) * m + m;
    }
  }
}
