/**
 Absorbing a message block by block, and the buffered form of it that the hash contexts use.

 `Fold` is the plain definition: compress one whole block after the other. `Rest` is what remains.
 */
module Streaming {

  /** Compresses the whole blocks of `m`, in order. */
  function Fold<S, B>(f: (S, seq<B>) -> S, size: nat, s: S, m: seq<B>): S
    requires size > 0
    decreases |m|
  {
    if |m| < size then s else Fold(f, size, f(s, m[..size]), m[size..])
  }

  /** The bytes after the last whole block of `m`. */
  function Rest<B>(size: nat, m: seq<B>): (r: seq<B>)
    requires size > 0
    ensures |r| < size
    decreases |m|
  {
    if |m| < size then m else Rest(size, m[size..])
  }

  /** Absorbing more data depends on the earlier message only through the state and the rest. */
  lemma {:induction false} FoldAppend<S, B>(f: (S, seq<B>) -> S, size: nat, s: S, m: seq<B>, d: seq<B>)
    requires size > 0
    ensures Fold(f, size, s, m + d) == Fold(f, size, Fold(f, size, s, m), Rest(size, m) + d)
    ensures Rest(size, m + d) == Rest(size, Rest(size, m) + d)
    decreases |m|
  {
    if |m| >= size {
      FoldAppend(f, size, f(s, m[..size]), m[size..], d);
      assert (m + d)[..size] == m[..size];
      assert (m + d)[size..] == m[size..] + d;
    }
  }

  /** Topping up an incomplete block, without or with completing it. */
  lemma FoldChunk<S, B>(f: (S, seq<B>) -> S, size: nat, s: S, m: seq<B>, chunk: seq<B>)
    requires size > 0 && |Rest(size, m)| + |chunk| <= size
    ensures |Rest(size, m)| + |chunk| < size ==>
      Fold(f, size, s, m + chunk) == Fold(f, size, s, m) && Rest(size, m + chunk) == Rest(size, m) + chunk
    ensures |Rest(size, m)| + |chunk| == size ==>
      Fold(f, size, s, m + chunk) == f(Fold(f, size, s, m), Rest(size, m) + chunk) && Rest(size, m + chunk) == []
  {
    FoldAppend(f, size, s, m, chunk);
    var block := Rest(size, m) + chunk;
    if |block| == size {
      assert block[..size] == block && block[size..] == [];
    }
  }

  /** A context that holds the state `s` and the buffered bytes `rest` has absorbed `m` since `base`. */
  ghost predicate StandsAt<S, B>(f: (S, seq<B>) -> S, size: nat, base: S, m: seq<B>, s: S, rest: seq<B>)
    requires size > 0
  {
    s == Fold(f, size, base, m) && rest == Rest(size, m)
  }

  /** One turn of an absorbing loop: a chunk that fits the buffer. */
  lemma StandsAtMore<S, B>(f: (S, seq<B>) -> S, size: nat, base: S, m: seq<B>, s: S, rest: seq<B>, chunk: seq<B>)
    requires size > 0 && StandsAt(f, size, base, m, s, rest) && |rest| + |chunk| <= size
    ensures |rest| + |chunk| < size ==> StandsAt(f, size, base, m + chunk, s, rest + chunk)
    ensures |rest| + |chunk| == size ==> StandsAt(f, size, base, m + chunk, f(s, rest + chunk), [])
  {
    FoldChunk(f, size, base, m, chunk);
  }

  /** How many whole blocks there are. */
  function Blocks<B>(size: nat, m: seq<B>): nat
    requires size > 0
    decreases |m|
  {
    if |m| < size then 0 else 1 + Blocks(size, m[size..])
  }

  lemma {:induction false} BlocksAndRest<B>(size: nat, m: seq<B>)
    requires size > 0
    ensures |m| == Blocks(size, m) * size + |Rest(size, m)|
    decreases |m|
  {
    if |m| >= size {
      BlocksAndRest(size, m[size..]);
    }
  }
}
