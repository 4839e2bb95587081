/** The buffering loop that all the hash contexts share. */
module Buffering {
  import opened Octets
  import opened Streaming

  lemma SplitOff(m: seq<Octet>, rest: seq<Octet>, n: nat)
    requires n <= |rest|
    ensures (m + rest[..n]) + rest[n..] == m + rest
  {
  }

  method Copy(buf: array<Octet>, ptr: nat, data: seq<Octet>)
    requires ptr + |data| <= buf.Length
    modifies buf
    ensures buf[..ptr + |data|] == old(buf[..ptr]) + data
    ensures forall k :: ptr + |data| <= k < buf.Length ==> buf[k] == old(buf[k])
  {
    for i := 0 to |data|
      invariant buf[..ptr + i] == old(buf[..ptr]) + data[..i]
      invariant forall k :: ptr + i <= k < buf.Length ==> buf[k] == old(buf[k])
    {
      buf[ptr + i] := data[i];
    }
  }

  lemma {:induction false} RestBits(size: nat, m: seq<Octet>)
    requires size > 0
    ensures Rest(8 * size, Bits(m)) == Bits(Rest(size, m))
    decreases |m|
  {
    if |m| >= size {
      BitsSplit(m, size);
      RestBits(size, m[size..]);
    }
  }

  /** On bits: what follows a message is folded in with the message's incomplete last block. */
  lemma FoldTail<S>(g: (S, seq<bool>) -> S, size: nat, s: S, m: seq<Octet>, tail: seq<bool>)
    requires size > 0
    ensures Fold(g, 8 * size, s, Bits(m) + tail)
         == Fold(g, 8 * size, Fold(g, 8 * size, s, Bits(m)), Bits(Rest(size, m)) + tail)
  {
    FoldAppend(g, 8 * size, s, Bits(m), tail);
    RestBits(size, m);
  }

  lemma OneBlock<S, B>(f: (S, seq<B>) -> S, size: nat, s: S, b: seq<B>)
    requires |b| == size > 0
    ensures Fold(f, size, s, b) == f(s, b) && Rest(size, b) == []
  {
    assert b[..size] == b && b[size..] == [];
  }

  lemma TwoBlocks<S, B>(f: (S, seq<B>) -> S, size: nat, s: S, b: seq<B>, c: seq<B>)
    requires |b| == |c| == size > 0
    ensures Fold(f, size, s, b + c) == f(f(s, b), c)
  {
    assert (b + c)[..size] == b && (b + c)[size..] == c;
    OneBlock(f, size, f(s, b), c);
  }

  /**
   A context that buffers up to one block: `state` is everything that compressing a block changes.
   It stands at `base` folded over `message`.
   */
  class Absorber<S> {
    const step: (S, seq<Octet>) -> S
    const size: nat
    var state: S
    var buf: array<Octet>
    var ptr: nat
    ghost var base: S
    ghost var message: seq<Octet>

    ghost predicate Valid()
      reads this, buf
    {
      && 0 < size == buf.Length && ptr < size
      && StandsAt(step, size, base, message, state, buf[..ptr])
    }

    constructor (step: (S, seq<Octet>) -> S, size: nat, start: S)
      requires size > 0
      ensures Valid() && this.step == step && this.size == size && base == start && message == [] && fresh(buf)
    {
      this.step, this.size, state, base, message := step, size, start, start, [];
      buf := new Octet[size](_ => BigEndian(0, 8));
      ptr := 0;
    }

    /** Takes in more data, however it is split. */
    method Update(data: seq<Octet>)
      requires Valid()
      modifies this, buf
      ensures Valid() && message == old(message) + data && base == old(base) && buf == old(buf)
    {
      if |data| < size - ptr {
        Keep(data);
        return;
      }
      var rest := data;
      while rest != []
        invariant Valid() && buf == old(buf) && base == old(base)
        invariant message + rest == old(message) + data
        decreases |rest|
      {
        var clen := if size - ptr > |rest| then |rest| else size - ptr;
        ghost var was := message;
        Chunk(rest[..clen]);
        SplitOff(was, rest, clen);
        rest := rest[clen..];
      }
    }

    method Keep(data: seq<Octet>)
      requires Valid() && ptr + |data| < size
      modifies this, buf
      ensures Valid() && message == old(message) + data && base == old(base) && buf == old(buf)
    {
      StandsAtMore(step, size, base, message, state, buf[..ptr], data);
      Copy(buf, ptr, data);
      ptr, message := ptr + |data|, message + data;
    }

    /** One turn of the loop: fill the buffer, and compress it once it is full. */
    method Chunk(chunk: seq<Octet>)
      requires Valid() && ptr + |chunk| <= size
      modifies this, buf
      ensures Valid() && message == old(message) + chunk && base == old(base) && buf == old(buf)
    {
      StandsAtMore(step, size, base, message, state, buf[..ptr], chunk);
      Copy(buf, ptr, chunk);
      ptr, message := ptr + |chunk|, message + chunk;
      if ptr == size {
        state, ptr := step(state, buf[..size]), 0;
      }
    }

    /** Data that exactly fills the buffer. */
    method Complete(data: seq<Octet>)
      requires Valid() && |message| + |data| == size
      modifies this, buf
      ensures Valid() && message == old(message) + data && base == old(base) && buf == old(buf)
      ensures state == Fold(step, size, base, message) && Rest(size, message) == [] && ptr == 0
    {
      Update(data);
      OneBlock(step, size, base, message);
    }

    /** Overwrites the state between blocks; the buffered bytes stay. */
    method Override(s: S)
      requires Valid()
      modifies this
      ensures Valid() && state == s && base == s && message == old(Rest(size, message))
      ensures buf == old(buf) && ptr == old(ptr)
    {
      state, base, message := s, s, Rest(size, message);
    }
  }
}
