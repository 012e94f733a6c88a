/**
  Buffered stream framing, as every `data_received` callback of loadgen2 does it: append the chunk
  that arrived to the buffer, then take complete frames off its front until none is complete.

  The module states once what all four protocols need: a parser whose verdict does not change when
  more bytes arrive yields the same frames however the stream is cut into chunks.
 */
module Framing {
  import opened Wrappers

  newtype byte = x: int | 0 <= x < 256

  datatype Found<+F> = Found(frame: F, size: nat)

  datatype Scan<+F> = Scan(frames: seq<F>, rest: seq<byte>)

  type Parser<F> = seq<byte> -> Option<Found<F>>

  /** The parser has found a frame that lies inside the buffer and moves the reader on. */
  predicate Advances<F>(p: Parser<F>, buf: seq<byte>) {
    p(buf).Some? && 0 < p(buf).value.size <= |buf|
  }

  /** A frame once found lies in the buffer, and stays the same frame when more bytes arrive. */
  ghost predicate Stable<F(!new)>(p: Parser<F>) {
    && (forall b | p(b).Some? :: Advances(p, b))
    && (forall b, more | p(b).Some? :: p(b + more) == p(b))
  }

  /** What the loop of a receiver takes off one buffer: the complete frames, and what is left. */
  function Take<F>(p: Parser<F>, buf: seq<byte>): (s: Scan<F>)
    ensures |s.rest| <= |buf|
    decreases |buf|
  {
    if Advances(p, buf) then
      var found := p(buf).value;
      var s := Take(p, buf[found.size..]);
      Scan([found.frame] + s.frames, s.rest)
    else
      Scan([], buf)
  }

  /** A receiver fed chunk by chunk, starting with `buf` in its buffer. */
  function Feed<F>(p: Parser<F>, buf: seq<byte>, chunks: seq<seq<byte>>): Scan<F>
    decreases |chunks|
  {
    if chunks == [] then
      Scan([], buf)
    else
      var s := Take(p, buf + chunks[0]);
      var later := Feed(p, s.rest, chunks[1..]);
      Scan(s.frames + later.frames, later.rest)
  }

  /** `f` of every element, joined end to end. */
  function FlatMap<A, B>(f: A -> seq<B>, xs: seq<A>): seq<B> {
    if xs == [] then [] else f(xs[0]) + FlatMap(f, xs[1..])
  }

  function Concat<T>(parts: seq<seq<T>>): seq<T> {
    if parts == [] then [] else parts[0] + Concat(parts[1..])
  }

  lemma {:induction false} ConcatAppend<T>(a: seq<seq<T>>, b: seq<seq<T>>)
    ensures Concat(a + b) == Concat(a) + Concat(b)
  {
    if a == [] {
      assert a + b == b;
    } else {
      ConcatAppend(a[1..], b);
      assert (a + b)[1..] == a[1..] + b;
      Associative(a[0], Concat(a[1..]), Concat(b));
    }
  }

  lemma ConcatOne<T>(part: seq<T>)
    ensures Concat([part]) == part
  {
    assert [part][1..] == [];
  }

  lemma ConcatNext<T>(parts: seq<seq<T>>, i: nat)
    requires i < |parts|
    ensures Concat(parts[..i + 1]) == Concat(parts[..i]) + parts[i]
  {
    assert parts[..i + 1] == parts[..i] + [parts[i]];
    ConcatAppend(parts[..i], [parts[i]]);
    ConcatOne(parts[i]);
  }

  lemma Associative<T>(a: seq<T>, b: seq<T>, c: seq<T>)
    ensures (a + b) + c == a + (b + c)
  {
  }

  lemma {:induction false} FlatMapAppend<A, B>(f: A -> seq<B>, xs: seq<A>, ys: seq<A>)
    ensures FlatMap(f, xs + ys) == FlatMap(f, xs) + FlatMap(f, ys)
  {
    if xs == [] {
      assert xs + ys == ys;
    } else {
      FlatMapAppend(f, xs[1..], ys);
      assert (xs + ys)[1..] == xs[1..] + ys;
      Associative(f(xs[0]), FlatMap(f, xs[1..]), FlatMap(f, ys));
    }
  }

  /** The rest of a scan holds no complete frame. */
  lemma {:induction false} TakeIsExhaustive<F>(p: Parser<F>, buf: seq<byte>)
    ensures !Advances(p, Take(p, buf).rest)
    decreases |buf|
  {
    if Advances(p, buf) {
      TakeIsExhaustive(p, buf[p(buf).value.size..]);
    }
  }

  /** Scanning a prefix first and the remainder later finds what one scan of everything finds. */
  lemma {:induction false} TakeAppend<F(!new)>(p: Parser<F>, a: seq<byte>, b: seq<byte>)
    requires Stable(p)
    ensures Take(p, a + b)
         == Scan(Take(p, a).frames + Take(p, Take(p, a).rest + b).frames, Take(p, Take(p, a).rest + b).rest)
    decreases |a|
  {
    if Advances(p, a) {
      var n := p(a).value.size;
      assert p(a + b) == p(a);
      assert (a + b)[n..] == a[n..] + b;
      var tail := Take(p, a[n..]);
      var later := Take(p, tail.rest + b);
      TakeAppend(p, a[n..], b);
      Associative([p(a).value.frame], tail.frames, later.frames);
    }
  }

  /** However a stream is cut, the receiver sees the frames of one delivery of the whole stream. */
  lemma {:induction false} ChunkingIsIrrelevant<F(!new)>(p: Parser<F>, buf: seq<byte>, chunks: seq<seq<byte>>)
    requires Stable(p)
    requires !Advances(p, buf)
    ensures Feed(p, buf, chunks) == Take(p, buf + Concat(chunks))
    decreases |chunks|
  {
    if chunks == [] {
      assert buf + Concat(chunks) == buf;
    } else {
      var s := Take(p, buf + chunks[0]);
      TakeIsExhaustive(p, buf + chunks[0]);
      ChunkingIsIrrelevant(p, s.rest, chunks[1..]);
      TakeAppend(p, buf + chunks[0], Concat(chunks[1..]));
      Associative(buf, chunks[0], Concat(chunks[1..]));
    }
  }
}
