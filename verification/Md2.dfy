/** MD2: blocks of 16 bytes, byte padding, and a checksum that is run beside the digest and
  digested last. The substitution of digits of pi is a parameter. */
module Md2 {
  import opened Bitset
  import opened Sequences

  // ----- the standard's view, sections 3.1 to 3.5 of RFC 1319

  function Copies(b: bv8, n: nat): (r: Bytes)
    ensures |r| == n && forall i :: 0 <= i < n ==> r[i] == b
  {
    seq(n, _ => b)
  }

  /** Section 3.1: n bytes of value n complete the last block; a complete message gets a block of its own. */
  function Pad(msg: Bytes): (p: Bytes)
    ensures msg <= p && |p| % 16 == 0 && 1 <= |p| - |msg| <= 16
    ensures forall i :: |msg| <= i < |p| ==> p[i] == (|p| - |msg|) as bv8
  {
    var n := 16 - |msg| % 16;
    msg + Copies(n as bv8, n)
  }

  /** Both the checksum and the rounds xor each byte with the substitute of the byte before it. */
  function Chain(s: bv8 -> bv8, x: Bytes, m: Bytes, t: bv8): (y: Bytes)
    requires |x| == |m|
    ensures |y| == |x|
    decreases |x|
  {
    if x == [] then [] else
      var n := |x| - 1;
      var y := Chain(s, x[..n], m[..n], t);
      y + [Link(s, x[n], m[n], if n == 0 then t else y[n-1])]
  }

  function Link(s: bv8 -> bv8, x: bv8, m: bv8, t: bv8): bv8 {
    x ^ s(m ^ t)
  }

  /** Section 3.2: the last checksum byte is carried from block to block. */
  function Checksum(s: bv8 -> bv8, c: Bytes, last: bv8, data: Bytes): (r: Bytes)
    requires |c| == 16
    ensures |r| == 16
    decreases |data|
  {
    if |data| < 16 then c else
      var c' := Chain(s, c, data[..16], last);
      Checksum(s, c', c'[15], data[16..])
  }

  function Xor(a: Bytes, b: Bytes): (c: Bytes)
    requires |a| == |b|
    ensures |c| == |a| && forall i :: 0 <= i < |a| ==> c[i] == a[i] ^ b[i]
  {
    seq(|a|, i requires 0 <= i < |a| && |a| == |b| => a[i] ^ b[i])
  }

  function Rounds(s: bv8 -> bv8, x: Bytes, t: bv8, i: nat): (y: Bytes)
    requires |x| == 48 && i <= 18
    ensures |y| == 48
    decreases 18 - i
  {
    if i == 18 then x else
      var y := Chain(s, x, Copies(0, 48), t);
      Rounds(s, y, y[47] + i as bv8, i + 1)
  }

  /** Section 3.4, for one block. */
  function Compress(s: bv8 -> bv8, h: Bytes, block: Bytes): (r: Bytes)
    requires |h| == |block| == 16
    ensures |r| == 16
  {
    Rounds(s, h + block + Xor(block, h), 0, 0)[..16]
  }

  function Blocks(s: bv8 -> bv8, h: Bytes, data: Bytes): (r: Bytes)
    requires |h| == 16
    ensures |r| == 16
    decreases |data|
  {
    if |data| < 16 then h else Blocks(s, Compress(s, h, data[..16]), data[16..])
  }

  /** The checksum of the whole padded message first, then all blocks with the checksum behind them. */
  function Digest(s: bv8 -> bv8, msg: Bytes): (r: Bytes)
    ensures |r| == 16
  {
    Blocks(s, Copies(0, 16), Pad(msg) + Checksum(s, Copies(0, 16), 0, Pad(msg)))
  }

  // ----- lemmas

  /** The padding can be taken off again: its last byte says how long it is. */
  lemma PadInjective(a: Bytes, b: Bytes)
    requires Pad(a) == Pad(b)
    ensures a == b
  {
    var n, k := 16 - |a| % 16, 16 - |b| % 16;
    PadEndsWith(a, Copies(n as bv8, n));
    PadEndsWith(b, Copies(k as bv8, k));
    SmallByte(n);
    SmallByte(k);
    SamePrefix(a, Copies(n as bv8, n), b, Copies(k as bv8, k));
  }

  lemma PadEndsWith(a: Bytes, e: Bytes)
    requires |e| > 0
    ensures (a + e)[|a + e| - 1] == e[|e| - 1]
  {
  }

  lemma SmallByte(n: nat)
    requires n <= 16
    ensures (n as bv8) as int == n
  {
  }

  lemma SamePrefix<T>(a: seq<T>, e: seq<T>, b: seq<T>, f: seq<T>)
    requires a + e == b + f && |e| == |f|
    ensures a == b
  {
    assert a == (a + e)[..|a|] && b == (b + f)[..|b|];
  }

  /** A sequence of which the first n bytes are chained already. */
  function Partly(s: bv8 -> bv8, x: Bytes, m: Bytes, t: bv8, n: nat): (y: Bytes)
    requires n <= |x| == |m|
    ensures |y| == |x|
  {
    Chain(s, x[..n], m[..n], t) + x[n..]
  }

  lemma PartlyStep(s: bv8 -> bv8, x: Bytes, m: Bytes, t: bv8, n: nat)
    requires n < |x| == |m|
    ensures var y := Partly(s, x, m, t, n);
            Partly(s, x, m, t, n + 1) == y[n := Link(s, y[n], m[n], if n == 0 then t else y[n-1])]
  {
    hide Link;
    assert x[..n+1][..n] == x[..n] && m[..n+1][..n] == m[..n];
    ChainedByte(Chain(s, x[..n], m[..n], t), x, n);
  }

  lemma ChainedByte<T>(y: seq<T>, x: seq<T>, n: nat)
    requires |y| == n < |x|
    ensures var w := y + x[n..]; |w| == |x| && w[n] == x[n] && (n > 0 ==> w[n-1] == y[n-1])
    ensures forall b: T :: (y + x[n..])[n := b] == (y + [b]) + x[n+1..]
  {
  }

  lemma PartlyEnds(s: bv8 -> bv8, x: Bytes, m: Bytes, t: bv8)
    requires |x| == |m|
    ensures Partly(s, x, m, t, 0) == x && Partly(s, x, m, t, |x|) == Chain(s, x, m, t)
  {
    hide Chain;
    assert x[..|x|] == x && m[..|m|] == m;
    assert Chain(s, [], [], t) == [];
  }

  lemma {:induction false} BlocksSnoc(s: bv8 -> bv8, h: Bytes, data: Bytes, block: Bytes)
    requires |h| == |block| == 16 && |data| % 16 == 0
    decreases |data|
    ensures Blocks(s, h, data + block) == Compress(s, Blocks(s, h, data), block)
  {
    hide Compress;
    if data == [] {
      assert data + block == block && block[..16] == block && block[16..] == [];
    } else {
      assert (data + block)[..16] == data[..16] && (data + block)[16..] == data[16..] + block;
      BlocksSnoc(s, Compress(s, h, data[..16]), data[16..], block);
    }
  }

  /** Block by block, the byte carried over is the checksum's own last byte. */
  lemma {:induction false} ChecksumSnoc(s: bv8 -> bv8, c: Bytes, data: Bytes, block: Bytes)
    requires |c| == |block| == 16 && |data| % 16 == 0
    decreases |data|
    ensures Checksum(s, c, c[15], data + block) ==
              Chain(s, Checksum(s, c, c[15], data), block, Checksum(s, c, c[15], data)[15])
  {
    hide Chain;
    if data == [] {
      assert data + block == block && block[..16] == block && block[16..] == [];
    } else {
      assert (data + block)[..16] == data[..16] && (data + block)[16..] == data[16..] + block;
      ChecksumSnoc(s, Chain(s, c, data[..16], c[15]), data[16..], block);
    }
  }

  /** If no two bytes have one substitute, what comes out of a block tells the block. */
  lemma {:induction false} ChainInjective(s: bv8 -> bv8, x: Bytes, m: Bytes, m': Bytes, t: bv8)
    requires |x| == |m| == |m'| && forall a, b :: s(a) == s(b) ==> a == b
    requires Chain(s, x, m, t) == Chain(s, x, m', t)
    ensures m == m'
    decreases |x|
  {
    if x != [] {
      var n := |x| - 1;
      var y, y' := Chain(s, x[..n], m[..n], t), Chain(s, x[..n], m'[..n], t);
      assert y == Chain(s, x, m, t)[..n] && y' == Chain(s, x, m', t)[..n];
      ChainInjective(s, x[..n], m[..n], m'[..n], t);
      var before := if n == 0 then t else y[n-1];
      assert Chain(s, x, m, t)[n] == Link(s, x[n], m[n], before);
      assert Chain(s, x, m', t)[n] == Link(s, x[n], m'[n], before);
      LinkInjective(s, x[n], m[n], m'[n], before);
      assert m == m[..n] + [m[n]] && m' == m'[..n] + [m'[n]];
    }
  }

  lemma LinkInjective(s: bv8 -> bv8, x: bv8, m: bv8, m': bv8, t: bv8)
    requires (forall a, b :: s(a) == s(b) ==> a == b) && Link(s, x, m, t) == Link(s, x, m', t)
    ensures m == m'
  {
    XorCancels(x, s(m ^ t), s(m' ^ t));
    XorCancels(t, m, m');
  }

  lemma XorCancels(x: bv8, a: bv8, b: bv8)
    ensures x ^ a == x ^ b ==> a == b
    ensures a ^ x == b ^ x ==> a == b
  {
  }

  lemma ChecksumOfBlock(s: bv8 -> bv8, c: Bytes, last: bv8, block: Bytes)
    requires |c| == |block| == 16
    ensures Checksum(s, c, last, block) == Chain(s, c, block, last)
  {
    hide Chain;
    assert block[..16] == block && block[16..] == [];
    var c' := Chain(s, c, block, last);
    assert Checksum(s, c', c'[15], []) == c';
  }

  /** The checksum of a block, with what is carried into it, determines the block. */
  lemma ChecksumDeterminesBlock(s: bv8 -> bv8, c: Bytes, last: bv8, block: Bytes, block': Bytes)
    requires |c| == |block| == |block'| == 16 && forall a, b :: s(a) == s(b) ==> a == b
    ensures Checksum(s, c, last, block) == Checksum(s, c, last, block') <==> block == block'
  {
    hide Chain;
    ChecksumOfBlock(s, c, last, block);
    ChecksumOfBlock(s, c, last, block');
    if Checksum(s, c, last, block) == Checksum(s, c, last, block') {
      ChainInjective(s, c, block, block', last);
    }
  }

  lemma LinkWithZero(s: bv8 -> bv8, x: bv8, t: bv8)
    ensures Link(s, x, 0, t) == x ^ s(t)
  {
    assert 0 ^ t == t;
  }

  lemma XorAt(a: Bytes, b: Bytes, i: nat)
    requires i < |a| == |b|
    ensures Xor(a, b)[i] == a[i] ^ b[i]
  {
  }

  /** The state with the first i bytes of the block, and of its xor with the state, in place. */
  function Spread<T>(x: seq<T>, b: seq<T>, d: seq<T>, i: nat): (y: seq<T>)
    requires |x| == 48 && |b| == |d| == 16 && i <= 16
    ensures |y| == 48 && y[..16] == x[..16]
  {
    x[..16] + (b[..i] + x[16+i..32]) + (d[..i] + x[32+i..])
  }

  lemma SpreadStep<T>(x: seq<T>, b: seq<T>, d: seq<T>, i: nat)
    requires |x| == 48 && |b| == |d| == 16 && i < 16
    ensures Spread(x, b, d, i + 1) == Spread(x, b, d, i)[i + 16 := b[i]][i + 32 := d[i]]
    ensures Spread(x, b, d, i)[i] == x[i]
  {
  }

  lemma SpreadEnds<T>(x: seq<T>, b: seq<T>, d: seq<T>)
    requires |x| == 48 && |b| == |d| == 16
    ensures Spread(x, b, d, 0) == x && Spread(x, b, d, 16) == x[..16] + b + d
  {
  }

  lemma CopiesStep(b: Bytes, left: nat, i: nat, x: bv8)
    requires left <= i < |b|
    ensures (b[..left] + Copies(x, i - left) + b[i..])[i := x] == b[..left] + Copies(x, i + 1 - left) + b[i+1..]
  {
  }

  lemma PadWholeAndTail(done: Bytes, tail: Bytes)
    requires |done| % 16 == 0 && |tail| < 16
    ensures Pad(done + tail) == done + (tail + Copies((16 - |tail|) as bv8, 16 - |tail|))
  {
    assert |done + tail| % 16 == |tail|;
    ConcatAssociative(done, tail, Copies((16 - |tail|) as bv8, 16 - |tail|));
  }

  method Write(a: array<bv8>, i: nat, b: bv8)
    requires i < a.Length
    modifies a
    ensures a[..] == old(a[..])[i := b]
  {
    a[i] := b;
  }

  class Md2Context {
    const subst: bv8 -> bv8
    const cksum: array<bv8>
    const state: array<bv8>
    const buffer: array<bv8>
    var left: nat
    /** The message so far: its whole blocks, and what the buffer holds. */
    ghost var done: Bytes
    ghost var tail: Bytes

    ghost predicate Sizes() {
      && cksum.Length == 16 && state.Length == 48 && buffer.Length == 16
      && cksum != state && cksum != buffer && state != buffer
    }

    /** Digest and checksum are those of the whole blocks; only 16 bytes of the state carry over. */
    ghost predicate Current()
      reads this, cksum, state
    {
      && Sizes() && |done| % 16 == 0
      && state[..16] == Blocks(subst, Copies(0, 16), done)
      && cksum[..] == Checksum(subst, Copies(0, 16), 0, done)
    }

    ghost predicate Valid()
      reads this, cksum, state, buffer
    {
      Current() && left == |tail| < 16 && buffer[..left] == tail
    }

    ghost function Message(): Bytes
      reads this
    {
      done + tail
    }

    /** The source clears 46 of the 48 state bytes; junk stands for the other two. */
    constructor (s: bv8 -> bv8, junk: bv8)
      ensures Valid() && subst == s && Message() == []
      ensures fresh(cksum) && fresh(state) && fresh(buffer)
    {
      subst := s;
      cksum := new bv8[16](_ => 0);
      state := new bv8[48](i => if i < 46 then 0 else junk);
      buffer := new bv8[16](_ => 0);
      left := 0;
      done, tail := [], [];
      new;
      assert state[..16] == Copies(0, 16) && cksum[..] == Copies(0, 16);
    }

    method MixState()
      requires Sizes()
      modifies state
      ensures state[..16] == Compress(subst, old(state[..16]), old(buffer[..]))
    {
      hide Chain;
      SpreadBlock();
      ghost var start := state[..];
      var t: bv8 := 0;
      for i := 0 to 18
        invariant Rounds(subst, state[..], t, i) == Rounds(subst, start, 0, 0)
      {
        t := MixRound(t);
        t := t + i as bv8;
      }
    }

    /** The block, and the block xored with the state so far, go behind the state. */
    method SpreadBlock()
      requires Sizes()
      modifies state
      ensures state[..] == old(state[..16]) + buffer[..] + Xor(buffer[..], old(state[..16]))
    {
      hide Xor;
      ghost var x, b := state[..], buffer[..];
      SpreadEnds(x, b, Xor(b, x[..16]));
      for i := 0 to 16
        invariant state[..] == Spread(x, b, Xor(b, x[..16]), i)
      {
        SpreadStep(x, b, Xor(b, x[..16]), i);
        XorAt(b, x[..16], i);
        Write(state, i + 16, buffer[i]);
        Write(state, i + 32, buffer[i] ^ state[i]);
      }
    }

    method MixRound(t0: bv8) returns (t: bv8)
      requires Sizes()
      modifies state
      ensures state[..] == Chain(subst, old(state[..]), Copies(0, 48), t0)
      ensures t == state[47]
    {
      hide Partly, Link;
      t := t0;
      ghost var x, m := state[..], Copies(0, 48);
      PartlyEnds(subst, x, m, t0);
      for j := 0 to 48
        invariant t == if j == 0 then t0 else state[j-1]
        invariant state[..] == Partly(subst, x, m, t0, j)
      {
        PartlyStep(subst, x, m, t0, j);
        LinkWithZero(subst, state[j], t);
        Write(state, j, state[j] ^ subst(t));
        t := state[j];
      }
    }

    method Linked(x: bv8, m: bv8, t: bv8) returns (r: bv8)
      ensures r == Link(subst, x, m, t)
    {
      r := x ^ subst(m ^ t);
    }

    method MixChecksum()
      requires Sizes()
      modifies cksum
      ensures cksum[..] == Chain(subst, old(cksum[..]), buffer[..], old(cksum[15]))
    {
      hide Partly, Link;
      var t := cksum[15];
      ghost var x, m := cksum[..], buffer[..];
      PartlyEnds(subst, x, m, t);
      for i := 0 to 16
        invariant t == if i == 0 then x[15] else cksum[i-1]
        invariant cksum[..] == Partly(subst, x, m, x[15], i)
      {
        PartlyStep(subst, x, m, x[15], i);
        t := Linked(cksum[i], buffer[i], t);
        Write(cksum, i, t);
      }
    }

    /** Digests the full buffer. */
    method Process()
      requires Current()
      modifies this`done, cksum, state
      ensures Current() && done == old(done) + old(buffer[..])
    {
      hide Compress, Chain;
      BlocksSnoc(subst, Copies(0, 16), done, buffer[..]);
      ChecksumSnoc(subst, Copies(0, 16), done, buffer[..]);
      MixState();
      MixChecksum();
      done := done + buffer[..];
    }

    method Update(input: Bytes)
      requires Valid()
      modifies this, cksum, state, buffer
      ensures Valid() && Message() == old(Message()) + input
    {
      hide Blocks, Checksum;
      var rest := input;
      while |rest| > 0
        invariant Valid() && Message() + rest == old(Message()) + input
        decreases |rest|
      {
        var fill := if left + |rest| > 16 then 16 - left else |rest|;
        CopyIn(left, rest[..fill]);
        ConcatAssociative(done, tail, rest[..fill]);
        assert rest == rest[..fill] + rest[fill..];
        tail := tail + rest[..fill];
        left := left + fill;
        rest := rest[fill..];
        if left == 16 {
          left := 0;
          assert buffer[..] == tail;
          Process();
          tail := [];
        }
      }
    }

    method CopyIn(at: nat, src: Bytes)
      requires at + |src| <= buffer.Length
      modifies buffer
      ensures buffer[..at+|src|] == old(buffer[..at]) + src
    {
      forall i | 0 <= i < |src| {
        buffer[at + i] := src[i];
      }
    }

    /** Completes the block with bytes that say how many they are. */
    method PadBuffer()
      requires Valid()
      modifies buffer
      ensures Current() && done + buffer[..] == Pad(Message())
    {
      hide Blocks, Checksum, Copies, Pad;
      PadWholeAndTail(done, tail);
      FillBuffer((16 - left) as bv8);
    }

    method FillBuffer(x: bv8)
      requires Sizes() && left == |tail| < 16 && buffer[..left] == tail
      modifies buffer
      ensures buffer[..] == tail + Copies(x, 16 - left)
    {
      ghost var b := buffer[..];
      for i := left to 16
        invariant buffer[..] == b[..left] + Copies(x, i - left) + b[i..]
      {
        CopiesStep(b, left, i, x);
        Write(buffer, i, x);
      }
    }

    method LoadChecksum()
      requires Sizes()
      modifies buffer
      ensures buffer[..] == cksum[..]
    {
      forall i | 0 <= i < 16 {
        buffer[i] := cksum[i];
      }
    }

    /** Digests the completed message, then its checksum. */
    method Finish() returns (output: Bytes)
      requires Valid()
      modifies this, cksum, state, buffer
      ensures output == Digest(subst, old(Message()))
    {
      hide Blocks, Checksum, Pad;
      PadBuffer();
      Process();
      LoadChecksum();
      Process();
      output := state[..16];
    }
  }

  /** In whatever pieces the message comes, the digest is that of the standard. */
  method DigestPieces(s: bv8 -> bv8, junk: bv8, pieces: seq<Bytes>) returns (output: Bytes)
    ensures output == Digest(s, Concat(pieces))
  {
    hide Digest, Blocks, Checksum, Copies;
    var ctx := new Md2Context(s, junk);
    for i := 0 to |pieces|
      invariant ctx.Valid() && ctx.subst == s && fresh(ctx) && fresh(ctx.cksum) && fresh(ctx.state) && fresh(ctx.buffer)
      invariant ctx.Message() == Concat(pieces[..i])
    {
      ctx.Update(pieces[i]);
      ConcatSnoc(pieces[..i], pieces[i]);
      assert pieces[..i+1] == pieces[..i] + [pieces[i]];
    }
    assert pieces[..|pieces|] == pieces;
    output := ctx.Finish();
  }
}
