/** Streaming message digests: a buffer for a partial block and a two-word byte counter.

  One engine stands for MD4, MD5, SHA-1, SHA-224/256 (blocks of 64 bytes, words of 32 bits) and
  SHA-384/512 (blocks of 128 bytes, words of 64 bits); the compression function is a parameter. */
module Streaming {
  import opened Arithmetic
  import opened Sequences

  type byte = x: int | 0 <= x < 256

  /** wordBytes is the size of a counter word; the length field has two of them. */
  datatype Engine<!S> = Engine(wordBytes: nat, bigEndian: bool, initial: S, compress: (S, seq<byte>) -> S) {
    ghost predicate Valid() {
      wordBytes == 4 || wordBytes == 8
    }

    /** Bytes of a block. */
    function Block(): (b: nat)
      ensures wordBytes == 4 ==> b == 64
      ensures wordBytes == 8 ==> b == 128
    {
      16 * wordBytes
    }

    /** One more than the largest counter word. */
    function Word(): nat {
      if wordBytes == 4 then 0x1_0000_0000 else 0x1_0000_0000_0000_0000
    }
  }

  // ----- the standard's view

  ghost predicate Whole(data: seq<byte>, block: nat)
    requires block > 0
  {
    data == [] || (|data| >= block && Whole(data[block..], block))
  }

  /** Compressing the whole blocks of some data, first to last. */
  function Fold<S>(e: Engine<S>, s: S, data: seq<byte>): S
    requires e.Block() > 0
  {
    if |data| < e.Block() then s else Fold(e, e.compress(s, data[..e.Block()]), data[e.Block()..])
  }

  function Zeros(n: nat): (z: seq<byte>)
    ensures |z| == n && forall i :: 0 <= i < n ==> z[i] == 0
  {
    seq(n, _ => 0)
  }

  /** A number in so many bytes, most significant first. */
  function BigEndian(n: nat, k: nat): (b: seq<byte>)
    ensures |b| == k
  {
    if k == 0 then [] else BigEndian(n / 256, k - 1) + [n % 256]
  }

  /** A number in so many bytes, least significant first. */
  function LittleEndian(n: nat, k: nat): (b: seq<byte>)
    ensures |b| == k
  {
    if k == 0 then [] else [n % 256] + LittleEndian(n / 256, k - 1)
  }

  function Encode(n: nat, k: nat, bigEndian: bool): (b: seq<byte>)
    ensures |b| == k
  {
    if bigEndian then BigEndian(n, k) else LittleEndian(n, k)
  }

  /** The number that some bytes encode. */
  function Decode(b: seq<byte>, bigEndian: bool): nat {
    if b == [] then 0
    else if bigEndian then 256 * Decode(b[..|b|-1], true) + b[|b|-1]
    else b[0] + 256 * Decode(b[1..], false)
  }

  /** A message padded as the standards have it: a one bit, as few zero bits as bring the length to
    two words short of a block, and a length field. */
  ghost predicate Padded<S>(e: Engine<S>, msg: seq<byte>, bitLength: nat, padded: seq<byte>) {
    exists z: nat ::
      && z < e.Block() && e.Block() > 0
      && (|msg| + 1 + z) % e.Block() == e.Block() - 2 * e.wordBytes
      && padded == msg + [0x80] + Zeros(z) + Encode(bitLength, 2 * e.wordBytes, e.bigEndian)
  }

  // ----- lemmas about blocks

  lemma {:induction false} FoldConcat<S>(e: Engine<S>, s: S, a: seq<byte>, b: seq<byte>)
    requires e.Block() > 0 && Whole(a, e.Block())
    ensures Fold(e, s, a + b) == Fold(e, Fold(e, s, a), b)
  {
    if a == [] {
      assert a + b == b;
    } else {
      assert (a + b)[..e.Block()] == a[..e.Block()] && (a + b)[e.Block()..] == a[e.Block()..] + b;
      FoldConcat(e, e.compress(s, a[..e.Block()]), a[e.Block()..], b);
    }
  }

  lemma {:induction false} WholeConcat(a: seq<byte>, b: seq<byte>, block: nat)
    requires block > 0 && Whole(a, block) && Whole(b, block)
    ensures Whole(a + b, block)
  {
    if a == [] {
      assert a + b == b;
    } else {
      assert (a + b)[block..] == a[block..] + b;
      WholeConcat(a[block..], b, block);
    }
  }

  lemma OneBlock<S>(e: Engine<S>, s: S, b: seq<byte>)
    requires |b| == e.Block() > 0
    ensures Whole(b, e.Block()) && Fold(e, s, b) == e.compress(s, b)
  {
    assert b[..e.Block()] == b && b[e.Block()..] == [];
  }

  lemma {:induction false} WholeLength(data: seq<byte>, block: nat)
    requires block > 0 && Whole(data, block)
    ensures |data| % block == 0
  {
    if data != [] {
      WholeLength(data[block..], block);
      DivModStep(|data|, block);
    }
  }

  // ----- the length field

  /** The number of counted bits, cut to the length field. */
  function BitLength<S>(e: Engine<S>, counted: nat): nat {
    8 * counted % (e.Word() * e.Word())
  }

  /** Shifting the two counter words left by three gives the bits counted. */
  lemma LengthField32(c: nat)
    ensures var w := 0x1_0000_0000; var t0, t1 := c % w, c / w % w;
            var high, low := t0 / 0x2000_0000 + t1 * 8 % w, t0 * 8 % w;
            high < w && high * w + low == 8 * c % 0x1_0000_0000_0000_0000
  {
    var w := 0x1_0000_0000;
    var q, t0 := c / w, c % w;
    var q2, t1 := q / w, q % w;
    var h1, r1 := t1 * 8 / w, t1 * 8 % w;
    var h0, r0 := t0 / 0x2000_0000, t0 * 8 % w;
    Eighths32(t0, t1);
    assert c == w * q + t0 && q == w * q2 + t1 && t1 * 8 == w * h1 + r1;
    assert 8 * c == 0x1_0000_0000_0000_0000 * (8 * q2 + h1) + (0x1_0000_0000 * (h0 + r1) + r0);
    DivModUnique(8 * c, 0x1_0000_0000_0000_0000, 8 * q2 + h1, 0x1_0000_0000 * (h0 + r1) + r0);
  }
  lemma Eighths32(t0: nat, t1: nat)
    requires t0 < 0x1_0000_0000 && t1 < 0x1_0000_0000
    ensures var w := 0x1_0000_0000; t0 * 8 == w * (t0 / 0x2000_0000) + t0 * 8 % w && t0 / 0x2000_0000 < 8
    ensures var w := 0x1_0000_0000; t1 * 8 % w <= w - 8
  {
    var a, b := t0 / 0x2000_0000, t0 % 0x2000_0000;
    assert t0 * 8 == 0x1_0000_0000 * a + 8 * b;
    var d, e := t1 / 0x2000_0000, t1 % 0x2000_0000;
    assert t1 * 8 == 0x1_0000_0000 * d + 8 * e;
  }

  lemma LengthField64(c: nat)
    ensures var w := 0x1_0000_0000_0000_0000; var t0, t1 := c % w, c / w % w;
            var high, low := t0 / 0x2000_0000_0000_0000 + t1 * 8 % w, t0 * 8 % w;
            high < w && high * w + low == 8 * c % 0x1_0000_0000_0000_0000_0000_0000_0000_0000
  {
    var w := 0x1_0000_0000_0000_0000;
    var q, t0 := c / w, c % w;
    var q2, t1 := q / w, q % w;
    var h1, r1 := t1 * 8 / w, t1 * 8 % w;
    var h0, r0 := t0 / 0x2000_0000_0000_0000, t0 * 8 % w;
    Eighths64(t0, t1);
    assert c == w * q + t0 && q == w * q2 + t1 && t1 * 8 == w * h1 + r1;
    assert 8 * c == 0x1_0000_0000_0000_0000_0000_0000_0000_0000 * (8 * q2 + h1)
                    + (0x1_0000_0000_0000_0000 * (h0 + r1) + r0);
    DivModUnique(8 * c, 0x1_0000_0000_0000_0000_0000_0000_0000_0000, 8 * q2 + h1,
                 0x1_0000_0000_0000_0000 * (h0 + r1) + r0);
  }
  lemma Eighths64(t0: nat, t1: nat)
    requires t0 < 0x1_0000_0000_0000_0000 && t1 < 0x1_0000_0000_0000_0000
    ensures var w := 0x1_0000_0000_0000_0000;
            t0 * 8 == w * (t0 / 0x2000_0000_0000_0000) + t0 * 8 % w && t0 / 0x2000_0000_0000_0000 < 8
    ensures var w := 0x1_0000_0000_0000_0000; t1 * 8 % w <= w - 8
  {
    var a, b := t0 / 0x2000_0000_0000_0000, t0 % 0x2000_0000_0000_0000;
    assert t0 * 8 == 0x1_0000_0000_0000_0000 * a + 8 * b;
    var d, e := t1 / 0x2000_0000_0000_0000, t1 % 0x2000_0000_0000_0000;
    assert t1 * 8 == 0x1_0000_0000_0000_0000 * d + 8 * e;
  }

  lemma EighthOfWord(v: nat, t0: nat, t1: nat)
    requires v > 0 && t0 < 8 * v
    ensures t0 / v < 8 && t1 * 8 % (8 * v) == 8 * (t1 % v)
  {
    var d, c, a := t1 / v, t1 % v, t0 / v;
    assert t1 == v * d + c;
    assert t1 * 8 == (8 * v) * d + 8 * c;
    DivModUnique(t1 * 8, 8 * v, d, 8 * c);
    assert t0 == v * a + t0 % v;
    MulGap(v, 7, a);
  }

  /** The two shifted words that are ored into the high word have no bit in common. */
  lemma HighWordIsSum(v: nat, t0: nat, t1: nat)
    requires v > 0 && t0 < 8 * v
    ensures BitOr(t0 / v, t1 * 8 % (8 * v)) == t0 / v + t1 * 8 % (8 * v)
  {
    hide BitOr, Pow2;
    PowersOfTwo();
    EighthOfWord(v, t0, t1);
    BitOrIsSum(t0 / v, 3, t1 % v);
  }

  function Power256(k: nat): (p: nat)
    ensures p >= 1
  {
    if k == 0 then 1 else 256 * Power256(k - 1)
  }

  /** A number of two words is the encoding of one after that of the other. */
  lemma {:induction false} EncodeWords(h: nat, l: nat, j: nat, k: nat)
    requires l < Power256(k)
    ensures BigEndian(h * Power256(k) + l, j + k) == BigEndian(h, j) + BigEndian(l, k)
    ensures LittleEndian(h * Power256(k) + l, j + k) == LittleEndian(l, k) + LittleEndian(h, j)
  {
    if k > 0 {
      var p := Power256(k - 1);
      var n := h * (256 * p) + l;
      assert h * (256 * p) == 256 * (h * p) by { TimesThree(h, p); }
      assert n / 256 == h * p + l / 256 && n % 256 == l % 256;
      EncodeWords(h, l / 256, j, k - 1);
    }
  }

  /** Reading an encoded number gives it back if it fits. */
  lemma {:induction false} EncodeDecode(n: nat, k: nat, bigEndian: bool)
    requires n < Power256(k)
    ensures Decode(Encode(n, k, bigEndian), bigEndian) == n
  {
    if k > 0 {
      EncodeDecode(n / 256, k - 1, bigEndian);
      var b := Encode(n, k, bigEndian);
      assert if bigEndian then b[..k-1] == BigEndian(n / 256, k - 1) else b[1..] == LittleEndian(n / 256, k - 1);
    }
  }

  /** Every byte string is the encoding of one number that fits. */
  lemma {:induction false} DecodeEncode(b: seq<byte>, bigEndian: bool)
    ensures Decode(b, bigEndian) < Power256(|b|)
    ensures Encode(Decode(b, bigEndian), |b|, bigEndian) == b
  {
    if b != [] {
      var rest := if bigEndian then b[..|b|-1] else b[1..];
      DecodeEncode(rest, bigEndian);
      var n := Decode(b, bigEndian);
      assert n / 256 == Decode(rest, bigEndian);
      assert b == if bigEndian then rest + [n % 256] else [n % 256] + rest;
    }
  }

  lemma TimesThree(h: nat, p: nat)
    ensures h * (256 * p) == 256 * (h * p)
  {
  }

  /** Two words written in the engine's byte order encode the number they make. */
  lemma EncodedWords<S>(e: Engine<S>, high: nat, low: nat)
    requires e.Valid() && low < e.Word()
    ensures Encode(high * e.Word() + low, 2 * e.wordBytes, e.bigEndian) ==
              if e.bigEndian then BigEndian(high, e.wordBytes) + BigEndian(low, e.wordBytes)
              else LittleEndian(low, e.wordBytes) + LittleEndian(high, e.wordBytes)
  {
    PowersOfWords();
    assert Power256(e.wordBytes) == e.Word();
    hide BigEndian, LittleEndian, Power256;
    EncodeWords(high, low, e.wordBytes, e.wordBytes);
  }

  /** The counter words shifted left by three hold the bits counted. */
  lemma ShiftedWords<S>(e: Engine<S>, counted: nat)
    requires e.Valid()
    ensures var t0, t1 := counted % e.Word(), counted / e.Word() % e.Word();
            var high, low := t0 / (e.Word() / 8) + t1 * 8 % e.Word(), t0 * 8 % e.Word();
            high < e.Word() && low < e.Word() && high * e.Word() + low == BitLength(e, counted)
  {
    if e.wordBytes == 4 {
      LengthField32(counted);
    } else {
      LengthField64(counted);
    }
  }

  lemma PowersOfWords()
    ensures Power256(4) == 0x1_0000_0000 && Power256(8) == 0x1_0000_0000_0000_0000
  {
    assert Power256(2) == 0x1_0000;
    assert Power256(4) == 0x1_0000 * Power256(2);
    assert Power256(6) == 0x1_0000 * Power256(4);
    assert Power256(8) == 0x1_0000 * Power256(6);
  }

  /** The length field holds the length of the message itself exactly when the bytes that the
    counter missed make a multiple of the field; in particular when it missed none. */
  lemma LengthFieldIff<S>(e: Engine<S>, length: nat, counted: nat, missed: nat)
    requires e.Valid() && length == counted + e.Word() * missed
    ensures BitLength(e, counted) == BitLength(e, length) <==> 8 * missed % e.Word() == 0
  {
    if e.wordBytes == 4 {
      MissedBits32(counted, missed);
    } else {
      MissedBits64(counted, missed);
    }
  }

  lemma MissedBits32(c: nat, m: nat)
    ensures 8 * c % 0x1_0000_0000_0000_0000 == 8 * (c + 0x1_0000_0000 * m) % 0x1_0000_0000_0000_0000
            <==> 8 * m % 0x1_0000_0000 == 0
  {
    var w, w2 := 0x1_0000_0000, 0x1_0000_0000_0000_0000;
    var a, b, d, r := 8 * m / w, 8 * m % w, 8 * c / w2, 8 * c % w2;
    assert 8 * (c + 0x1_0000_0000 * m) == 0x1_0000_0000_0000_0000 * (d + a) + (r + 0x1_0000_0000 * b);
    if r + 0x1_0000_0000 * b < w2 {
      DivModUnique(8 * (c + 0x1_0000_0000 * m), w2, d + a, r + 0x1_0000_0000 * b);
    } else {
      DivModUnique(8 * (c + 0x1_0000_0000 * m), w2, d + a + 1, r + 0x1_0000_0000 * b - w2);
    }
  }

  lemma MissedBits64(c: nat, m: nat)
    ensures 8 * c % 0x1_0000_0000_0000_0000_0000_0000_0000_0000 ==
              8 * (c + 0x1_0000_0000_0000_0000 * m) % 0x1_0000_0000_0000_0000_0000_0000_0000_0000
            <==> 8 * m % 0x1_0000_0000_0000_0000 == 0
  {
    var w, w2 := 0x1_0000_0000_0000_0000, 0x1_0000_0000_0000_0000_0000_0000_0000_0000;
    var a, b, d, r := 8 * m / w, 8 * m % w, 8 * c / w2, 8 * c % w2;
    assert 8 * (c + 0x1_0000_0000_0000_0000 * m) ==
           0x1_0000_0000_0000_0000_0000_0000_0000_0000 * (d + a) + (r + 0x1_0000_0000_0000_0000 * b);
    if r + 0x1_0000_0000_0000_0000 * b < w2 {
      DivModUnique(8 * (c + 0x1_0000_0000_0000_0000 * m), w2, d + a, r + 0x1_0000_0000_0000_0000 * b);
    } else {
      DivModUnique(8 * (c + 0x1_0000_0000_0000_0000 * m), w2, d + a + 1, r + 0x1_0000_0000_0000_0000 * b - w2);
    }
  }

  /** The counter with a carry is the sum of the counted lengths. */
  lemma CounterAdds<S>(e: Engine<S>, counted: nat, ilen: nat)
    requires e.Valid()
    ensures var w := e.Word(); var c := counted + ilen % w;
            var t0 := (counted % w + ilen % w) % w;
            && t0 == c % w
            && c / w % w == (if t0 < ilen % w then (counted / w % w + 1) % w else counted / w % w)
            && t0 % e.Block() == (counted % w % e.Block() + ilen) % e.Block()
  {
    CarryAdds(e.Word(), counted, ilen % e.Word());
    CounterInBlock(e, counted, ilen);
  }

  /** Two words with a carry. */
  lemma CarryAdds(w: nat, counted: nat, i: nat)
    requires i < w && w > 1
    ensures var c, t0 := counted + i, (counted % w + i) % w;
            t0 == c % w && c / w % w == if t0 < i then (counted / w % w + 1) % w else counted / w % w
  {
    var q, t := counted / w, counted % w;
    assert counted == w * q + t;
    if t + i < w {
      DivModUnique(counted + i, w, q, t + i);
      DivModSmall(t + i, w);
    } else {
      Carries(w, counted + i, q, t + i - w);
      DivModUnique(t + i, w, 1, t + i - w);
    }
  }

  lemma Carries(w: nat, c: nat, q: nat, r: nat)
    requires w > 1 && r < w && c == w * q + (w + r)
    ensures c % w == r && c / w % w == (q % w + 1) % w
  {
    DivModUnique(c, w, q + 1, r);
    ModOfSum(q, 1, w);
  }

  lemma CounterInBlock<S>(e: Engine<S>, counted: nat, ilen: nat)
    requires e.Valid()
    ensures (counted + ilen % e.Word()) % e.Word() % e.Block() == (counted % e.Word() % e.Block() + ilen) % e.Block()
  {
    var w, b := e.Word(), e.Block();
    var m := if e.wordBytes == 4 then 0x400_0000 else 0x200_0000_0000_0000;
    assert w == b * m;
    ModOfMod(counted + ilen % w, b, m);
    ModOfMod(counted, b, m);
    ModOfMod(ilen, b, m);
    ModOfSum(counted, ilen % w, b);
    ModOfSum(counted, ilen, b);
  }

  lemma EmptyTail(a: seq<byte>, tail: seq<byte>, b: seq<byte>)
    ensures tail == [] ==> a + tail + b == a + b
  {
  }

  lemma ConcatFour(a: seq<byte>, b: seq<byte>, front: seq<byte>, back: seq<byte>)
    ensures (a + b + front) + [] + back == a + b + (front + back)
    ensures (a + front) + [] + back == a + [] + (front + back)
  {
  }

  /** Zeros and a length field complete the message to whole blocks. */
  lemma PaddingFits<S>(e: Engine<S>, last: nat, padn: nat)
    requires e.Valid() && last < e.Block()
    requires var room := e.Block() - 2 * e.wordBytes;
             padn == if last < room then room - last else room + e.Block() - last
    ensures 1 <= padn <= e.Block()
    ensures (last + padn) % e.Block() == e.Block() - 2 * e.wordBytes
    ensures (last + padn + 2 * e.wordBytes) % e.Block() == 0
  {
  }

  lemma PaddedLength<S>(e: Engine<S>, length: nat, last: nat, padn: nat)
    requires e.Valid() && last == length % e.Block()
    requires (last + padn) % e.Block() == e.Block() - 2 * e.wordBytes
    requires (last + padn + 2 * e.wordBytes) % e.Block() == 0
    ensures (length + padn) % e.Block() == e.Block() - 2 * e.wordBytes
    ensures (length + padn + 2 * e.wordBytes) % e.Block() == 0
  {
    ModOfSum(length, padn, e.Block());
    ModOfSum(length, padn + 2 * e.wordBytes, e.Block());
  }

  class StreamDigest<S> {
    const e: Engine<S>
    var total0: nat
    var total1: nat
    var state: S
    const buffer: array<byte>
    /** The message so far: the part compressed, and the part in the buffer. */
    ghost var done: seq<byte>
    ghost var tail: seq<byte>
    /** How many of its bytes the counter has been given. */
    ghost var counted: nat

    ghost predicate Valid()
      reads this, buffer
    {
      && e.Valid() && buffer.Length == e.Block()
      && total0 < e.Word() && total1 < e.Word()
      && total0 == counted % e.Word() && total1 == counted / e.Word() % e.Word()
      && Whole(done, e.Block()) && |tail| < e.Block() && total0 % e.Block() == |tail|
      && buffer[..|tail|] == tail
      && state == Fold(e, e.initial, done)
    }

    ghost function Message(): seq<byte>
      reads this
    {
      done + tail
    }

    constructor (engine: Engine<S>)
      requires engine.Valid()
      ensures Valid() && e == engine && Message() == [] && counted == 0 && fresh(buffer)
    {
      e := engine;
      total0, total1 := 0, 0;
      state := engine.initial;
      buffer := new byte[engine.Block()](_ => 0);
      done, tail, counted := [], [], 0;
    }

    method Update(input: seq<byte>)
      requires Valid()
      modifies this, buffer
      ensures Valid()
      ensures Message() == old(Message()) + input
      ensures counted == old(counted) + |input| % e.Word()
    {
      if |input| == 0 {
        return;
      }
      var left := total0 % e.Block();
      var fill := e.Block() - left;
      Count(|input|);
      Absorb(input, left, fill);
    }

    /** Adds to the counter: the low word takes the call's length cut to a word, the high word the carry. */
    method Count(ilen: nat)
      requires e.Valid() && total0 == counted % e.Word() && total1 == counted / e.Word() % e.Word()
      modifies this`total0, this`total1, this`counted
      ensures counted == old(counted) + ilen % e.Word()
      ensures total0 == counted % e.Word() && total1 == counted / e.Word() % e.Word()
      ensures total0 % e.Block() == (old(total0) % e.Block() + ilen) % e.Block()
    {
      CounterAdds(e, counted, ilen);
      counted := counted + ilen % e.Word();
      total0 := (total0 + ilen % e.Word()) % e.Word();
      if total0 < ilen % e.Word() {
        total1 := (total1 + 1) % e.Word();
      }
    }

    method Absorb(input: seq<byte>, left0: nat, fill: nat)
      requires e.Valid() && buffer.Length == e.Block()
      requires left0 < e.Block() && fill == e.Block() - left0 && |input| > 0
      requires Whole(done, e.Block()) && |tail| == left0 && buffer[..left0] == tail
      requires state == Fold(e, e.initial, done)
      requires total0 % e.Block() == (left0 + |input|) % e.Block()
      modifies this`state, this`done, this`tail, buffer
      ensures Whole(done, e.Block()) && |tail| < e.Block() && total0 % e.Block() == |tail|
      ensures buffer[..|tail|] == tail && state == Fold(e, e.initial, done)
      ensures done + tail == old(done + tail) + input
    {
      hide Fold, Whole;
      var left, rest := left0, input;
      ghost var message := done + tail + input;
      if left != 0 && |rest| >= fill {
        FillBlock(left, rest[..fill]);
        ConcatFour(old(done), old(tail), rest[..fill], rest[fill..]);
        rest := rest[fill..];
        left := 0;
        ModUnchanged(|rest|, e.Block(), 1);
      }
      EmptyTail(done, tail, rest);
      rest := CompressAll(rest);
      EmptyTail(done, tail, rest);
      assert done + tail + rest == message;
      ConcatAssociative(done, tail, rest);
      DivModSmall(left + |rest|, e.Block());
      if |rest| > 0 {
        CopyIn(left, rest);
        tail := tail + rest;
      }
    }

    /** Compresses whole blocks straight from the input. */
    method CompressAll(input: seq<byte>) returns (rest: seq<byte>)
      requires e.Valid() && (tail == [] || |input| < e.Block())
      requires Whole(done, e.Block()) && state == Fold(e, e.initial, done)
      modifies this`state, this`done
      ensures Whole(done, e.Block()) && state == Fold(e, e.initial, done)
      ensures |rest| < e.Block() && |input| % e.Block() == |rest|
      ensures tail != [] ==> rest == input && done == old(done)
      ensures done + rest == old(done) + input
    {
      hide Fold, Whole;
      rest := input;
      while |rest| >= e.Block()
        invariant Whole(done, e.Block()) && state == Fold(e, e.initial, done)
        invariant |input| < e.Block() ==> rest == input && done == old(done)
        invariant done + rest == old(done) + input
        invariant |input| % e.Block() == |rest| % e.Block()
      {
        ghost var before := done;
        CompressBlock(rest[..e.Block()]);
        ConcatAssociative(before, rest[..e.Block()], rest[e.Block()..]);
        assert rest[..e.Block()] + rest[e.Block()..] == rest;
        rest := rest[e.Block()..];
        ModUnchanged(|rest|, e.Block(), 1);
      }
      DivModSmall(|rest|, e.Block());
    }

    /** Copies bytes into the buffer behind those it holds. */
    method CopyIn(at: nat, src: seq<byte>)
      requires at + |src| <= buffer.Length
      modifies buffer
      ensures buffer[..at+|src|] == old(buffer[..at]) + src
    {
      forall i | 0 <= i < |src| {
        buffer[at + i] := src[i];
      }
    }

    /** Completes the block in the buffer and compresses it. */
    method FillBlock(left: nat, src: seq<byte>)
      requires e.Valid() && |tail| == left && buffer.Length == e.Block() == left + |src| && buffer[..left] == tail
      requires Whole(done, e.Block()) && state == Fold(e, e.initial, done)
      modifies this`state, this`done, this`tail, buffer
      ensures done == old(done) + old(tail) + src && tail == []
      ensures Whole(done, e.Block()) && state == Fold(e, e.initial, done)
    {
      CopyIn(left, src);
      assert buffer[..] == tail + src;
      OneBlock(e, state, buffer[..]);
      FoldConcat(e, e.initial, done, buffer[..]);
      WholeConcat(done, buffer[..], e.Block());
      state := e.compress(state, buffer[..]);
      done := done + (tail + src);
      tail := [];
    }

    /** Compresses a block straight from the input. */
    method CompressBlock(block: seq<byte>)
      requires e.Valid() && |block| == e.Block() && tail == []
      requires Whole(done, e.Block()) && state == Fold(e, e.initial, done)
      modifies this`state, this`done
      ensures done == old(done) + block
      ensures Whole(done, e.Block()) && state == Fold(e, e.initial, done)
    {
      OneBlock(e, state, block);
      FoldConcat(e, e.initial, done, block);
      WholeConcat(done, block, e.Block());
      state := e.compress(state, block);
      done := done + block;
    }

    /** The counter in bits, as it is appended to the message. */
    method LengthField() returns (msglen: seq<byte>)
      requires Valid()
      ensures msglen == Encode(BitLength(e, counted), 2 * e.wordBytes, e.bigEndian)
    {
      hide Fold, Whole, BigEndian, LittleEndian, BitLength, BitOr;
      ShiftedWords(e, counted);
      HighWordIsSum(e.Word() / 8, total0, total1);
      var high := BitOr(total0 / (e.Word() / 8), total1 * 8 % e.Word());
      var low := total0 * 8 % e.Word();
      EncodedWords(e, high, low);
      msglen := if e.bigEndian then BigEndian(high, e.wordBytes) + BigEndian(low, e.wordBytes)
                else LittleEndian(low, e.wordBytes) + LittleEndian(high, e.wordBytes);
    }

    /** The padding, from its one bit on, up to two words before the end of a block. */
    method Padding() returns (padding: seq<byte>)
      requires Valid()
      ensures var z := |padding| - 1;
              && 0 <= z < e.Block() && padding == [0x80] + Zeros(z)
              && (|Message()| + 1 + z) % e.Block() == e.Block() - 2 * e.wordBytes
              && (|Message()| + 1 + z + 2 * e.wordBytes) % e.Block() == 0
    {
      hide Fold, Whole;
      var last := total0 % e.Block();
      var room := e.Block() - 2 * e.wordBytes;
      var padn := if last < room then room - last else room + e.Block() - last;
      MessageLength();
      PaddingFits(e, last, padn);
      PaddedLength(e, |Message()|, last, padn);
      padding := [0x80] + Zeros(padn - 1);
    }

    /** Pads the message with a one bit, zeros and the counted bits, and compresses what is left. */
    method Finish() returns (digest: S)
      requires Valid()
      modifies this, buffer
      ensures IsDigest(e, old(Message()), BitLength(e, old(counted)), digest)
    {
      hide Fold, Whole, Encode, BitLength;
      ghost var msg, bits := Message(), BitLength(e, counted);
      var msglen := LengthField();
      var padding := Padding();
      Update(padding);
      Update(msglen);
      digest := state;
      MessageLength();
      assert Message() == msg + padding + msglen;
      assert done == Message();
      assert msg + padding == msg + [0x80] + Zeros(|padding| - 1);
      assert Padded(e, msg, bits, done);
    }

    /** The buffered part is what the whole blocks of the message leave over. */
    lemma MessageLength()
      requires Valid()
      ensures |Message()| % e.Block() == |tail| == total0 % e.Block()
      ensures |tail| == 0 ==> done == Message()
    {
      WholeLength(done, e.Block());
      ModOfSum(|done|, |tail|, e.Block());
      DivModSmall(|tail|, e.Block());
    }
  }

  // ----- a message in pieces

  lemma SameResidue(a: nat, y: nat, z: nat, h: nat)
    requires h > 0 && y < h && z < h && (a + y) % h == (a + z) % h
    ensures y == z
  {
    var k, l, r := (a + y) / h, (a + z) / h, (a + y) % h;
    assert a + y == h * k + r;
    assert a + z == h * l + r;
    SameMultiple(h, k, l, a + y - r, a + z - r);
  }

  lemma SameMultiple(h: nat, k: nat, l: nat, x: int, y: int)
    requires x == h * k && y == h * l && x < y + h && y < x + h
    ensures x == y
  {
    MulGap(h, k, l);
    MulGap(h, l, k);
  }

  /** There is only one way to pad a message. */
  lemma PaddingIsUnique<S>(e: Engine<S>, msg: seq<byte>, bits: nat, p: seq<byte>, p': seq<byte>)
    requires Padded(e, msg, bits, p) && Padded(e, msg, bits, p')
    ensures p == p'
  {
    hide Encode;
    var y: nat :| y < e.Block() && (|msg| + 1 + y) % e.Block() == e.Block() - 2 * e.wordBytes
                  && p == msg + [0x80] + Zeros(y) + Encode(bits, 2 * e.wordBytes, e.bigEndian);
    var z: nat :| z < e.Block() && (|msg| + 1 + z) % e.Block() == e.Block() - 2 * e.wordBytes
                  && p' == msg + [0x80] + Zeros(z) + Encode(bits, 2 * e.wordBytes, e.bigEndian);
    SameResidue(|msg| + 1, y, z, e.Block());
  }

  /** A padded message byte by byte: the message, a one bit, fewer zero bytes than a block has, and at the
    end of a block two words that hold the number of bits. */
  lemma PaddedBytes<S>(e: Engine<S>, msg: seq<byte>, bits: nat, padded: seq<byte>)
    requires e.Valid() && bits < e.Word() * e.Word() && Padded(e, msg, bits, padded)
    ensures var field := |padded| - 2 * e.wordBytes;
            && |msg| < field <= |msg| + e.Block() && |padded| % e.Block() == 0
            && padded[..|msg|] == msg && padded[|msg|] == 0x80
            && (forall i :: |msg| < i < field ==> padded[i] == 0)
            && Decode(padded[field..], e.bigEndian) == bits
  {
    hide Encode, Decode;
    var z: nat :| z < e.Block() && (|msg| + 1 + z) % e.Block() == e.Block() - 2 * e.wordBytes
                  && padded == msg + [0x80] + Zeros(z) + Encode(bits, 2 * e.wordBytes, e.bigEndian);
    PaddedParts(msg, Zeros(z), Encode(bits, 2 * e.wordBytes, e.bigEndian), padded);
    FieldCompletes(|msg| + 1 + z, 2 * e.wordBytes, e.Block());
    FieldHolds(e, bits);
  }

  lemma PaddedParts(msg: seq<byte>, zeros: seq<byte>, field: seq<byte>, padded: seq<byte>)
    requires padded == msg + [0x80] + zeros + field
    ensures padded[..|msg|] == msg && padded[|msg|] == 0x80
    ensures forall i :: |msg| < i < |padded| - |field| ==> padded[i] == zeros[i - |msg| - 1]
    ensures padded[|padded|-|field|..] == field
  {
  }

  lemma FieldCompletes(length: nat, field: nat, block: nat)
    requires 0 < field <= block && length % block == block - field
    ensures (length + field) % block == 0
  {
    ModOfSum(length, field, block);
  }

  lemma FieldHolds<S>(e: Engine<S>, bits: nat)
    requires e.Valid() && bits < e.Word() * e.Word()
    ensures Decode(Encode(bits, 2 * e.wordBytes, e.bigEndian), e.bigEndian) == bits
  {
    PowersOfWords();
    assert Power256(10) == 0x1_0000 * Power256(8) && Power256(12) == 0x1_0000 * Power256(10);
    assert Power256(14) == 0x1_0000 * Power256(12) && Power256(16) == 0x1_0000 * Power256(14);
    hide Power256;
    EncodeDecode(bits, 2 * e.wordBytes, e.bigEndian);
  }

  /** The digest the standards define: the fold over the padded message. */
  ghost predicate IsDigest<S>(e: Engine<S>, msg: seq<byte>, bits: nat, digest: S)
    requires e.Block() > 0
  {
    exists padded :: Padded(e, msg, bits, padded) && Whole(padded, e.Block()) && digest == Fold(e, e.initial, padded)
  }

  /** Bytes counted when a message is given in these pieces. */
  function Counted(pieces: seq<seq<byte>>, word: nat): nat
    requires word > 0
  {
    if pieces == [] then 0 else Counted(pieces[..|pieces|-1], word) + |pieces[|pieces|-1]| % word
  }

  lemma PiecesStart(word: nat)
    requires word > 0
    ensures Counted([], word) == 0 && Concat<byte>([]) == []
  {
  }

  lemma CountedSnoc(pieces: seq<seq<byte>>, p: seq<byte>, word: nat)
    requires word > 0
    ensures Counted(pieces + [p], word) == Counted(pieces, word) + |p| % word
  {
    assert (pieces + [p])[..|pieces|] == pieces;
  }

  /** Digests a message given in any pieces. */
  method DigestPieces<S>(e: Engine<S>, pieces: seq<seq<byte>>) returns (digest: S)
    requires e.Valid()
    ensures IsDigest(e, Concat(pieces), BitLength(e, Counted(pieces, e.Word())), digest)
  {
    hide Fold, Whole, Padded, BitLength, IsDigest, Counted, Concat;
    PiecesStart(e.Word());
    var ctx := new StreamDigest(e);
    for i := 0 to |pieces|
      invariant ctx.Valid() && ctx.e == e && fresh(ctx) && fresh(ctx.buffer)
      invariant ctx.Message() == Concat(pieces[..i]) && ctx.counted == Counted(pieces[..i], e.Word())
    {
      ctx.Update(pieces[i]);
      CountedSnoc(pieces[..i], pieces[i], e.Word());
      ConcatSnoc(pieces[..i], pieces[i]);
      assert pieces[..i+1] == pieces[..i] + [pieces[i]];
    }
    assert pieces[..|pieces|] == pieces;
    digest := ctx.Finish();
  }

  /** How often the counter's word fits the lengths of the pieces: what the counter misses. */
  function Missed(pieces: seq<seq<byte>>, word: nat): nat
    requires word > 0
  {
    if pieces == [] then 0 else Missed(pieces[..|pieces|-1], word) + |pieces[|pieces|-1]| / word
  }

  lemma {:induction false} CountedAndMissed(pieces: seq<seq<byte>>, word: nat)
    requires word > 0
    ensures |Concat(pieces)| == Counted(pieces, word) + word * Missed(pieces, word)
  {
    if pieces != [] {
      var init, p := pieces[..|pieces|-1], pieces[|pieces|-1];
      CountedAndMissed(init, word);
      ConcatSnoc(init, p);
      assert pieces == init + [p];
      SplitLength(|Concat(init)|, Counted(init, word), Missed(init, word), |p|, word);
    }
  }

  lemma SplitLength(length: nat, counted: nat, missed: nat, piece: nat, word: nat)
    requires word > 0 && length == counted + word * missed
    ensures length + piece == counted + piece % word + word * (missed + piece / word)
  {
  }

  /** The length field that the pieces lead to is that of their message exactly when what the counter
    missed makes a multiple of the field. */
  lemma LengthOfPiecesIff<S>(e: Engine<S>, pieces: seq<seq<byte>>)
    requires e.Valid()
    ensures BitLength(e, Counted(pieces, e.Word())) == BitLength(e, |Concat(pieces)|) <==>
            8 * Missed(pieces, e.Word()) % e.Word() == 0
  {
    hide Counted, Missed, BitLength, Concat;
    CountedAndMissed(pieces, e.Word());
    LengthFieldIff(e, |Concat(pieces)|, Counted(pieces, e.Word()), Missed(pieces, e.Word()));
  }

  /** With words of 32 bits, one call with 2^32 bytes is counted as none: the length field says that the
    message is empty, where it should say 2^35. */
  lemma LongCallMiscounted<S>(e: Engine<S>, input: seq<byte>)
    requires e.Valid() && e.wordBytes == 4 && |input| == 0x1_0000_0000
    ensures Concat([input]) == input && BitLength(e, Counted([input], e.Word())) == 0
    ensures BitLength(e, |Concat([input])|) == 0x8_0000_0000
  {
    assert [input][..0] == [] && [input][1..] == [];
    assert input + [] == input;
  }

  /** With words of 64 bits no call is too long: lengths have 64 bits themselves. */
  lemma NothingMissed64<S>(e: Engine<S>, pieces: seq<seq<byte>>)
    requires e.Valid() && e.wordBytes == 8 && forall p :: p in pieces ==> |p| < 0x1_0000_0000_0000_0000
    ensures Missed(pieces, e.Word()) == 0 && BitLength(e, Counted(pieces, e.Word())) == BitLength(e, |Concat(pieces)|)
  {
    AllCounted(pieces, e.Word());
    CountedAndMissed(pieces, e.Word());
    NoMultiple(e.Word(), Missed(pieces, e.Word()));
  }

  lemma NoMultiple(word: nat, missed: nat)
    requires word > 0 && word * missed == 0
    ensures missed == 0
  {
  }

  lemma {:induction false} AllCounted(pieces: seq<seq<byte>>, word: nat)
    requires word > 0 && forall p :: p in pieces ==> |p| < word
    ensures Counted(pieces, word) == |Concat(pieces)|
  {
    if pieces != [] {
      var init, p := pieces[..|pieces|-1], pieces[|pieces|-1];
      AllCounted(init, word);
      ConcatSnoc(init, p);
      assert pieces == init + [p];
      DivModSmall(|p|, word);
    }
  }

  /** However a message is cut into pieces shorter than the counter's word, its digest is the same:
    the fold over the message padded with its own length. */
  lemma SplitDoesNotMatter<S>(e: Engine<S>, pieces: seq<seq<byte>>, digest: S, pieces': seq<seq<byte>>, digest': S)
    requires e.Valid() && Concat(pieces) == Concat(pieces')
    requires forall p :: p in pieces || p in pieces' ==> |p| < e.Word()
    requires IsDigest(e, Concat(pieces), BitLength(e, Counted(pieces, e.Word())), digest)
    requires IsDigest(e, Concat(pieces'), BitLength(e, Counted(pieces', e.Word())), digest')
    ensures digest == digest'
    ensures IsDigest(e, Concat(pieces), BitLength(e, |Concat(pieces)|), digest)
  {
    hide Fold, Whole, Padded, BitLength;
    AllCounted(pieces, e.Word());
    AllCounted(pieces', e.Word());
    var bits := BitLength(e, |Concat(pieces)|);
    var p :| Padded(e, Concat(pieces), bits, p) && Whole(p, e.Block()) && digest == Fold(e, e.initial, p);
    var p' :| Padded(e, Concat(pieces), bits, p') && Whole(p', e.Block()) && digest' == Fold(e, e.initial, p');
    PaddingIsUnique(e, Concat(pieces), bits, p, p');
  }
}
