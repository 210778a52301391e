/** SHA-1's compression: a circular schedule of 16 words and rounds whose registers swap names
  (section 8 of FIPS 180-1) compute the state of the 80-word loop (section 7). */
module Sha1 {
  import opened Arithmetic
  import opened Sequences
  import opened Streaming
  import opened Words32

  datatype State = State(a: bv32, b: bv32, c: bv32, d: bv32, e: bv32)

  // ----- the standard's view, sections 5 to 7 of FIPS 180-1

  function Logical(t: nat, b: bv32, c: bv32, d: bv32): bv32 {
    if t < 20 then Choice(b, c, d)
    else if t < 40 then Parity(b, c, d)
    else if t < 60 then Majority(b, c, d)
    else Parity(b, c, d)
  }

  function Constant(t: nat): bv32 {
    if t < 20 then 0x5A827999
    else if t < 40 then 0x6ED9EBA1
    else if t < 60 then 0x8F1BBCDC
    else 0xCA62C1D6
  }

  /** The constants are 2^30 times the square roots of 2, 3, 5 and 10, rounded down. */
  lemma ConstantsAreRoots(t: nat)
    ensures var k := if t < 20 then 2 else if t < 40 then 3 else if t < 60 then 5 else 10;
            var c := Constant(t) as nat;
            c * c <= 0x1000_0000_0000_0000 * k < (c + 1) * (c + 1)
  {
  }

  /** The 80-word schedule. */
  function Schedule(m: seq<bv32>, t: nat): bv32
    requires |m| == 16
  {
    if t < 16 then m[t]
    else Rotate1(Mixed(Schedule(m, t - 3), Schedule(m, t - 8), Schedule(m, t - 14), Schedule(m, t - 16)))
  }

  function Step(s: State, t: nat, w: bv32): State {
    State(Temp(Rotate5(s.a), Logical(t, s.b, s.c, s.d), s.e, w, Constant(t)), s.a, Rotate30(s.b), s.c, s.d)
  }

  /** The state after the first n steps. */
  function Steps(m: seq<bv32>, s: State, n: nat): State
    requires |m| == 16
  {
    if n == 0 then s else Step(Steps(m, s, n - 1), n - 1, Schedule(m, n - 1))
  }

  function Add(s: State, r: State): State {
    State(Sum(s.a, r.a), Sum(s.b, r.b), Sum(s.c, r.c), Sum(s.d, r.d), Sum(s.e, r.e))
  }

  /** Four bytes as one word, most significant byte first. */
  function FourBytes(b0: nat, b1: nat, b2: nat, b3: nat): (w: nat)
    requires b0 < 0x100 && b1 < 0x100 && b2 < 0x100 && b3 < 0x100
    ensures w == 0x100_0000 * b0 + 0x1_0000 * b1 + 0x100 * b2 + b3 < 0x1_0000_0000
  {
    FourBytesDisjoint(b0, b1, b2, b3);
    BitOr(BitOr(BitOr(0x100_0000 * b0, 0x1_0000 * b1), 0x100 * b2), b3)
  }

  lemma FourBytesDisjoint(b0: nat, b1: nat, b2: nat, b3: nat)
    requires b0 < 0x100 && b1 < 0x100 && b2 < 0x100 && b3 < 0x100
    ensures BitOr(BitOr(BitOr(0x100_0000 * b0, 0x1_0000 * b1), 0x100 * b2), b3) ==
            0x100_0000 * b0 + 0x1_0000 * b1 + 0x100 * b2 + b3
  {
    hide BitOr, Pow2;
    PowersOfTwo();
    BitOrIsSum(0x1_0000 * b1, 24, b0);
    BitOrIsSum(0x100 * b2, 16, 0x100 * b0 + b1);
    BitOrIsSum(b3, 8, 0x1_0000 * b0 + 0x100 * b1 + b2);
  }

  /** Word i of a block. */
  function WordAt(data: seq<byte>, i: nat): (w: bv32)
    requires 4 * i + 4 <= |data|
  {
    FourBytes(data[4*i], data[4*i+1], data[4*i+2], data[4*i+3]) as bv32
  }

  /** A word is the number that its four bytes encode, most significant first. */
  lemma WordBytes(data: seq<byte>, i: nat)
    requires 4 * i + 4 <= |data|
    ensures var n := Decode(data[4*i..4*i+4], true);
            n < 0x1_0000_0000 && WordAt(data, i) == n as bv32 && BigEndian(n, 4) == data[4*i..4*i+4]
  {
    var b := data[4*i..4*i+4];
    FourDecoded(b);
    DecodeEncode(b, true);
  }

  lemma DecodeSnoc(b: seq<byte>, k: nat)
    requires k < |b|
    ensures Decode(b[..k+1], true) == 256 * Decode(b[..k], true) + b[k]
  {
    assert b[..k+1][..k] == b[..k];
  }

  lemma FourDecoded(b: seq<byte>)
    requires |b| == 4
    ensures Decode(b, true) == FourBytes(b[0], b[1], b[2], b[3])
  {
    DecodeSnoc(b, 3);
    DecodeSnoc(b, 2);
    DecodeSnoc(b, 1);
    DecodeSnoc(b, 0);
    assert b[..4] == b && b[..0] == [];
  }

  function Words(data: seq<byte>): (m: seq<bv32>)
    requires |data| >= 64
    ensures |m| == 16
  {
    seq(16, i requires 0 <= i < 16 && |data| >= 64 => WordAt(data, i))
  }

  function Compress(s: State, data: seq<byte>): State {
    if |data| < 64 then s else Add(s, Steps(Words(data), s, 80))
  }

  // ----- the source's forms of rotations, logical functions and sums

  function F(t: nat, x: bv32, y: bv32, z: bv32): bv32 {
    if t < 20 then Choose(x, y, z)
    else if t < 40 then x ^ y ^ z
    else if t < 60 then Most(x, y, z)
    else x ^ y ^ z
  }

  /** The source's cheaper forms are the standard's logical functions. */
  lemma FunctionsAgree(t: nat, x: bv32, y: bv32, z: bv32)
    ensures F(t, x, y, z) == Logical(t, x, y, z)
  {
    hide Choose, Choice, Most, Majority;
    ChooseIsChoice(x, y, z);
    MostIsMajority(x, y, z);
  }

  /** One round: only two registers change, and the others keep their names. */
  method P(a: bv32, b: bv32, c: bv32, d: bv32, e: bv32, x: bv32, t: nat) returns (b': bv32, e': bv32)
    ensures State(e', a, b', c, d) == Step(State(a, b, c, d, e), t, x)
  {
    hide Logical, F, S1, S5, S30, Rotate1, Rotate5, Rotate30, Constant, Temp, Accumulated;
    RotationsAgree(a);
    RotationsAgree(b);
    FunctionsAgree(t, b, c, d);
    SumsAgree(e, S5(a), F(t, b, c, d), Constant(t), x);
    e' := Accumulated(e, S5(a), F(t, b, c, d), Constant(t), x);
    b' := S30(b);
  }

  /** The 16 words hold the schedule's last 16. */
  ghost predicate Window(w: array<bv32>, m: seq<bv32>, t: nat)
    reads w
  {
    w.Length == |m| == 16 && t >= 16 && forall k: nat :: t - 16 <= k < t ==> w[k % 16] == Schedule(m, k)
  }

  /** The schedule's next word takes the place of the one 16 before it. */
  method R(w: array<bv32>, ghost m: seq<bv32>, t: nat) returns (x: bv32)
    requires Window(w, m, t)
    modifies w
    ensures Window(w, m, t + 1) && x == Schedule(m, t)
  {
    hide S1, Rotate1, Mixed;
    assert t % 16 == (t - 16) % 16;
    assert forall k: nat :: t - 16 < k < t ==> k % 16 != t % 16;
    x := MixWords(w[(t - 3) % 16], w[(t - 8) % 16], w[(t - 14) % 16], w[t % 16]);
    RotationsAgree(x);
    x := S1(x);
    w[t % 16] := x;
  }

  /** The word of round t. */
  method WordOf(w: array<bv32>, ghost m: seq<bv32>, t: nat) returns (x: bv32)
    requires Window(w, m, if t < 16 then 16 else t)
    modifies w
    ensures Window(w, m, if t < 16 then 16 else t + 1) && x == Schedule(m, t)
  {
    if t < 16 {
      x := w[t];
    } else {
      x := R(w, m, t);
    }
  }

  lemma StepsSnoc(m: seq<bv32>, s: State, n: nat)
    requires |m| == 16
    ensures Steps(m, s, 0) == s
    ensures Steps(m, s, n + 1) == Step(Steps(m, s, n), n, Schedule(m, n))
  {
  }

  /** Five rounds bring the registers back to their own names. */
  method FiveRounds(w: array<bv32>, ghost m: seq<bv32>, ghost s: State, t: nat, r: State) returns (r': State)
    requires |m| == 16 && Window(w, m, if t < 16 then 16 else t) && r == Steps(m, s, t)
    modifies w
    ensures Window(w, m, if t + 5 < 16 then 16 else t + 5) && r' == Steps(m, s, t + 5)
  {
    hide Step, Steps, Window, Schedule;
    var A, B, C, D, E := r.a, r.b, r.c, r.d, r.e;
    StepsSnoc(m, s, t);
    var x := WordOf(w, m, t);
    B, E := P(A, B, C, D, E, x, t);
    StepsSnoc(m, s, t + 1);
    x := WordOf(w, m, t + 1);
    A, D := P(E, A, B, C, D, x, t + 1);
    StepsSnoc(m, s, t + 2);
    x := WordOf(w, m, t + 2);
    E, C := P(D, E, A, B, C, x, t + 2);
    StepsSnoc(m, s, t + 3);
    x := WordOf(w, m, t + 3);
    D, B := P(C, D, E, A, B, x, t + 3);
    StepsSnoc(m, s, t + 4);
    x := WordOf(w, m, t + 4);
    C, A := P(B, C, D, E, A, x, t + 4);
    r' := State(A, B, C, D, E);
  }

  /** The unrolled rounds compute what the 80-word loop computes. */
  method Process(state: State, data: seq<byte>) returns (state': State)
    requires |data| >= 64
    ensures state' == Compress(state, data)
  {
    hide Steps, Schedule, Add, Window;
    ghost var m := Words(data);
    StepsSnoc(m, state, 0);
    var w := LoadWords(data);
    var r := FiveRounds(w, m, state, 0, state);
    r := FiveRounds(w, m, state, 5, r);
    r := FiveRounds(w, m, state, 10, r);
    r := FiveRounds(w, m, state, 15, r);
    r := FiveRounds(w, m, state, 20, r);
    r := FiveRounds(w, m, state, 25, r);
    r := FiveRounds(w, m, state, 30, r);
    r := FiveRounds(w, m, state, 35, r);
    r := FiveRounds(w, m, state, 40, r);
    r := FiveRounds(w, m, state, 45, r);
    r := FiveRounds(w, m, state, 50, r);
    r := FiveRounds(w, m, state, 55, r);
    r := FiveRounds(w, m, state, 60, r);
    r := FiveRounds(w, m, state, 65, r);
    r := FiveRounds(w, m, state, 70, r);
    r := FiveRounds(w, m, state, 75, r);
    state' := AddTo(state, r);
  }

  method AddTo(state: State, r: State) returns (state': State)
    ensures state' == Add(state, r)
  {
    hide Sum;
    var a := Plus(state.a, r.a);
    var b := Plus(state.b, r.b);
    var c := Plus(state.c, r.c);
    var d := Plus(state.d, r.d);
    var e := Plus(state.e, r.e);
    state' := State(a, b, c, d, e);
  }

  method LoadWords(data: seq<byte>) returns (w: array<bv32>)
    requires |data| >= 64
    ensures Window(w, Words(data), 16) && fresh(w)
  {
    hide WordAt;
    w := new bv32[16](i requires 0 <= i < 16 && |data| >= 64 => WordAt(data, i));
    forall k: nat | k < 16
      ensures w[k % 16] == Schedule(Words(data), k)
    {
      assert k % 16 == k;
    }
  }

  /** SHA-1 as one of the streaming digests. */
  function Engine(): (e: Engine<State>)
    ensures e.Valid()
  {
    Streaming.Engine(4, true, State(0x67452301, 0xEFCDAB89, 0x98BADCFE, 0x10325476, 0xC3D2E1F0), Compress)
  }

  /** The initial state, written out least significant byte first, counts up and down in half bytes. */
  lemma InitialBytes()
    ensures var s := Engine().initial;
            LittleEndian(s.a as nat, 4) + LittleEndian(s.b as nat, 4) + LittleEndian(s.c as nat, 4)
            + LittleEndian(s.d as nat, 4) + LittleEndian(s.e as nat, 4) ==
            [0x01, 0x23, 0x45, 0x67, 0x89, 0xAB, 0xCD, 0xEF, 0xFE, 0xDC, 0xBA, 0x98, 0x76, 0x54, 0x32, 0x10,
             0xF0, 0xE1, 0xD2, 0xC3]
  {
    hide LittleEndian;
    LittleEndianWord(0x67452301);
    LittleEndianWord(0xEFCDAB89);
    LittleEndianWord(0x98BADCFE);
    LittleEndianWord(0x10325476);
    LittleEndianWord(0xC3D2E1F0);
  }

  lemma LittleEndianWord(n: nat)
    requires n < 0x1_0000_0000
    ensures LittleEndian(n, 4) == [n % 256, n / 0x100 % 256, n / 0x1_0000 % 256, n / 0x100_0000]
  {
    assert LittleEndian(n / 0x100_0000, 1) == [n / 0x100_0000 % 256];
    assert LittleEndian(n / 0x1_0000, 2) == [n / 0x1_0000 % 256] + LittleEndian(n / 0x1_0000 / 256, 1);
    assert LittleEndian(n / 0x100, 3) == [n / 0x100 % 256] + LittleEndian(n / 0x100 / 256, 2);
  }

  /** What streaming compresses a block with is what the unrolled rounds compute. */
  method EngineStep(state: State, block: seq<byte>) returns (state': State)
    requires |block| == Engine().Block()
    ensures state' == Engine().compress(state, block)
  {
    state' := Process(state, block);
  }

  /** SHA-1 of a message in any pieces shorter than 2^32 bytes: the steps of section 7 of FIPS 180-1 over
    the blocks of the message padded with its own length. */
  method DigestPieces(pieces: seq<seq<byte>>) returns (digest: State)
    requires forall p :: p in pieces ==> |p| < 0x1_0000_0000
    ensures IsDigest(Engine(), Concat(pieces), BitLength(Engine(), |Concat(pieces)|), digest)
  {
    digest := Streaming.DigestPieces(Engine(), pieces);
    AllCounted(pieces, Engine().Word());
  }
}
