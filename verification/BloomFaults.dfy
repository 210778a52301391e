/** How removals from shared records make the filter deny keys it was given, for any parameters. */
module BloomFaults {
  import opened Bitset
  import opened BloomSpec
  import opened BloomProofs
  import opened BloomHistories

  // ----- records of three hashes

  lemma Thirds<T>(x: seq<T>, y: seq<T>, z: seq<T>, h: nat)
    requires |x| == |y| == h
    ensures var v := x + y + z;
            && v[..h] == v[0..h] == x && v[h..2*h] == y && v[h..] == y + z && v[2*h..] == z && v[..0] == []
            && (|z| >= h ==> v[2*h..3*h] == z[..h])
  {
  }

  lemma Putting<T>(x: seq<T>, y: seq<T>, z: seq<T>)
    ensures [] + x + (y + z) == x + y + z
  {
  }

  /** The compaction of three hashes, round by round, when the first is the key. */
  lemma FirstRound(a: Key, b: Key, c: Key, hs: nat)
    requires hs > 0 && |a| == |b| == |c| == hs
    ensures Compact(a + b + c, 0, 0, a, hs) == Compact(a + b + c, hs, 0, a, hs)
  {
    hide Compact;
    Thirds(a, b, c, hs);
    Putting(a, b, c);
    CompactRound(a + b + c, 0, 0, a, a + b + c, a, hs);
  }

  lemma SecondRound(a: Key, b: Key, c: Key, hs: nat)
    requires hs > 0 && |a| == |b| == |c| == hs && a != b
    ensures Compact(a + b + c, hs, 0, a, hs) == Compact(b + b + c, 2 * hs, hs, a, hs)
  {
    hide Compact;
    Thirds(a, b, c, hs);
    Putting(b, b, c);
    CompactRound(a + b + c, hs, 0, b, b + b + c, a, hs);
  }

  lemma ThirdRound(a: Key, b: Key, c: Key, hs: nat)
    requires hs > 0 && |a| == |b| == |c| == hs && a != c
    ensures Compact(b + b + c, 2 * hs, hs, a, hs) == Compact(b + c + c, 3 * hs, 2 * hs, a, hs)
  {
    hide Compact;
    Thirds(b, b, c, hs);
    assert c[..hs] == c;
    CompactRound(b + b + c, 2 * hs, hs, c, b + c + c, a, hs);
  }

  /** Three hashes without the first: the last one stays, whole, and once more without its last byte. */
  lemma FirstOfThreeRemoved(a: Key, b: Key, c: Key, hs: nat)
    requires hs > 0 && |a| == |b| == |c| == hs && a != b && a != c
    ensures Shrunk(a + b + c, a, hs) == b + c + c[..hs-1]
  {
    hide Compact;
    FirstRound(a, b, c, hs);
    SecondRound(a, b, c, hs);
    ThirdRound(a, b, c, hs);
    CompactEnd(b + c + c, 3 * hs, 2 * hs, a, hs);
    CutLast(b, c, c, hs - 1);
  }

  lemma CutLast<T>(x: seq<T>, y: seq<T>, z: seq<T>, n: nat)
    requires n <= |z|
    ensures (x + y + z)[..|x|+|y|+n] == x + y + z[..n]
  {
  }

  /** The last one is then not moved over: it stays listed. */
  lemma LastOneStays(b: Key, c: Key, hs: nat)
    requires hs > 1 && |b| == |c| == hs && b != c
    ensures Shrunk(b + c + c[..hs-1], c, hs) == b + c + c[..hs-2]
    ensures Entries(b + c + c[..hs-2], hs) == [b, c]
  {
    hide Compact, Entries;
    NothingMoved(b, c, c[..hs-1], hs);
    CutLast(b, c, c[..hs-1], hs - 2);
    assert c[..hs-1][..hs-2] == c[..hs-2];
    TwoEntries(b, c, c[..hs-2], hs);
  }

  lemma NothingMoved(b: Key, c: Key, rest: Bytes, hs: nat)
    requires hs > 0 && |b| == |c| == hs && b != c && |rest| < hs
    ensures Compact(b + c + rest, 0, 0, c, hs) == b + c + rest
  {
    hide Compact;
    FirstKept(b, c, rest, hs);
    SecondKept(b, c, rest, hs);
    CompactEnd(b + c + rest, 2 * hs, hs, c, hs);
  }

  lemma FirstKept(b: Key, c: Key, rest: Bytes, hs: nat)
    requires hs > 0 && |b| == |c| == hs && b != c
    ensures Compact(b + c + rest, 0, 0, c, hs) == Compact(b + c + rest, hs, hs, c, hs)
  {
    hide Compact;
    Thirds(b, c, rest, hs);
    Putting(b, c, rest);
    CompactRound(b + c + rest, 0, 0, b, b + c + rest, c, hs);
  }

  lemma SecondKept(b: Key, c: Key, rest: Bytes, hs: nat)
    requires hs > 0 && |b| == |c| == hs
    ensures Compact(b + c + rest, hs, hs, c, hs) == Compact(b + c + rest, 2 * hs, hs, c, hs)
  {
    hide Compact;
    Thirds(b, c, rest, hs);
    CompactRound(b + c + rest, hs, hs, c, b + c + rest, c, hs);
  }

  lemma TwoEntries(b: Key, c: Key, rest: Bytes, hs: nat)
    requires |b| == |c| == hs && |rest| < hs
    ensures Entries(b + c + rest, hs) == [b, c]
  {
    assert b + c + rest == b + (c + rest);
    EntriesStep(b, c + rest, hs);
    EntriesStep(c, rest, hs);
    assert Entries(rest, hs) == [];
  }

  // ----- the history

  /** Three keys that share position p; the third has position r to itself. */
  ghost predicate Sharing(q: Params, a: Key, b: Key, c: Key, p: nat, r: nat)
    requires q.Valid()
  {
    && q.hashSize > 1 && |a| == |b| == |c| == q.hashSize && a != b && a != c && b != c
    && q.Distinct(a) && q.Distinct(b) && q.Distinct(c)
    && p in q.Positions(a) && p in q.Positions(b) && p in q.Positions(c)
    && r in q.Positions(c) && r !in q.Positions(a) && r !in q.Positions(b)
  }

  ghost predicate Blank(q: Params, f: Filter)
    requires q.Valid()
  {
    |f.bits| >= q.filterSize && f.index == map[] && forall p :: 0 <= p < |f.bits| ==> !f.bits[p]
  }

  function Added(q: Params, f: Filter, a: Key, b: Key, c: Key): (g: Filter)
    requires q.Valid() && |f.bits| >= q.filterSize
    ensures |g.bits| == |f.bits|
  {
    AddKey(q, AddKey(q, AddKey(q, f, a), b), c)
  }

  function Removed(q: Params, f: Filter, a: Key, c: Key): (g: Filter)
    requires q.Valid() && |f.bits| >= q.filterSize
    ensures |g.bits| == |f.bits|
  {
    RemoveKey(q, RemoveKey(q, f, a).0, c).0
  }

  lemma OneAdded(q: Params, f: Filter, keys: set<Key>, k: Key)
    requires q.Valid() && Tidy(q, f, keys) && Covers(q, f, keys) && k !in keys && |k| == q.hashSize && q.Distinct(k)
    ensures var g := AddKey(q, f, k);
            && Tidy(q, g, keys + {k}) && Covers(q, g, keys + {k})
            && Appended(f.index, q.Positions(k), k, g.index)
  {
    AddKeepsTidy(q, f, keys, k);
    AddCovers(q, f, keys, k);
    AddKeyEffect(q, f, k);
  }

  lemma ThreeAdded(q: Params, f: Filter, a: Key, b: Key, c: Key, p: nat, r: nat)
    requires q.Valid() && Blank(q, f) && Sharing(q, a, b, c, p, r)
    ensures var g := Added(q, f, a, b, c);
            && Tidy(q, g, {a, b, c}) && Covers(q, g, {a, b, c})
            && p in g.index && g.index[p] == a + b + c && r in g.index && g.index[r] == c
            && (forall x :: x in g.index ==> x in q.Positions(a) || x in q.Positions(b) || x in q.Positions(c))
  {
    EmptyIsTidy(q, f);
    CoversNothing(q, f);
    hide Tidy, Covers, AddKey, Params.Distinct;
    var f1 := AddKey(q, f, a);
    var f2 := AddKey(q, f1, b);
    OneAdded(q, f, {}, a);
    assert {} + {a} == {a};
    OneAdded(q, f1, {a}, b);
    assert {a} + {b} == {a, b};
    OneAdded(q, f2, {a, b}, c);
    assert {a, b} + {c} == {a, b, c};
    assert [] + a == a && [] + c == c;
  }

  /** A removal of a key that the filter covers, seen at one position. */
  lemma OneRemoved(q: Params, f: Filter, keys: set<Key>, k: Key, x: nat)
    requires q.Valid() && Covers(q, f, keys) && k in keys
    ensures var g := RemoveKey(q, f, k).0;
            && Covers(q, g, keys - {k})
            && (x in q.Positions(k) ==> x < |f.bits| && SameAt(g, RemoveAt(q, f, k, x).0, x))
            && (x !in q.Positions(k) ==> SameAt(g, f, x))
  {
    CoveredIsContained(q, f, keys, k);
    ContainsByFunction(q, f.bits, k);
    RemoveCovers(q, f, keys, k);
    RemoveFromDistinct(q, f, k, 0, x);
  }

  /** The first removal leaves the third key listed twice over, but for a byte. */
  lemma FirstRemoved(q: Params, f: Filter, a: Key, b: Key, c: Key, p: nat, r: nat)
    requires q.Valid() && Sharing(q, a, b, c, p, r) && Covers(q, f, {a, b, c})
    requires p in f.index && f.index[p] == a + b + c && r in f.index && f.index[r] == c
    ensures var g := RemoveKey(q, f, a).0;
            && Covers(q, g, {b, c})
            && p in g.index && g.index[p] == b + c + c[..q.hashSize-1] && r in g.index && g.index[r] == c
  {
    FirstOfThreeRemoved(a, b, c, q.hashSize);
    SeveralEntries(3 * q.hashSize, q.hashSize);
    hide Covers, RemoveKey, Shrunk, Params.Distinct;
    OneRemoved(q, f, {a, b, c}, a, p);
    OneRemoved(q, f, {a, b, c}, a, r);
    assert {a, b, c} - {a} == {b, c};
  }

  lemma SecondRemoved(q: Params, f: Filter, a: Key, b: Key, c: Key, p: nat, r: nat)
    requires q.Valid() && Sharing(q, a, b, c, p, r) && Covers(q, f, {b, c})
    requires p in f.index && f.index[p] == b + c + c[..q.hashSize-1] && r in f.index && f.index[r] == c
    ensures var g := RemoveKey(q, f, c).0;
            && Covers(q, g, {b}) && ListedAt(q, g.index, c, p)
            && r !in g.index && r < |g.bits| && !g.bits[r]
  {
    LastOneStays(b, c, q.hashSize);
    SeveralEntries(3 * q.hashSize - 1, q.hashSize);
    SeveralEntries(q.hashSize, q.hashSize);
    hide Covers, RemoveKey, Shrunk, Entries, Params.Distinct;
    OneRemoved(q, f, {b, c}, c, p);
    OneRemoved(q, f, {b, c}, c, r);
    assert {b, c} - {c} == {b};
  }

  /** After both removals the third key is still listed at p, and its own position is free. */
  lemma TwoRemoved(q: Params, f: Filter, a: Key, b: Key, c: Key, p: nat, r: nat)
    requires q.Valid() && Blank(q, f) && Sharing(q, a, b, c, p, r)
    ensures var g := Removed(q, Added(q, f, a, b, c), a, c);
            && Covers(q, g, {b}) && ListedAt(q, g.index, c, p)
            && r !in g.index && r < |g.bits| && !g.bits[r]
  {
    hide Tidy, Covers, AddKey, RemoveKey, Sharing, ListedAt;
    ThreeAdded(q, f, a, b, c, p, r);
    FirstRemoved(q, Added(q, f, a, b, c), a, b, c, p, r);
    SecondRemoved(q, RemoveKey(q, Added(q, f, a, b, c), a).0, a, b, c, p, r);
  }

  /** Removing two keys that share a record and adding one of them again can find it still listed
    there, so that the addition stops and the key's own bit stays clear: the filter then denies a
    key that was added and not removed since. */
  lemma StaleEntryHidesKey(q: Params, f: Filter, a: Key, b: Key, c: Key, p: nat, r: nat)
    requires q.Valid() && Blank(q, f) && Sharing(q, a, b, c, p, r)
    ensures var removed := Removed(q, Added(q, f, a, b, c), a, c);
            ListedAt(q, removed.index, c, p) && !BloomSpec.Contains(q, AddKey(q, removed, c).bits, c)
  {
    var g := Removed(q, Added(q, f, a, b, c), a, c);
    TwoRemoved(q, f, a, b, c, p, r);
    hide Covers, Added, Removed;
    AddContainsIff(q, g, c, c);
    UsesPosition(q, c, p, 0);
    EntriesPrefix(RecordAt(g.index, p), Repeat(c, q.Uses(c, p, 0) - 1), q.hashSize);
    assert !AddableAt(q, g.index, c, 0, p);
  }

  // ----- a removal that hides another key

  /** A fourth key that shares r with the third, and no other position with any of them. */
  ghost predicate Beside(q: Params, a: Key, b: Key, c: Key, d: Key, p: nat, r: nat)
    requires q.Valid()
  {
    && q.Positions(c) == {p, r} && q.functionCount > 0 && q.Pos(c, 0) == p
    && |d| == q.hashSize && q.Distinct(d) && r in q.Positions(d)
    && forall x :: x in q.Positions(d) && x != r ==> x !in q.Positions(a) + q.Positions(b) + q.Positions(c)
  }

  lemma UnusedStaysFree(q: Params, f: Filter, a: Key, b: Key, c: Key, p: nat, r: nat, x: nat)
    requires q.Valid() && Blank(q, f) && Sharing(q, a, b, c, p, r)
    requires x !in q.Positions(a) && x !in q.Positions(b) && x !in q.Positions(c)
    ensures x !in Removed(q, Added(q, f, a, b, c), a, c).index
  {
    hide Tidy, Covers, AddKey, RemoveKey, ListedAt, Params.Distinct;
    var f3 := Added(q, f, a, b, c);
    ThreeAdded(q, f, a, b, c, p, r);
    OneRemoved(q, f3, {a, b, c}, a, x);
    assert {a, b, c} - {a} == {b, c};
    OneRemoved(q, RemoveKey(q, f3, a).0, {b, c}, c, x);
  }

  /** Adding the fourth key gives the third one its missing bit, so it is contained; removing the fourth
    key takes that bit again. */
  lemma RemovalHidesKey(q: Params, f: Filter, a: Key, b: Key, c: Key, d: Key, p: nat, r: nat)
    requires q.Valid() && Blank(q, f) && Sharing(q, a, b, c, p, r) && Beside(q, a, b, c, d, p, r)
    ensures var removed := Removed(q, Added(q, f, a, b, c), a, c);
            var again := AddKey(q, AddKey(q, removed, d), c);
            && c != d && BloomSpec.Contains(q, again.bits, c)
            && !BloomSpec.Contains(q, RemoveKey(q, again, d).0.bits, c)
  {
    var g := Removed(q, Added(q, f, a, b, c), a, c);
    TwoRemoved(q, f, a, b, c, p, r);
    forall x | x in q.Positions(d)
      ensures x !in g.index
    {
      if x != r {
        UnusedStaysFree(q, f, a, b, c, p, r, x);
      }
    }
    hide Added, Removed;
    FourthAdded(q, g, a, b, c, d, p, r);
    ThirdAgain(q, AddKey(q, g, d), c, d, p, r);
  }

  lemma FourthAdded(q: Params, g: Filter, a: Key, b: Key, c: Key, d: Key, p: nat, r: nat)
    requires q.Valid() && Sharing(q, a, b, c, p, r) && Beside(q, a, b, c, d, p, r)
    requires Covers(q, g, {b}) && ListedAt(q, g.index, c, p) && forall x :: x in q.Positions(d) ==> x !in g.index
    ensures var h := AddKey(q, g, d);
            && r < |h.bits| && h.bits[r] && p < |h.bits| && h.bits[p]
            && r in h.index && h.index[r] == d && ListedAt(q, h.index, c, p) && BloomSpec.Contains(q, h.bits, d)
  {
    assert Unlisted(q, g.index, d) by {
      assert Entries([], q.hashSize) == [];
    }
    AddCompletesIff(q, g.index, d);
    AddContainsIff(q, g, d, d);
    AddKeyEffect(q, g, d);
    hide AddKey, Entries, Unlisted, Addable;
    assert b in Users(q, {b}, p);
    assert CoversAt(q, g, {b}, p);
    assert p in g.index;
    assert [] + d == d;
  }

  lemma ThirdAgain(q: Params, h: Filter, c: Key, d: Key, p: nat, r: nat)
    requires q.Valid() && |h.bits| >= q.filterSize
    requires q.Positions(c) == {p, r} && q.functionCount > 0 && q.Pos(c, 0) == p
    requires |d| == q.hashSize && q.Distinct(d) && r in q.Positions(d)
    requires r < |h.bits| && h.bits[r] && p < |h.bits| && h.bits[p]
    requires r in h.index && h.index[r] == d && ListedAt(q, h.index, c, p) && BloomSpec.Contains(q, h.bits, d)
    ensures AddKey(q, h, c) == h && BloomSpec.Contains(q, h.bits, c)
    ensures !BloomSpec.Contains(q, RemoveKey(q, h, d).0.bits, c)
  {
    assert p in h.index by {
      assert Entries([], q.hashSize) == [];
    }
    assert AddIndex(q, h.index, c, 0) == (h.index, false);
    RemoveContainsIff(q, h, d, c);
    UsesPosition(q, d, r, 0);
    assert Clears(q, h.index, d, 0, r);
  }

  // ----- an instance with the double hashing scheme

  function Value(x: bv8): nat {
    x as int
  }

  /** A number from bytes, least significant first. */
  function Number(b: Bytes): nat {
    if b == [] then 0 else Value(b[0]) + 256 * Number(b[1..])
  }

  /** The scheme throws for hashes of less than 16 bytes. */
  function DoubleHash(key: Key, i: nat): nat {
    if |key| < 16 then 0
    else (Number(key[..8]) + (i + 1) * Number(key[8..16])) % 0x1_0000_0000_0000_0000
  }

  /** Digests of 16 bytes, a filter of a single byte, and two functions. */
  function ByteFilter(): Params {
    Params(16, 8, 2, DoubleHash)
  }

  function Word(n: nat): (w: Bytes)
    requires n < 256
    ensures |w| == 8
  {
    [n as bv8] + Zeros(7)
  }

  function Zeros(n: nat): (z: Bytes)
    ensures |z| == n
  {
    if n == 0 then [] else [0] + Zeros(n - 1)
  }

  lemma ByteValue(n: nat)
    requires n < 256
    ensures Value(n as bv8) == n
  {
  }

  lemma {:induction false} ZeroNumber(n: nat)
    ensures Number(Zeros(n)) == 0
  {
    ByteValue(0);
    hide Value;
    if n > 0 {
      ZeroNumber(n - 1);
      assert Zeros(n)[1..] == Zeros(n - 1);
    }
  }

  lemma WordNumber(n: nat)
    requires n < 256
    ensures Number(Word(n)) == n
  {
    ByteValue(n);
    ZeroNumber(7);
    hide Value, Zeros;
    assert Word(n)[1..] == Zeros(7);
  }

  lemma WordHash(x: nat, y: nat)
    requires x < 256 && y < 256
    ensures DoubleHash(Word(x) + Word(y), 0) == x + y && DoubleHash(Word(x) + Word(y), 1) == x + 2 * y
  {
    WordNumber(x);
    WordNumber(y);
    hide Number, Word;
    assert (Word(x) + Word(y))[..8] == Word(x) && (Word(x) + Word(y))[8..16] == Word(y);
  }

  /** A digest of two words. */
  function Digest(x: nat, y: nat): (k: Key)
    requires x < 256 && y < 256
    ensures |k| == 16
  {
    Word(x) + Word(y)
  }

  lemma DigestPositions(x: nat, y: nat, p: nat, r: nat)
    requires x < 256 && y < 256 && (x + y) % 8 == p && (x + 2 * y) % 8 == r && p != r
    ensures var q, k := ByteFilter(), Digest(x, y);
            q.Positions(k) == {p, r} && q.Pos(k, 0) == p && q.Distinct(k)
  {
    var q, k := ByteFilter(), Digest(x, y);
    WordHash(x, y);
    hide DoubleHash, Word;
    assert q.Pos(k, 0) == p && q.Pos(k, 1) == r;
    TwoPositions(q, k, p, r);
  }

  lemma TwoPositions(q: Params, k: Key, p: nat, r: nat)
    requires q.filterSize > 0 && q.functionCount == 2 && q.Pos(k, 0) == p && q.Pos(k, 1) == r && p != r
    ensures q.Positions(k) == {p, r} && q.Distinct(k)
  {
    assert q.Pos(k, 0) in q.Positions(k) && q.Pos(k, 1) in q.Positions(k);
  }

  /** Both histories are possible with real digests. */
  lemma FaultsHappen()
    ensures var q, a, b, c, d := ByteFilter(), Digest(7, 1), Digest(6, 2), Digest(5, 3), Digest(2, 1);
            Sharing(q, a, b, c, 0, 3) && Beside(q, a, b, c, d, 0, 3)
  {
    hide Digest, Params.Positions, Params.Distinct, Params.Pos;
    DigestPositions(7, 1, 0, 1);
    DigestPositions(6, 2, 0, 2);
    DigestPositions(5, 3, 0, 3);
    DigestPositions(2, 1, 3, 4);
    var q := ByteFilter();
    assert 1 in q.Positions(Digest(7, 1)) && 2 in q.Positions(Digest(6, 2)) && 3 in q.Positions(Digest(5, 3));
  }
}
