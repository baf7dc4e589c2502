/** Bytes, options and the small arithmetic shared by every module. */
module Common {

  type byte = b: int | 0 <= b < 256
  type bytes = seq<byte>

  datatype Option<+T> = None | Some(value: T)

  function Min(a: int, b: int): int { if a < b then a else b }

  function Max(a: int, b: int): int { if a < b then b else a }

  /** Rust's `saturating_sub` on an unsigned integer. */
  function SatSub(a: nat, b: nat): nat { if a < b then 0 else a - b }

  function Clamp(x: int, lo: int, hi: int): int { Max(lo, Min(x, hi)) }

  /** A 16-bit big-endian value. */
  function U16(hi: byte, lo: byte): nat { (hi as int) * 256 + lo as int }

  /** A 16-bit value as big-endian bytes. */
  function Word(v: nat): bytes
    requires v <= 0xffff
  {
    [v / 256, v % 256]
  }

  function Flatten<T>(ss: seq<seq<T>>): seq<T> {
    if ss == [] then [] else ss[0] + Flatten(ss[1..])
  }

  lemma {:induction false} FlattenAppend<T>(a: seq<seq<T>>, b: seq<seq<T>>)
    ensures Flatten(a + b) == Flatten(a) + Flatten(b)
  {
    if a == [] {
      assert a + b == b;
    } else {
      FlattenAppend(a[1..], b);
      TailOfAppend(a, b);
      Assoc(a[0], Flatten(a[1..]), Flatten(b));
    }
  }

  lemma Assoc<T>(a: seq<T>, b: seq<T>, c: seq<T>)
    ensures a + (b + c) == (a + b) + c
  {
  }

  lemma Grouped<T>(a: seq<T>, b: seq<T>, c: seq<T>, d: seq<T>)
    ensures ((a + b) + c) + d == a + (b + c + d)
  {
  }

  /** Taking the first element off a concatenation takes it off its first part. */
  lemma TailOfAppend<T>(a: seq<T>, b: seq<T>)
    requires a != []
    ensures (a + b)[0] == a[0] && (a + b)[1..] == a[1..] + b
  {
  }

  /** A stretch of the first part of a concatenation, and everything from a point in it on. */
  lemma SliceOfAppend<T>(a: seq<T>, b: seq<T>, i: nat, j: nat)
    requires i <= j <= |a|
    ensures (a + b)[i..j] == a[i..j] && (a + b)[i..] == a[i..] + b
  {
  }

  function Lookup<K, V>(m: map<K, V>, k: K): Option<V> {
    if k in m then Some(m[k]) else None
  }

  // ----- Layouts -----

  /** `x` stands at position `pos` of `b`. */
  ghost predicate At(b: bytes, pos: nat, x: bytes)
    decreases |x|
  {
    pos + |x| <= |b| && (x != [] ==> b[pos] == x[0] && At(b, pos + 1, x[1..]))
  }

  lemma {:induction false} AtSlice(b: bytes, pos: nat, x: bytes)
    ensures At(b, pos, x) <==> pos + |x| <= |b| && b[pos..pos + |x|] == x
    decreases |x|
  {
    if x != [] && pos + |x| <= |b| {
      AtSlice(b, pos + 1, x[1..]);
      SliceStep(b, pos, x);
    }
  }

  lemma SliceStep(b: bytes, pos: nat, x: bytes)
    requires x != [] && pos + |x| <= |b|
    ensures b[pos..pos + |x|] == x <==> b[pos] == x[0] && b[pos + 1..pos + |x|] == x[1..]
  {
    var s := b[pos..pos + |x|];
    assert s[0] == b[pos] && s[1..] == b[pos + 1..pos + |x|];
    assert s == [s[0]] + s[1..] && x == [x[0]] + x[1..];
  }

  lemma AtWhole(b: bytes)
    ensures At(b, 0, b)
  {
    AtSlice(b, 0, b);
  }

  lemma AtSplit(b: bytes, pos: nat, x: bytes, y: bytes)
    requires At(b, pos, x + y)
    ensures At(b, pos, x) && At(b, pos + |x|, y)
  {
    AtSlice(b, pos, x + y);
    SplitSlice(b, pos, x, y);
    AtSlice(b, pos, x);
    AtSlice(b, pos + |x|, y);
  }

  lemma SplitSlice(b: bytes, pos: nat, x: bytes, y: bytes)
    requires pos + |x| + |y| <= |b| && b[pos..pos + |x + y|] == x + y
    ensures b[pos..pos + |x|] == x && b[pos + |x|..pos + |x| + |y|] == y
  {
    var z := b[pos..pos + |x + y|];
    assert b[pos..pos + |x|] == z[..|x|] && b[pos + |x|..pos + |x| + |y|] == z[|x|..];
  }

  lemma AtByte(b: bytes, pos: nat, x: bytes, i: nat)
    requires At(b, pos, x) && i < |x|
    ensures pos + i < |b| && b[pos + i] == x[i]
  {
    AtSlice(b, pos, x);
    assert b[pos..pos + |x|][i] == b[pos + i];
  }

  lemma AtWord(b: bytes, pos: nat, v: nat)
    requires v <= 0xffff && At(b, pos, Word(v))
    ensures pos + 2 <= |b| && U16(b[pos], b[pos + 1]) == v
  {
    AtByte(b, pos, Word(v), 0);
    AtByte(b, pos, Word(v), 1);
  }
}
