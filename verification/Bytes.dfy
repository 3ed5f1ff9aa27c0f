/** Bytes, 16-bit words, and the cutting and gluing of byte strings that every layer shares. */
module Bytes {

  type Byte = x: int | 0 <= x < 0x100
  type Uint16 = x: int | 0 <= x < 0x1_0000

  /** The ways an operation fails. IndexOutOfRange stands for a Go run-time panic. */
  datatype Error =
    | ShortBuffer
    | PayloadTooLarge
    | InvalidOpcode
    | InvalidLength
    | NotImplemented
    | IncorrectPacket
    | IncorrectChannel
    | UnhandledPacket
    | UnexpectedStart
    | IndexOutOfRange

  datatype Result<+T> = Ok(value: T) | Err(error: Error)

  /** Conversion to uint16: the low sixteen bits. */
  function Wrap16(n: int): Uint16 {
    n % 0x1_0000
  }

  function Pow2(k: nat): nat {
    if k == 0 then 1 else 2 * Pow2(k - 1)
  }

  lemma Pow2Values()
    ensures Pow2(12) == 0x1000 && Pow2(14) == 0x4000 && Pow2(16) == 0x1_0000
  {
    assert Pow2(4) == 16;
    assert Pow2(8) == 256;
    assert Pow2(12) == 0x1000;
    assert Pow2(14) == 0x4000;
  }

  /** binary.LittleEndian.PutUint16, as a value. */
  function LE16(v: Uint16): seq<Byte> {
    [v % 0x100, v / 0x100]
  }

  /** binary.LittleEndian.Uint16(b[i:]). */
  function Get16(b: seq<Byte>, i: nat): Uint16
    requires i + 2 <= |b|
  {
    var lo: int, hi: int := b[i], b[i + 1];
    lo + 0x100 * hi
  }

  /** The low byte comes first, and the two halves undo each other. */
  lemma LittleEndian(v: Uint16, b: seq<Byte>, i: nat)
    ensures |LE16(v)| == 2 && LE16(v)[0] as int + 256 * (LE16(v)[1] as int) == v
    ensures Get16(LE16(v), 0) == v
    ensures i + 2 <= |b| ==> Get16(b, i) as int == b[i] + 256 * (b[i + 1] as int) && LE16(Get16(b, i)) == b[i..i + 2]
  {
  }

  /** binary.LittleEndian.PutUint16(b[i:], v), in place. */
  method Put16(b: array<Byte>, i: nat, v: Uint16)
    requires i + 2 <= b.Length
    modifies b
    ensures b[..] == old(b[..])[i := v % 0x100][i + 1 := v / 0x100]
  {
    b[i] := v % 0x100;
    b[i + 1] := v / 0x100;
  }

  /** copy(b[at:], data), in place, for a destination that is large enough. */
  method CopyAt(b: array<Byte>, at: nat, data: seq<Byte>)
    requires at + |data| <= b.Length
    modifies b
    ensures b[..] == old(b[..at]) + data + old(b[at + |data|..])
  {
    forall i | 0 <= i < |data| {
      b[at + i] := data[i];
    }
  }

  function Concat<T>(ss: seq<seq<T>>): seq<T> {
    if ss == [] then [] else ss[0] + Concat(ss[1..])
  }

  lemma Associate<T>(a: seq<T>, b: seq<T>, c: seq<T>)
    ensures (a + b) + c == a + (b + c)
  {
  }

  lemma AppendOne<T>(a: seq<T>, x: T, b: seq<T>)
    ensures a + ([x] + b) == (a + [x]) + b
  {
  }

  lemma {:induction false} ConcatAppend<T>(a: seq<seq<T>>, b: seq<seq<T>>)
    ensures Concat(a + b) == Concat(a) + Concat(b)
  {
    if a == [] {
      assert a + b == b;
    } else {
      ConcatAppend(a[1..], b);
      assert (a + b)[0] == a[0] && (a + b)[1..] == a[1..] + b;
      Associate(a[0], Concat(a[1..]), Concat(b));
    }
  }

  lemma ConcatOne<T>(s: seq<T>)
    ensures Concat([s]) == s
  {
    assert Concat([s]) == s + Concat<T>([]);
  }

  lemma SuffixSplit<T>(a: seq<T>, b: seq<T>, c: seq<T>)
    requires a <= b <= c
    ensures c[|a|..] == b[|a|..] + c[|b|..]
    ensures forall i :: |a| <= i < |b| ==> c[i] == b[|a|..][i - |a|]
  {
  }

  lemma Glue<T>(p: seq<T>, c1: seq<T>, f1: seq<T>, m: seq<T>, c2: seq<T>, f2: seq<T>, q: seq<T>)
    requires p + c1 == f1 + m && m + c2 == f2 + q
    ensures p + (c1 + c2) == (f1 + f2) + q
  {
    assert p + (c1 + c2) == (p + c1) + c2;
    assert (f1 + m) + c2 == f1 + (m + c2);
    assert f1 + (f2 + q) == (f1 + f2) + q;
  }

  /** What the loop `for i := 0; i < len(s); i += n { ... s[i:min(i+n, len(s))] ... }` cuts. */
  function Chunks<T>(s: seq<T>, n: nat): seq<seq<T>>
    requires n > 0
    decreases |s|
  {
    if |s| == 0 then [] else if |s| <= n then [s] else [s[..n]] + Chunks(s[n..], n)
  }

  lemma {:induction false} ConcatChunks<T>(s: seq<T>, n: nat)
    requires n > 0
    ensures Concat(Chunks(s, n)) == s
    decreases |s|
  {
    if |s| > n {
      ConcatChunks(s[n..], n);
      assert Chunks(s, n)[1..] == Chunks(s[n..], n);
    } else if |s| > 0 {
      assert Concat(Chunks(s, n)) == s + Concat(Chunks(s, n)[1..]);
    }
  }

  /** The part of s still to be cut when the loop stands at i. */
  function Rest<T>(s: seq<T>, i: nat): seq<T> {
    if i < |s| then s[i..] else []
  }

  /** The piece that loop cuts at i. */
  function Piece<T>(s: seq<T>, n: nat, i: nat): seq<T>
    requires i < |s|
  {
    s[i..if i + n > |s| then |s| else i + n]
  }

  /** One turn of it: what is still to be cut at i begins with the piece it cuts there. */
  lemma NextPiece<T>(s: seq<T>, n: nat, i: nat)
    requires n > 0 && i < |s|
    ensures Chunks(Rest(s, i), n) == [Piece(s, n, i)] + Chunks(Rest(s, i + n), n)
  {
    if i + n < |s| {
      assert s[i..][n..] == s[i + n..];
      assert s[i..][..n] == s[i..i + n];
    } else {
      assert s[i..] == s[i..|s|];
    }
  }

  function CeilDiv(a: nat, n: nat): nat
    requires n > 0
  {
    (a + n - 1) / n
  }

  /** Exactly ceil(|s|/n) chunks, all but the last full, none empty. */
  lemma {:induction false} ChunkShape<T>(s: seq<T>, n: nat)
    requires n > 0
    ensures |Chunks(s, n)| == CeilDiv(|s|, n)
    ensures forall i :: 0 <= i < |Chunks(s, n)| ==> 0 < |Chunks(s, n)[i]| <= n
    ensures forall i :: 0 <= i < |Chunks(s, n)| - 1 ==> |Chunks(s, n)[i]| == n
    decreases |s|
  {
    if |s| > n {
      ChunkShape(s[n..], n);
      assert |s| + n - 1 == (|s| - n + n - 1) + n;
      DivStep(|s| - n + n - 1, n);
    } else if |s| > 0 {
      assert |s| + n - 1 == (|s| - 1) + n;
      DivStep(|s| - 1, n);
      assert (|s| - 1) / n == 0;
    } else {
      assert (n - 1) / n == 0;
    }
  }

  lemma DivStep(a: nat, n: nat)
    requires n > 0
    ensures (a + n) / n == a / n + 1
  {
    QuotientUnique(a + n, n, a / n + 1, a % n);
  }

  lemma QuotientUnique(a: nat, n: nat, q: nat, r: nat)
    requires n > 0 && r < n && a == q * n + r
    ensures a / n == q
  {
    var d: int := a / n - q;
    assert a == (a / n) * n + a % n;
    assert (a / n) * n - q * n == d * n;
    assert d > 0 ==> d * n >= n;
    assert d < 0 ==> d * n <= -(n as int);
  }

  lemma WrapAdd(a: int, b: int)
    ensures Wrap16(Wrap16(a) + b) == Wrap16(a + b)
  {
  }

  /** Applies f to every element. */
  function Map<S, T>(f: S -> T, s: seq<S>): (r: seq<T>)
    ensures |r| == |s|
    ensures forall i :: 0 <= i < |s| ==> r[i] == f(s[i])
  {
    if s == [] then [] else [f(s[0])] + Map(f, s[1..])
  }

  lemma {:induction false} MapAppend<S, T>(f: S -> T, a: seq<S>, b: seq<S>)
    ensures Map(f, a + b) == Map(f, a) + Map(f, b)
  {
  }

  /** Applies f to every element and glues the results. */
  function FlatMap<S, T>(f: S -> seq<T>, s: seq<S>): seq<T> {
    if s == [] then [] else f(s[0]) + FlatMap(f, s[1..])
  }

  lemma {:induction false} FlatMapAppend<S, T>(f: S -> seq<T>, a: seq<S>, b: seq<S>)
    ensures FlatMap(f, a + b) == FlatMap(f, a) + FlatMap(f, b)
    decreases |a|
  {
    if a == [] {
      assert a + b == b;
    } else {
      FlatMapAppend(f, a[1..], b);
      assert (a + b)[0] == a[0] && (a + b)[1..] == a[1..] + b;
      Associate(f(a[0]), FlatMap(f, a[1..]), FlatMap(f, b));
    }
  }

  lemma FlatMapOne<S, T>(f: S -> seq<T>, x: S)
    ensures FlatMap(f, [x]) == f(x)
  {
    assert [x][1..] == [];
    assert f(x) + [] == f(x);
  }

  lemma {:induction false} FlatMapHas<S, T>(f: S -> seq<T>, s: seq<S>, x: S)
    requires x in s
    ensures forall y :: y in f(x) ==> y in FlatMap(f, s)
  {
    if s[0] != x {
      FlatMapHas(f, s[1..], x);
    }
  }

  lemma LE16OfGet16(b: seq<Byte>, i: nat)
    requires i + 2 <= |b|
    ensures LE16(Get16(b, i)) == b[i..i + 2]
  {
  }
}
