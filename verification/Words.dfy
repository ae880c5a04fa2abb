/**
  Machine arithmetic shared by every component: powers of two, the bit
  operations the kernel applies to addresses and table entries, and a
  byte-addressed memory with little-endian words.
 */
module Words {

  type Byte = x: int | 0 <= x < 256

  /** Memory: a byte at every address. */
  type Mem = int -> Byte

  datatype Option<+T> = None | Some(value: T)

  // ---------------------------------------------------------------- powers

  function Pow2(n: nat): (p: nat)
    ensures p >= 1
  {
    if n == 0 then 1 else 2 * Pow2(n - 1)
  }

  lemma {:induction false} Pow2Add(a: nat, b: nat)
    ensures Pow2(a + b) == Pow2(a) * Pow2(b)
  {
    if a == 0 {
    } else {
      Pow2Add(a - 1, b);
    }
  }

  lemma {:induction false} Pow2Mono(a: nat, b: nat)
    requires a <= b
    ensures Pow2(a) <= Pow2(b)
    decreases b
  {
    if a < b { Pow2Mono(a, b - 1); }
  }

  // -------------------------------------------------------- bit operations

  /** Bitwise exclusive or of two naturals, bit by bit. */
  function Xor(a: nat, b: nat): nat
  {
    if a == 0 && b == 0 then 0 else 2 * Xor(a / 2, b / 2) + (a % 2 + b % 2) % 2
  }

  /** Bitwise or of two naturals, bit by bit. */
  function Or(a: nat, b: nat): nat
  {
    if a == 0 && b == 0 then 0
    else 2 * Or(a / 2, b / 2) + if a % 2 == 1 || b % 2 == 1 then 1 else 0
  }

  lemma {:induction false} XorZero(a: nat)
    ensures Xor(a, 0) == a
  {
    if a != 0 { XorZero(a / 2); }
  }

  lemma {:induction false} XorDouble(a: nat, b: nat)
    ensures Xor(2 * a, 2 * b) == 2 * Xor(a, b)
  {
    assert (2 * a) / 2 == a && (2 * b) / 2 == b && (2 * a) % 2 == 0 && (2 * b) % 2 == 0;
  }

  lemma {:induction false} XorOne(q: nat)
    ensures Xor(q, 1) == if q % 2 == 0 then q + 1 else q - 1
  {
    XorZero(q / 2);
  }

  lemma Pow2Step(n: nat)
    requires n > 0
    ensures Pow2(n) == 2 * Pow2(n - 1)
  {
  }

  /** Exclusive or with a single bit moves an aligned address to its neighbour. */
  lemma {:induction false} XorFlips(q: nat, n: nat)
    ensures Xor(q * Pow2(n), Pow2(n)) == (if q % 2 == 0 then q + 1 else q - 1) * Pow2(n)
  {
    if n == 0 {
      XorOne(q);
    } else {
      var p := Pow2(n - 1);
      var q' := if q % 2 == 0 then q + 1 else q - 1;
      Pow2Step(n);
      hide Xor, Pow2;
      calc {
        Xor(q * Pow2(n), Pow2(n));
        { Regroup(q, p); }
        Xor(2 * (q * p), 2 * p);
        { XorDouble(q * p, p); }
        2 * Xor(q * p, p);
        { XorFlips(q, n - 1); }
        2 * (q' * p);
        { Regroup(q', p); }
        q' * Pow2(n);
      }
    }
  }

  lemma Regroup(q: int, p: int)
    ensures q * (2 * p) == 2 * (q * p)
  {
  }

  lemma {:induction false} OrZero(a: nat)
    ensures Or(a, 0) == a && Or(0, a) == a
  {
    if a != 0 { OrZero(a / 2); }
  }

  lemma {:induction false} OrBit(b: nat, d: nat)
    requires b < 2 && d < 2
    ensures Or(b, d) == if b == 1 || d == 1 then 1 else 0
  {
    assert Or(0, 0) == 0;
  }

  lemma {:induction false} OrStep(a: nat, b: nat, c: nat, d: nat)
    requires b < 2 && d < 2
    ensures Or(2 * a + b, 2 * c + d) == 2 * Or(a, c) + Or(b, d)
  {
    OrZero(0);
    assert (2 * a + b) / 2 == a && (2 * c + d) / 2 == c;
  }

  /** The word whose low `k` bits are those of `b` and whose other bits are `a`. */
  function Join(k: nat, a: nat, b: nat): nat
  {
    if k == 0 then a else 2 * Join(k - 1, a, b / 2) + b % 2
  }

  lemma {:induction false} JoinIsSum(k: nat, a: nat, b: nat)
    requires b < Pow2(k)
    ensures Join(k, a, b) == a * Pow2(k) + b
  {
    if k > 0 {
      JoinIsSum(k - 1, a, b / 2);
      Regroup(a, Pow2(k - 1));
    }
  }

  lemma {:induction false} OrJoin(k: nat, a: nat, b: nat, c: nat, d: nat)
    requires b < Pow2(k) && d < Pow2(k)
    ensures Or(b, d) < Pow2(k)
    ensures Or(Join(k, a, b), Join(k, c, d)) == Join(k, Or(a, c), Or(b, d))
  {
    if k == 0 {
      assert Or(0, 0) == 0;
    } else {
      hide Or, Join;
      OrJoin(k - 1, a, b / 2, c, d / 2);
      OrHalves(b, d);
      JoinStep(k, a, b);
      JoinStep(k, c, d);
      JoinStep(k, Or(a, c), Or(b, d));
      OrStep(Join(k - 1, a, b / 2), b % 2, Join(k - 1, c, d / 2), d % 2);
    }
  }

  lemma {:induction false} JoinStep(k: nat, a: nat, b: nat)
    requires k > 0
    ensures Join(k, a, b) == 2 * Join(k - 1, a, b / 2) + b % 2
  {
  }

  lemma {:induction false} OrHalves(b: nat, d: nat)
    ensures Or(b, d) / 2 == Or(b / 2, d / 2) && Or(b, d) % 2 == Or(b % 2, d % 2) < 2
  {
    hide Or;
    OrBit(b % 2, d % 2);
    Halves(b);
    Halves(d);
    OrStep(b / 2, b % 2, d / 2, d % 2);
    Doubled(Or(b / 2, d / 2), Or(b % 2, d % 2));
  }

  lemma Halves(n: nat)
    ensures n == 2 * (n / 2) + n % 2
  {
  }

  lemma Doubled(q: nat, r: nat)
    requires r < 2
    ensures (2 * q + r) / 2 == q && (2 * q + r) % 2 == r
  {
  }

  /** Or works on the high and low parts of a word separately. */
  lemma {:induction false} OrSplit(k: nat, a: nat, b: nat, c: nat, d: nat)
    requires b < Pow2(k) && d < Pow2(k)
    ensures Or(b, d) < Pow2(k)
    ensures Or(a * Pow2(k) + b, c * Pow2(k) + d) == Or(a, c) * Pow2(k) + Or(b, d)
  {
    OrJoin(k, a, b, c, d);
    JoinIsSum(k, a, b);
    JoinIsSum(k, c, d);
    JoinIsSum(k, Or(a, c), Or(b, d));
  }

  // -------------------------------------------------------- little endian

  // ------------------------------------------------------------ single bits

  /** Bit `i` of `n` is set. */
  predicate Bit(n: nat, i: nat)
  {
    if i == 0 then n % 2 == 1 else Bit(n / 2, i - 1)
  }

  lemma {:induction false} OrBits(a: nat, b: nat, i: nat)
    ensures Bit(Or(a, b), i) <==> Bit(a, i) || Bit(b, i)
  {
    if a == 0 && b == 0 {
      ZeroBits(i);
    } else if i > 0 {
      assert Or(a, b) / 2 == Or(a / 2, b / 2);
      OrBits(a / 2, b / 2, i - 1);
    }
  }

  lemma {:induction false} ZeroBits(i: nat)
    ensures !Bit(0, i)
  {
    if i > 0 { ZeroBits(i - 1); }
  }

  lemma {:induction false} PowerBit(i: nat, j: nat)
    ensures Bit(Pow2(i), j) <==> i == j
  {
    if i == 0 {
      if j > 0 { ZeroBits(j - 1); }
    } else if j > 0 {
      PowerBit(i - 1, j - 1);
    }
  }

  /** The `n` low-order bytes of `v`, least significant first. */
  function LeBytes(v: nat, n: nat): (s: seq<Byte>)
    ensures |s| == n
  {
    if n == 0 then [] else [v % 256] + LeBytes(v / 256, n - 1)
  }

  function FromLe(s: seq<Byte>): nat
  {
    if s == [] then 0 else s[0] + 256 * FromLe(s[1..])
  }

  function Pow256(n: nat): (p: nat)
    ensures p >= 1
  {
    if n == 0 then 1 else 256 * Pow256(n - 1)
  }

  lemma {:induction false} LeRoundTrip(v: nat, n: nat)
    requires v < Pow256(n)
    ensures FromLe(LeBytes(v, n)) == v
  {
    if n > 0 {
      LeRoundTrip(v / 256, n - 1);
      assert LeBytes(v, n)[1..] == LeBytes(v / 256, n - 1);
    }
  }

  lemma {:induction false} LeInverse(s: seq<Byte>)
    ensures LeBytes(FromLe(s), |s|) == s
  {
    if s != [] {
      LeInverse(s[1..]);
      assert FromLe(s) % 256 == s[0] && FromLe(s) / 256 == FromLe(s[1..]);
      assert s == [s[0]] + s[1..];
    }
  }

  lemma {:induction false} FromLeBound(s: seq<Byte>)
    ensures FromLe(s) < Pow256(|s|)
  {
    if s != [] { FromLeBound(s[1..]); }
  }

  const W64 := 0x1_0000_0000_0000_0000

  lemma Pow256Eight()
    ensures Pow256(8) == W64
  {
    assert Pow256(4) == 0x1_0000_0000;
  }

  // --------------------------------------------------------------- memory

  /** `n` bytes of memory starting at `a`. */
  function Load(m: Mem, a: int, n: nat): (s: seq<Byte>)
    ensures |s| == n
    ensures forall i :: 0 <= i < n ==> s[i] == m(a + i)
  {
    seq(n, i => m(a + i))
  }

  /** Memory after copying `s` to address `a`. */
  function Store(m: Mem, a: int, s: seq<Byte>): (m': Mem)
    ensures forall x :: m'(x) == if a <= x < a + |s| then s[x - a] else m(x)
  {
    x => if a <= x < a + |s| then s[x - a] else m(x)
  }

  /** Memory after clearing `n` bytes at address `a`. */
  function Clear(m: Mem, a: int, n: nat): (m': Mem)
    ensures forall x :: m'(x) == if a <= x < a + n then 0 else m(x)
  {
    x => if a <= x < a + n then 0 else m(x)
  }

  /** Only [lo, hi) changes. */
  ghost predicate Within(m: Mem, m': Mem, lo: int, hi: int)
  {
    forall x :: !(lo <= x < hi) ==> m'(x) == m(x)
  }

  function Load64(m: Mem, a: int): nat
  {
    FromLe(Load(m, a, 8))
  }

  function Store64(m: Mem, a: int, v: nat): (m': Mem)
    ensures forall x :: x < a || x >= a + 8 ==> m'(x) == m(x)
  {
    Store(m, a, LeBytes(v, 8))
  }

  /** A word reads back as written. */
  lemma Load64Stored(m: Mem, a: int, v: nat)
    requires v < W64
    ensures Load64(Store64(m, a, v), a) == v
  {
    Pow256Eight();
    LeRoundTrip(v, 8);
    assert Load(Store64(m, a, v), a, 8) == LeBytes(v, 8);
  }

  /** Writing back the word that is there changes nothing. */
  lemma Store64Loaded(m: Mem, a: int, x: int)
    ensures Store64(m, a, Load64(m, a))(x) == m(x)
  {
    LeInverse(Load(m, a, 8));
  }

  /** A word depends on its own eight bytes only. */
  lemma Load64Same(m: Mem, m': Mem, a: int)
    requires forall x :: a <= x < a + 8 ==> m(x) == m'(x)
    ensures Load64(m, a) == Load64(m', a)
  {
    assert Load(m, a, 8) == Load(m', a, 8);
  }

  lemma Load64Zero(m: Mem, a: int)
    requires forall x :: a <= x < a + 8 ==> m(x) == 0
    ensures Load64(m, a) == 0
  {
    FromLeZeros(Load(m, a, 8));
  }

  lemma {:induction false} FromLeZeros(s: seq<Byte>)
    requires forall i :: 0 <= i < |s| ==> s[i] == 0
    ensures FromLe(s) == 0
  {
    if s != [] { FromLeZeros(s[1..]); }
  }

  lemma Load64Bound(m: Mem, a: int)
    ensures Load64(m, a) < W64
  {
    FromLeBound(Load(m, a, 8));
    Pow256Eight();
  }
}
