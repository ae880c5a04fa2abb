/**
  Tables of 64-bit words in memory, as stack frames are made of.
 */
module Tables {
  import opened Words

  /** The words `ws` stand at `a`. */
  ghost predicate WordsAt(u: Mem, a: nat, ws: seq<nat>)
  {
    forall j :: 0 <= j < |ws| ==> Load64(u, a + 8 * j) == ws[j]
  }

  /** Append one word to the table at `a`. */
  method PutNext(ghost m0: Mem, m: Mem, a: nat, ghost ws: seq<nat>, w: nat, v: nat) returns (m': Mem)
    requires w == |ws| && WordsAt(m, a, ws) && v < W64 && Within(m0, m, a, a + 8 * w)
    ensures WordsAt(m', a, ws + [v]) && Within(m0, m', a, a + 8 * (w + 1))
  {
    hide Load64;
    m' := Store64(m, a + 8 * w, v);
    Load64Stored(m, a + 8 * w, v);
    forall j | 0 <= j < |ws|
      ensures Load64(m', a + 8 * j) == ws[j]
    {
      Load64Same(m, m', a + 8 * j);
    }
  }

  /** Append several words. */
  method PutAll(ghost m0: Mem, m: Mem, a: nat, ghost ws: seq<nat>, w: nat, vs: seq<nat>) returns (m': Mem)
    requires w == |ws| && WordsAt(m, a, ws) && Within(m0, m, a, a + 8 * w) && forall i :: 0 <= i < |vs| ==> vs[i] < W64
    ensures WordsAt(m', a, ws + vs) && Within(m0, m', a, a + 8 * (w + |vs|))
  {
    hide WordsAt, Within;
    m' := m;
    assert ws + vs[..0] == ws;
    for i := 0 to |vs|
      invariant WordsAt(m', a, ws + vs[..i]) && Within(m0, m', a, a + 8 * (w + i))
    {
      m' := PutNext(m0, m', a, ws + vs[..i], w + i, vs[i]);
      assert ws + vs[..i] + [vs[i]] == ws + vs[..i + 1];
    }
    assert vs[..|vs|] == vs;
  }

  lemma Untouched(m: Mem, a: nat)
    ensures WordsAt(m, a, []) && Within(m, m, a, a)
  {
  }

  /** A table depends on its own bytes only. */
  lemma WordsSame(m: Mem, m': Mem, a: nat, ws: seq<nat>)
    requires WordsAt(m, a, ws) && forall x :: a <= x < a + 8 * |ws| ==> m'(x) == m(x)
    ensures WordsAt(m', a, ws)
  {
    hide Load64;
    forall j | 0 <= j < |ws|
      ensures Load64(m', a + 8 * j) == ws[j]
    {
      Load64Same(m, m', a + 8 * j);
    }
  }

  /** Words below the changed part survive it. */
  lemma WordsKept(m: Mem, m': Mem, a: nat, ws: seq<nat>, hi: nat)
    requires WordsAt(m, a, ws) && Within(m, m', a + 8 * |ws|, hi)
    ensures WordsAt(m', a, ws)
  {
    hide WordsAt;
    WordsSame(m, m', a, ws);
  }

  lemma WordAt(u: Mem, a: nat, ws: seq<nat>, j: nat)
    requires WordsAt(u, a, ws) && j < |ws|
    ensures Load64(u, a + 8 * j) == ws[j]
  {
    hide Load64;
  }

  lemma WordsSplit(u: Mem, a: nat, x: seq<nat>, y: seq<nat>)
    requires WordsAt(u, a, x + y)
    ensures WordsAt(u, a, x) && WordsAt(u, a + 8 * |x|, y)
  {
    hide Load64;
    forall j | 0 <= j < |x|
      ensures Load64(u, a + 8 * j) == x[j]
    {
      assert (x + y)[j] == x[j];
    }
    forall j | 0 <= j < |y|
      ensures Load64(u, a + 8 * |x| + 8 * j) == y[j]
    {
      assert (x + y)[|x| + j] == y[j];
      assert a + 8 * |x| + 8 * j == a + 8 * (|x| + j);
    }
  }

  lemma WithinTrans(m: Mem, m1: Mem, m2: Mem, lo: int, mid: int, hi: int)
    requires Within(m, m1, lo, mid) && Within(m1, m2, mid, hi) && lo <= mid <= hi
    ensures Within(m, m2, lo, hi)
  {
  }

  // ------------------------------------------------------ what the user sees

  /** User addresses from `sp` show the bytes from `pb` on, `n` of them. */
  ghost predicate Shows(u: Mem, sp: int, m: Mem, pb: int, n: nat)
  {
    forall x :: sp <= x < sp + n ==> u(x) == m(x - sp + pb)
  }

  lemma ShownLoad(u: Mem, sp: int, m: Mem, pb: int, n: nat, k: nat, len: nat)
    requires Shows(u, sp, m, pb, n) && k + len <= n
    ensures Load(u, sp + k, len) == Load(m, pb + k, len)
  {
    var a, b := Load(u, sp + k, len), Load(m, pb + k, len);
    forall i | 0 <= i < len
      ensures a[i] == b[i]
    {
      assert u(sp + k + i) == m(sp + k + i - sp + pb);
    }
  }

  lemma ShownWords(u: Mem, sp: nat, m: Mem, pb: nat, n: nat, ws: seq<nat>)
    requires Shows(u, sp, m, pb, n) && 8 * |ws| <= n && WordsAt(m, pb, ws)
    ensures WordsAt(u, sp, ws)
  {
    hide Shows, Load;
    forall j | 0 <= j < |ws|
      ensures Load64(u, sp + 8 * j) == ws[j]
    {
      ShownLoad(u, sp, m, pb, n, 8 * j, 8);
    }
  }
}
