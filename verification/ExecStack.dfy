/**
  The initial user stack: collection of argv and envp (kernel/src/syscall.rs), the frame
  the kernel builds, and the user-space walks over it (servers/libc-shim/src/lib.rs,
  userland/libc/src/start.rs). The frame is the one of the System V AMD64 ABI, section 3.4.
 */
module ExecStack {
  import opened Words
  import opened Tables

  const MAX_ARGS := 64
  const MAX_STR := 8192

  type Str = seq<Byte>

  // ----------------------------------------------------------------- C strings

  /** The C string `s` stands at address `p`. */
  ghost predicate CString(u: Mem, p: int, s: Str)
  {
    (forall k :: p <= k < p + |s| ==> u(k) == s[k - p] && u(k) != 0) && u(p + |s|) == 0
  }

  /** What stands at an address is one string only. */
  lemma CStringUnique(u: Mem, p: int, s: Str, t: Str)
    requires CString(u, p, s) && CString(u, p, t)
    ensures s == t
  {
    assert |s| == |t| by {
      assert u(p + |s|) == 0 && u(p + |t|) == 0;
    }
    forall k | 0 <= k < |s|
      ensures s[k] == t[k]
    {
      assert u(p + k) == s[p + k - p] == t[p + k - p];
    }
  }

  // ------------------------------------------------------- packed string buffers

  /** Where string `i` starts when the strings are packed with their terminators. */
  function Offset(ss: seq<Str>, i: nat): nat
    requires i <= |ss|
  {
    if i == 0 then 0 else Offset(ss, i - 1) + |ss[i - 1]| + 1
  }

  lemma {:induction false} OffsetPrefix(ss: seq<Str>, t: Str, i: nat)
    requires i <= |ss|
    ensures Offset(ss + [t], i) == Offset(ss, i)
  {
    if i > 0 { OffsetPrefix(ss, t, i - 1); }
  }

  lemma {:induction false} OffsetMono(ss: seq<Str>, i: nat, j: nat)
    requires i < j <= |ss|
    ensures Offset(ss, i) + |ss[i]| + 1 <= Offset(ss, j)
  {
    if i < j - 1 { OffsetMono(ss, i, j - 1); }
  }

  /** String `s`, free of zeros, stands at `o` in the buffer, terminated. */
  predicate Packed(d: seq<Byte>, o: nat, s: Str)
  {
    o + |s| < |d| && d[o..o + |s|] == s && d[o + |s|] == 0 && 0 !in s
  }

  predicate AllPacked(d: seq<Byte>, ss: seq<Str>)
  {
    forall i :: 0 <= i < |ss| ==> Packed(d, Offset(ss, i), ss[i])
  }

  /** Changes behind a string do not concern it. */
  lemma PackedSame(d: seq<Byte>, d': seq<Byte>, o: nat, s: Str, end: nat)
    requires Packed(d, o, s) && o + |s| < end <= |d| == |d'| && d[..end] == d'[..end]
    ensures Packed(d', o, s)
  {
    forall i | 0 <= i < end
      ensures d'[i] == d[i]
    {
      assert d'[i] == d'[..end][i] == d[..end][i];
    }
    assert d'[o..o + |s|] == d[o..o + |s|];
  }

  lemma AllPackedSame(d: seq<Byte>, d': seq<Byte>, ss: seq<Str>, end: nat)
    requires AllPacked(d, ss) && Offset(ss, |ss|) <= end <= |d| == |d'| && d[..end] == d'[..end]
    ensures AllPacked(d', ss)
  {
    hide Packed, Offset;
    forall i | 0 <= i < |ss|
      ensures Packed(d', Offset(ss, i), ss[i])
    {
      OffsetMono(ss, i, |ss|);
      PackedSame(d, d', Offset(ss, i), ss[i], end);
    }
  }

  lemma AllPackedPush(d: seq<Byte>, ss: seq<Str>, t: Str)
    requires AllPacked(d, ss) && Packed(d, Offset(ss, |ss|), t)
    ensures AllPacked(d, ss + [t]) && Offset(ss + [t], |ss| + 1) == Offset(ss, |ss|) + |t| + 1
  {
    hide Packed, Offset;
    StringsKept(ss, t);
    var ss' := ss + [t];
    forall i | 0 <= i < |ss'|
      ensures Packed(d, Offset(ss', i), ss'[i])
    {
      assert i < |ss| ==> ss'[i] == ss[i];
    }
  }

  /** The buffer execve collects strings in. */
  class ExecStrBuf {
    const data: array<Byte>
    const offsets: array<nat>
    const lengths: array<nat>
    var end: nat
    var count: nat
    ghost var strings: seq<Str>

    ghost predicate Valid()
      reads this, data, offsets, lengths
    {
      && data.Length == MAX_STR && offsets.Length == MAX_ARGS && lengths.Length == MAX_ARGS && offsets != lengths
      && count == |strings| <= MAX_ARGS && end < MAX_STR
      && (end == Offset(strings, count) || (Offset(strings, count) <= end && end == MAX_STR - 1))
      && AllPacked(data[..], strings)
      && (forall i :: 0 <= i < count ==> offsets[i] == Offset(strings, i) && lengths[i] == |strings[i]|)
    }

    constructor ()
      ensures Valid() && strings == [] && fresh(data) && fresh(offsets) && fresh(lengths)
    {
      data, offsets, lengths := new Byte[MAX_STR](_ => 0), new nat[MAX_ARGS](_ => 0), new nat[MAX_ARGS](_ => 0);
      end, count, strings := 0, 0, [];
    }

    method Reset()
      requires Valid()
      modifies this
      ensures Valid() && strings == [] && end == 0 && count == 0
    {
      end, count, strings := 0, 0, [];
    }

    /**
      Append the C string at `ptr`. Succeeds exactly when there is a slot for it, the
      pointer is not null and its terminator comes while the buffer lasts; a string cut
      off by the end of the buffer is not recorded and no later one will be.
     */
    method PushCstr(u: Mem, ptr: nat) returns (ok: bool)
      requires Valid()
      modifies this, data, offsets, lengths
      ensures Valid()
      ensures ok <==> old(count) < MAX_ARGS && ptr != 0 && Ends(u, ptr, MAX_STR - 1 - old(end))
      ensures ok ==>
                && |strings| > 0 && strings == old(strings) + [strings[|strings| - 1]]
                && CString(u, ptr, strings[|strings| - 1])
      ensures !ok ==> strings == old(strings)
    {
      hide Offset, AllPacked, Ends, CString;
      if count >= MAX_ARGS || ptr == 0 { return false; }
      var start := end;
      ghost var d := data[..];
      ok := CopyIn(u, ptr);
      AllPackedSame(d, data[..], strings, start);
      if !ok { return; }
      var len := end - start;
      ghost var s := data[start..end];
      d := data[..];
      data[end] := 0;
      Terminated(d, data[..], strings, start, s);
      end := end + 1;
      offsets[count], lengths[count] := start, len;
      StringsKept(strings, s);
      count, strings := count + 1, strings + [s];
    }

    /** The copying loop of `PushCstr`: stops at the terminator, or when the buffer is full. */
    method CopyIn(u: Mem, ptr: nat) returns (ok: bool)
      requires data.Length == MAX_STR && end <= MAX_STR - 1
      modifies this`end, data
      ensures old(end) <= end <= MAX_STR - 1 && data[..old(end)] == old(data[..end])
      ensures ok <==> Ends(u, ptr, MAX_STR - 1 - old(end))
      ensures ok ==> end < MAX_STR - 1 && 0 !in data[old(end)..end] && CString(u, ptr, data[old(end)..end])
      ensures !ok ==> end == MAX_STR - 1
    {
      var start := end;
      while end < MAX_STR - 1 && u(ptr + (end - start)) != 0
        invariant start <= end <= MAX_STR - 1 && data[..start] == old(data[..end])
        invariant forall k :: ptr <= k < ptr + (end - start) ==> u(k) != 0
        invariant forall k :: start <= k < end ==> data[k] == u(ptr + (k - start))
      {
        data[end] := u(ptr + (end - start));
        end := end + 1;
      }
      ok := end < MAX_STR - 1;
      if ok {
        assert u(ptr + (end - start)) == 0;
        assert 0 !in data[start..end];
      }
    }
  }

  /** A terminator stands among the `n` bytes at `ptr`. */
  ghost predicate Ends(u: Mem, ptr: nat, n: nat)
  {
    exists k :: ptr <= k < ptr + n && u(k) == 0
  }

  /** The string just copied, with its terminator, is packed behind the others. */
  lemma Terminated(d: seq<Byte>, d': seq<Byte>, ss: seq<Str>, start: nat, s: Str)
    requires AllPacked(d, ss) && start == Offset(ss, |ss|) && start + |s| < |d| == |d'| && d[start..start + |s|] == s
             && 0 !in s
    requires d' == d[start + |s| := 0]
    ensures AllPacked(d', ss + [s])
  {
    hide AllPacked, Offset;
    assert d'[..start] == d[..start];
    AllPackedSame(d, d', ss, start);
    assert d'[start..start + |s|] == s;
    AllPackedPush(d', ss, s);
  }

  lemma OffsetLast(ss: seq<Str>)
    requires |ss| > 0
    ensures Offset(ss, |ss|) == Offset(ss, |ss| - 1) + |ss[|ss| - 1]| + 1
  {
  }

  lemma StringsKept(ss: seq<Str>, s: Str)
    ensures forall i :: 0 <= i <= |ss| ==> Offset(ss + [s], i) == Offset(ss, i)
    ensures Offset(ss + [s], |ss| + 1) == Offset(ss, |ss|) + |s| + 1
  {
    OffsetLast(ss + [s]);
    hide Offset;
    forall i | 0 <= i <= |ss|
      ensures Offset(ss + [s], i) == Offset(ss, i)
    {
      OffsetPrefix(ss, s, i);
    }
  }

  // ---------------------------------------------------------------- the frame

  const STACK_TOP := 0x7fff_ffff_f000
  const STACK_SIZE := 8 * 4096
  const AT_NULL := 0
  const AT_PAGESZ := 6
  const AT_RANDOM := 25
  const AT_VFS_PORT := 256

  /** Pointers to packed strings whose buffer stands at `base`. */
  function Pointers(base: nat, ss: seq<Str>): (ps: seq<nat>)
    ensures |ps| == |ss|
  {
    seq(|ss|, i requires 0 <= i < |ss| => base + Offset(ss, i))
  }

  function Auxv(random: nat, port: nat): seq<nat>
  {
    [AT_RANDOM, random, AT_PAGESZ, 4096, 11, 0, 12, 0, 13, 0, 14, 0, AT_VFS_PORT, port, AT_NULL, 0]
  }

  /** The words of the frame, from the stack pointer up. */
  function FrameWords(argv: seq<Str>, args: nat, envp: seq<Str>, envs: nat, random: nat, port: nat): seq<nat>
  {
    [|argv|] + ((Pointers(args, argv) + [0]) + ((Pointers(envs, envp) + [0]) + Auxv(random, port)))
  }

  /**
    The initial process stack: argument count, argument pointers and a null word,
    environment pointers and a null word, then the auxiliary vector; the pointers lead
    to the strings, and AT_RANDOM to sixteen random bytes.
   */
  ghost predicate Frame(u: Mem, sp: nat, argv: seq<Str>, envp: seq<Str>, seed: seq<Byte>, port: nat)
  {
    && sp % 16 == 0
    && Load64(u, sp) == |argv|
    && Vector(u, sp + 8, argv)
    && Vector(u, sp + 8 * (2 + |argv|), envp)
    && AuxVector(u, sp + 8 * (3 + |argv| + |envp|), seed, port)
  }

  /** A null-terminated table of string pointers. */
  ghost predicate Vector(u: Mem, table: nat, ss: seq<Str>)
  {
    && (forall i :: 0 <= i < |ss| ==> StringAt(u, table + 8 * i, ss[i]))
    && Load64(u, table + 8 * |ss|) == 0
  }

  ghost predicate StringAt(u: Mem, slot: nat, s: Str)
  {
    Load64(u, slot) != 0 && CString(u, Load64(u, slot), s)
  }

  ghost predicate AuxVector(u: Mem, a: nat, seed: seq<Byte>, port: nat)
  {
    exists r: nat :: WordsAt(u, a, Auxv(r, port)) && Load(u, r, 16) == seed
  }

  /** Entry `i` of the vector at `a`. */
  ghost predicate AuxEntry(u: Mem, a: nat, i: nat, key: nat, val: nat)
  {
    Load64(u, a + 16 * i) == key && Load64(u, a + 16 * i + 8) == val
  }

  /**
    Entry by entry: AT_RANDOM points to the random bytes, AT_PAGESZ is 4096, the user and
    group numbers are those of root, the VFS port follows, and AT_NULL ends it.
   */
  lemma AuxEntries(u: Mem, a: nat, seed: seq<Byte>, port: nat) returns (r: nat)
    requires AuxVector(u, a, seed, port)
    ensures AuxEntry(u, a, 0, 25, r) && Load(u, r, 16) == seed
    ensures AuxEntry(u, a, 1, 6, 4096)
    ensures AuxEntry(u, a, 2, 11, 0) && AuxEntry(u, a, 3, 12, 0) && AuxEntry(u, a, 4, 13, 0) && AuxEntry(u, a, 5, 14, 0)
    ensures AuxEntry(u, a, 6, 256, port)
    ensures AuxEntry(u, a, 7, 0, 0)
  {
    hide Load64, AuxEntry, WordsAt;
    r :| WordsAt(u, a, Auxv(r, port)) && Load(u, r, 16) == seed;
    AuxAt(u, a, r, port, 0);
    AuxAt(u, a, r, port, 1);
    AuxAt(u, a, r, port, 2);
    AuxAt(u, a, r, port, 3);
    AuxAt(u, a, r, port, 4);
    AuxAt(u, a, r, port, 5);
    AuxAt(u, a, r, port, 6);
    AuxAt(u, a, r, port, 7);
  }

  lemma AuxAt(u: Mem, a: nat, r: nat, port: nat, i: nat)
    requires WordsAt(u, a, Auxv(r, port)) && i < 8
    ensures AuxEntry(u, a, i, Auxv(r, port)[2 * i], Auxv(r, port)[2 * i + 1])
  {
    hide Load64;
    WordAt(u, a, Auxv(r, port), 2 * i);
    WordAt(u, a, Auxv(r, port), 2 * i + 1);
  }

  /** The frame determines what it was built from. */
  lemma FrameUnique(u: Mem, sp: nat, argv: seq<Str>, envp: seq<Str>, seed: seq<Byte>, port: nat,
                    argv': seq<Str>, envp': seq<Str>, seed': seq<Byte>, port': nat)
    requires Frame(u, sp, argv, envp, seed, port) && Frame(u, sp, argv', envp', seed', port')
    ensures argv == argv' && envp == envp' && seed == seed' && port == port'
  {
    hide Load64, CString;
    VectorUnique(u, sp + 8, argv, argv');
    VectorUnique(u, sp + 8 * (2 + |argv|), envp, envp');
    AuxUnique(u, sp + 8 * (3 + |argv| + |envp|), seed, port, seed', port');
  }

  lemma VectorUnique(u: Mem, table: nat, ss: seq<Str>, ts: seq<Str>)
    requires Vector(u, table, ss) && Vector(u, table, ts)
    ensures ss == ts
  {
    hide Load64, CString;
    assert |ss| == |ts| by {
      assert |ss| < |ts| ==> StringAt(u, table + 8 * |ss|, ts[|ss|]);
      assert |ts| < |ss| ==> StringAt(u, table + 8 * |ts|, ss[|ts|]);
    }
    forall i | 0 <= i < |ss|
      ensures ss[i] == ts[i]
    {
      assert StringAt(u, table + 8 * i, ss[i]) && StringAt(u, table + 8 * i, ts[i]);
      CStringUnique(u, Load64(u, table + 8 * i), ss[i], ts[i]);
    }
  }

  lemma AuxUnique(u: Mem, a: nat, seed: seq<Byte>, port: nat, seed': seq<Byte>, port': nat)
    requires AuxVector(u, a, seed, port) && AuxVector(u, a, seed', port')
    ensures seed == seed' && port == port'
  {
    hide Load64;
    var r: nat :| WordsAt(u, a, Auxv(r, port)) && Load(u, r, 16) == seed;
    var r': nat :| WordsAt(u, a, Auxv(r', port')) && Load(u, r', 16) == seed';
    assert Auxv(r, port)[1] == r && Auxv(r', port')[1] == r' && Auxv(r, port)[13] == port
           && Auxv(r', port')[13] == port';
    assert Load64(u, a + 8 * 1) == r == r' && Load64(u, a + 8 * 13) == port == port';
  }

  // ------------------------------------------------------------ building it

  /** Append pointers to `n` packed strings, adding up their lengths, and a null word. */
  method PutArgv(ghost m0: Mem, m: Mem, a: nat, ghost ws: seq<nat>, w: nat, base: nat, ghost ss: seq<Str>, n: nat,
                 lengths: array<nat>) returns (m': Mem)
    requires w == |ws| && WordsAt(m, a, ws) && Within(m0, m, a, a + 8 * w)
    requires n == |ss| <= lengths.Length && forall i :: 0 <= i < n ==> lengths[i] == |ss[i]|
    requires base + Offset(ss, n) < W64
    ensures WordsAt(m', a, ws + Pointers(base, ss) + [0]) && Within(m0, m', a, a + 8 * (w + n + 1))
  {
    hide WordsAt, Within, Offset;
    m' := m;
    var off := 0;
    ghost var ps := Pointers(base, ss);
    OffsetZero(ss);
    assert ws + ps[..0] == ws;
    for i := 0 to n
      invariant off == Offset(ss, i)
      invariant WordsAt(m', a, ws + ps[..i]) && Within(m0, m', a, a + 8 * (w + i))
    {
      OffsetBefore(ss, i);
      m' := PutNext(m0, m', a, ws + ps[..i], w + i, base + off);
      assert ws + ps[..i] + [base + off] == ws + ps[..i + 1];
      off := off + lengths[i] + 1;
    }
    assert ps[..n] == ps;
    m' := PutNext(m0, m', a, ws + ps, w + n, 0);
  }

  lemma OffsetZero(ss: seq<Str>)
    ensures Offset(ss, 0) == 0
  {
  }

  lemma OffsetBefore(ss: seq<Str>, i: nat)
    requires i < |ss|
    ensures Offset(ss, i + 1) == Offset(ss, i) + |ss[i]| + 1 <= Offset(ss, |ss|)
  {
    OffsetMono(ss, i, |ss|);
  }

  /** Append pointers to `n` packed strings, given where they start, and a null word. */
  method PutEnvp(ghost m0: Mem, m: Mem, a: nat, ghost ws: seq<nat>, w: nat, base: nat, ghost ss: seq<Str>, n: nat,
                 offsets: array<nat>) returns (m': Mem)
    requires w == |ws| && WordsAt(m, a, ws) && Within(m0, m, a, a + 8 * w)
    requires n == |ss| <= offsets.Length && forall i :: 0 <= i < n ==> offsets[i] == Offset(ss, i)
    requires base + Offset(ss, n) < W64
    ensures WordsAt(m', a, ws + Pointers(base, ss) + [0]) && Within(m0, m', a, a + 8 * (w + n + 1))
  {
    hide WordsAt, Within, Offset;
    m' := m;
    ghost var ps := Pointers(base, ss);
    assert ws + ps[..0] == ws;
    for i := 0 to n
      invariant WordsAt(m', a, ws + ps[..i]) && Within(m0, m', a, a + 8 * (w + i))
    {
      OffsetBefore(ss, i);
      m' := PutNext(m0, m', a, ws + ps[..i], w + i, base + offsets[i]);
      assert ws + ps[..i] + [base + offsets[i]] == ws + ps[..i + 1];
    }
    assert ps[..n] == ps;
    m' := PutNext(m0, m', a, ws + ps, w + n, 0);
  }

  /** Bytes of the pointer table and auxiliary vector. */
  function TableBytes(argc: nat, envc: nat): nat
  {
    8 * (3 + argc + envc + 16)
  }

  /** Write the pointer table and the auxiliary vector. */
  method PutTable(m: Mem, pb: nat, strBase: nat, argv: ExecStrBuf, envp: ExecStrBuf, port: nat) returns (m': Mem)
    requires argv.Valid() && envp.Valid() && port < W64 && strBase + argv.end + envp.end < W64
    ensures var random := strBase + argv.end + envp.end;
            WordsAt(m', pb, FrameWords(argv.strings, strBase, envp.strings, strBase + argv.end, random, port))
    ensures Within(m, m', pb, pb + TableBytes(argv.count, envp.count))
  {
    hide WordsAt, Within, Offset, AllPacked, Pointers;
    var argc, envc, random := argv.count, envp.count, strBase + argv.end + envp.end;
    assert WordsAt(m, pb, []) && Within(m, m, pb, pb) by { Untouched(m, pb); }
    m' := PutNext(m, m, pb, [], 0, argc);
    ghost var ws := [argc];
    assert [] + [argc] == ws;
    m' := PutArgv(m, m', pb, ws, 1, strBase, argv.strings, argc, argv.lengths);
    ws := ws + Pointers(strBase, argv.strings) + [0];
    m' := PutEnvp(m, m', pb, ws, 2 + argc, strBase + argv.end, envp.strings, envc, envp.offsets);
    ws := ws + Pointers(strBase + argv.end, envp.strings) + [0];
    m' := PutAll(m, m', pb, ws, 3 + argc + envc, Auxv(random, port));
    Regrouped(argc, Pointers(strBase, argv.strings), Pointers(strBase + argv.end, envp.strings), Auxv(random, port));
  }

  lemma Regrouped(n: nat, ps: seq<nat>, es: seq<nat>, aux: seq<nat>)
    ensures [n] + ps + [0] + es + [0] + aux == [n] + ((ps + [0]) + ((es + [0]) + aux))
  {
  }

  /** The string section behind the table. */
  ghost predicate Section(m: Mem, a: nat, args: seq<Byte>, envs: seq<Byte>, seed: seq<Byte>)
  {
    && Load(m, a, |args|) == args
    && Load(m, a + |args|, |envs|) == envs
    && Load(m, a + |args| + |envs|, |seed|) == seed
  }

  method PutSection(m: Mem, a: nat, args: seq<Byte>, envs: seq<Byte>, seed: seq<Byte>) returns (m': Mem)
    ensures Section(m', a, args, envs, seed)
    ensures Within(m, m', a, a + |args| + |envs| + |seed|)
  {
    m' := Store(m, a, args);
    m' := Store(m', a + |args|, envs);
    m' := Store(m', a + |args| + |envs|, seed);
  }

  // ------------------------------------------------------ what the user sees

  /** A packed string, copied to `base`, is a C string there. */
  lemma PackedIsCString(u: Mem, base: nat, d: seq<Byte>, n: nat, o: nat, s: Str)
    requires Packed(d, o, s) && o + |s| < n <= |d| && Load(u, base, n) == d[..n]
    ensures CString(u, base + o, s)
  {
    var l := Load(u, base, n);
    forall k | base + o <= k < base + o + |s|
      ensures u(k) == s[k - (base + o)] && u(k) != 0
    {
      assert l[k - base] == d[k - base] == d[o..o + |s|][k - base - o];
    }
    assert l[o + |s|] == d[o + |s|];
  }

  lemma PointerIsString(u: Mem, table: nat, base: nat, d: seq<Byte>, n: nat, ss: seq<Str>, i: nat)
    requires WordsAt(u, table, Pointers(base, ss) + [0]) && base > 0 && i < |ss|
    requires AllPacked(d, ss) && Offset(ss, |ss|) <= n <= |d| && Load(u, base, n) == d[..n]
    ensures StringAt(u, table + 8 * i, ss[i])
  {
    hide Load64, CString, Packed, Offset, WordsAt, Load;
    var ws := Pointers(base, ss) + [0];
    WordAt(u, table, ws, i);
    assert ws[i] == base + Offset(ss, i);
    OffsetMono(ss, i, |ss|);
    PackedIsCString(u, base, d, n, Offset(ss, i), ss[i]);
  }

  /** Pointers to packed strings form a vector. */
  lemma PointersAreVector(u: Mem, table: nat, base: nat, d: seq<Byte>, n: nat, ss: seq<Str>)
    requires WordsAt(u, table, Pointers(base, ss) + [0]) && base > 0
    requires AllPacked(d, ss) && Offset(ss, |ss|) <= n <= |d| && Load(u, base, n) == d[..n]
    ensures Vector(u, table, ss)
  {
    hide Load64, Offset, WordsAt, Load, StringAt, AllPacked, Pointers;
    WordAt(u, table, Pointers(base, ss) + [0], |ss|);
    forall i | 0 <= i < |ss|
      ensures StringAt(u, table + 8 * i, ss[i])
    {
      PointerIsString(u, table, base, d, n, ss, i);
    }
  }

  /** Table and string section together are the frame. */
  lemma FrameBuilt(u: Mem, sp: nat, argv: seq<Str>, dA: seq<Byte>, nA: nat, envp: seq<Str>, dE: seq<Byte>, nE: nat,
                   seed: seq<Byte>, port: nat)
    requires sp % 16 == 0 && sp > 0 && |seed| == 16
    requires AllPacked(dA, argv) && Offset(argv, |argv|) <= nA <= |dA|
    requires AllPacked(dE, envp) && Offset(envp, |envp|) <= nE <= |dE|
    requires var base := sp + TableBytes(|argv|, |envp|);
             && WordsAt(u, sp, FrameWords(argv, base, envp, base + nA, base + nA + nE, port))
             && Section(u, base, dA[..nA], dE[..nE], seed)
    ensures Frame(u, sp, argv, envp, seed, port)
  {
    hide Load64, Offset, AllPacked, Pointers, WordsAt, Vector, Load, Auxv;
    var base := sp + TableBytes(|argv|, |envp|);
    var aux := Auxv(base + nA + nE, port);
    var es, ps := Pointers(base + nA, envp) + [0], Pointers(base, argv) + [0];
    WordsSplit(u, sp, [|argv|], ps + (es + aux));
    WordAt(u, sp, [|argv|], 0);
    WordsSplit(u, sp + 8, ps, es + aux);
    PointersAreVector(u, sp + 8, base, dA, nA, argv);
    WordsSplit(u, sp + 8 * (2 + |argv|), es, aux);
    PointersAreVector(u, sp + 8 * (2 + |argv|), base + nA, dE, nE, envp);
  }

  /** Bytes the frame needs, its string section rounded up to sixteen. */
  function FrameSize(argc: nat, envc: nat, args: nat, envs: nat): nat
  {
    TableBytes(argc, envc) + 16 * ((args + envs + 16 + 15) / 16)
  }

  function StackPointer(size: nat): nat
    requires size <= STACK_SIZE
  {
    16 * ((STACK_TOP - size) / 16)
  }

  /** Bytes that are written: the words of the table, the strings and the random bytes. */
  function FrameBytes(argc: nat, envc: nat, args: nat, envs: nat): nat
  {
    8 * (1 + (argc + 1) + (envc + 1) + 2 * 8) + args + envs + 16
  }

  /** The highest 16-byte aligned address with `size` bytes of stack above it. */
  ghost predicate Topmost(sp: nat, size: nat)
  {
    && sp % 16 == 0 && sp + size <= STACK_TOP
    && forall q: nat :: q % 16 == 0 && q + size <= STACK_TOP ==> q <= sp
  }

  lemma RoundedIsTopmost(size: nat)
    requires size <= STACK_SIZE
    ensures Topmost(StackPointer(size), size)
  {
    forall q: nat | q % 16 == 0 && q + size <= STACK_TOP
      ensures q <= StackPointer(size)
    {
      assert q == 16 * (q / 16);
    }
  }

  /** Rounding the stack pointer down never leaves the stack, and never wastes room. */
  lemma FrameFits(argc: nat, envc: nat, args: nat, envs: nat)
    requires FrameSize(argc, envc, args, envs) <= STACK_SIZE
    ensures var size := FrameSize(argc, envc, args, envs);
            var sp, used := StackPointer(size), FrameBytes(argc, envc, args, envs);
            && Topmost(sp, size) && STACK_TOP - STACK_SIZE <= sp
            && used <= size < used + 16 && TableBytes(argc, envc) + args + envs + 16 == used
  {
    RoundedIsTopmost(FrameSize(argc, envc, args, envs));
    hide Topmost;
  }

  /** Highest for `used` bytes, in units of sixteen below the top. */
  lemma UnitsBelow(n: nat, used: nat)
    requires STACK_TOP >= 16 * n >= used
    ensures Topmost(STACK_TOP - 16 * n, used) <==> 16 * n < used + 16
  {
    assert STACK_TOP == 16 * 0x7ff_ffff_ff00;
    if 16 * n >= used + 16 { assert (STACK_TOP - 16 * n + 16) % 16 == 0; }
  }

  /** The frame in units of sixteen: `n` of words and strings, an odd word, and `t` bytes of strings. */
  lemma FrameUnits(argc: nat, envc: nat, args: nat, envs: nat) returns (n: nat)
    requires FrameSize(argc, envc, args, envs) <= STACK_SIZE
    ensures var odd, t := (19 + argc + envc) % 2, (args + envs) % 16;
            && FrameBytes(argc, envc, args, envs) == 16 * n + 8 * odd + t
            && 16 * (n + odd + if t == 0 then 0 else 1) <= STACK_TOP
            && StackPointer(FrameSize(argc, envc, args, envs))
               == STACK_TOP - 16 * (n + odd + if t == 0 then 0 else 1)
  {
    var odd, t := (19 + argc + envc) % 2, (args + envs) % 16;
    n := (19 + argc + envc) / 2 + (args + envs + 16) / 16;
    assert STACK_TOP == 16 * 0x7ff_ffff_ff00;
    assert FrameSize(argc, envc, args, envs) == 16 * n + 8 * odd + if t == 0 then 0 else 16;
  }

  /**
    The stack pointer is the highest possible for what is written, too, except that an odd
    number of words is followed by a string section that ends in the first half of sixteen
    bytes: then rounding both parts up costs sixteen bytes.
   */
  lemma TopmostExact(argc: nat, envc: nat, args: nat, envs: nat)
    requires FrameSize(argc, envc, args, envs) <= STACK_SIZE
    ensures Topmost(StackPointer(FrameSize(argc, envc, args, envs)), FrameBytes(argc, envc, args, envs)) <==>
              ((argc + envc) % 2 == 0 ==> !(1 <= (args + envs) % 16 <= 8))
  {
    hide FrameSize, FrameBytes, StackPointer, Topmost;
    var n := FrameUnits(argc, envc, args, envs);
    var odd, t := (19 + argc + envc) % 2, (args + envs) % 16;
    UnitsBelow(n + odd + if t == 0 then 0 else 1, 16 * n + 8 * odd + t);
  }

  /** The frame as it stands in physical memory at `pb`, for a stack pointer `sp`. */
  ghost predicate Built(m: Mem, pb: nat, sp: nat, argv: seq<Str>, args: seq<Byte>, envp: seq<Str>, envs: seq<Byte>,
                        seed: seq<Byte>, port: nat)
  {
    var base := sp + TableBytes(|argv|, |envp|);
    && WordsAt(m, pb, FrameWords(argv, base, envp, base + |args|, base + |args| + |envs|, port))
    && Section(m, pb + TableBytes(|argv|, |envp|), args, envs, seed)
  }

  /** Write the whole frame, and nothing else. */
  method BuildFrame(m: Mem, pb: nat, sp: nat, argv: ExecStrBuf, envp: ExecStrBuf, seed: seq<Byte>, port: nat)
    returns (m': Mem)
    requires argv.Valid() && envp.Valid() && |seed| == 16 && port < W64
    requires sp + TableBytes(argv.count, envp.count) + argv.end + envp.end < W64
    ensures Within(m, m', pb, pb + TableBytes(argv.count, envp.count) + argv.end + envp.end + 16)
    ensures Built(m', pb, sp, argv.strings, argv.data[..argv.end], envp.strings, envp.data[..envp.end], seed, port)
  {
    hide AllPacked, Offset, WordsAt, Section, Within, FrameWords;
    var t := TableBytes(argv.count, envp.count);
    var m1 := PutTable(m, pb, sp + t, argv, envp, port);
    m' := PutSection(m1, pb + t, argv.data[..argv.end], envp.data[..envp.end], seed);
    WithinTrans(m, m1, m', pb, pb + t, pb + t + argv.end + envp.end + 16);
    ghost var base := sp + t;
    ghost var ws := FrameWords(argv.strings, base, envp.strings, base + argv.end, base + argv.end + envp.end, port);
    FrameWordsLength(argv.strings, base, envp.strings, base + argv.end, base + argv.end + envp.end, port);
    WordsKept(m1, m', pb, ws, pb + t + argv.end + envp.end + 16);
  }

  /** Whoever sees those bytes from `sp` on sees the initial process stack. */
  lemma FrameSeen(u: Mem, sp: nat, m: Mem, pb: nat, n: nat, argv: seq<Str>, dA: seq<Byte>, nA: nat, envp: seq<Str>,
                  dE: seq<Byte>, nE: nat, seed: seq<Byte>, port: nat)
    requires sp % 16 == 0 && sp > 0 && |seed| == 16
    requires AllPacked(dA, argv) && Offset(argv, |argv|) <= nA <= |dA|
    requires AllPacked(dE, envp) && Offset(envp, |envp|) <= nE <= |dE|
    requires Built(m, pb, sp, argv, dA[..nA], envp, dE[..nE], seed, port)
    requires Shows(u, sp, m, pb, n) && TableBytes(|argv|, |envp|) + nA + nE + 16 <= n
    ensures Frame(u, sp, argv, envp, seed, port)
  {
    hide AllPacked, Offset, WordsAt, Shows, Frame, FrameWords, Load;
    var t := TableBytes(|argv|, |envp|);
    var base := sp + t;
    FrameWordsLength(argv, base, envp, base + nA, base + nA + nE, port);
    ShownWords(u, sp, m, pb, n, FrameWords(argv, base, envp, base + nA, base + nA + nE, port));
    ShownLoad(u, sp, m, pb, n, t, nA);
    ShownLoad(u, sp, m, pb, n, t + nA, nE);
    ShownLoad(u, sp, m, pb, n, t + nA + nE, 16);
    FrameBuilt(u, sp, argv, dA, nA, envp, dE, nE, seed, port);
  }

  lemma FrameWordsLength(argv: seq<Str>, args: nat, envp: seq<Str>, envs: nat, random: nat, port: nat)
    ensures 8 * |FrameWords(argv, args, envp, envs, random, port)| == TableBytes(|argv|, |envp|)
  {
  }

  // --------------------------------------------------------- reading it back

  /** Skip a null-terminated table. */
  method SkipVector(u: Mem, table: nat, ghost ss: seq<Str>) returns (p: nat)
    requires Vector(u, table, ss)
    ensures p == table + 8 * |ss|
  {
    hide Load64, CString;
    p := table;
    ghost var i := 0;
    while Load64(u, p) != 0
      invariant i <= |ss| && p == table + 8 * i
      decreases |ss| - i
    {
      p, i := p + 8, i + 1;
    }
    assert i < |ss| ==> StringAt(u, table + 8 * i, ss[i]);
  }

  /** The values the shim caches. */
  datatype AuxCache = AuxCache(pageSize: nat, random: nat, vfsPort: nat)

  /** Parse the auxiliary vector: later entries win, unknown ones are skipped. */
  method ShimInit(u: Mem, auxv: nat, cache: AuxCache, ghost ws: seq<nat>) returns (c: AuxCache)
    requires WordsAt(u, auxv, ws) && |ws| >= 2 && |ws| % 2 == 0 && ws[|ws| - 2] == AT_NULL
    requires forall k :: 0 <= k < |ws| / 2 - 1 ==> ws[2 * k] != AT_NULL
    ensures c == Parsed(ws, cache)
  {
    hide Load64;
    c := cache;
    var p := auxv;
    ghost var k := 0;
    assert ws[2 * 0..] == ws;
    while true
      invariant 0 <= k < |ws| / 2 && p == auxv + 8 * (2 * k)
      invariant Parsed(ws[2 * k..], c) == Parsed(ws, cache)
      decreases |ws| - k
    {
      WordAt(u, auxv, ws, 2 * k);
      WordAt(u, auxv, ws, 2 * k + 1);
      var key, val := Load64(u, p), Load64(u, p + 8);
      if key == AT_NULL { break; }
      c := Cached(c, key, val);
      p := p + 16;
      assert ws[2 * k..][2..] == ws[2 * (k + 1)..];
      k := k + 1;
    }
    assert k == |ws| / 2 - 1;
  }

  /** The cache after one entry; the port is truncated to 32 bits. */
  function Cached(c: AuxCache, key: nat, val: nat): AuxCache
  {
    if key == AT_PAGESZ then c.(pageSize := val)
    else if key == AT_RANDOM then c.(random := val)
    else if key == AT_VFS_PORT then c.(vfsPort := val % 0x1_0000_0000)
    else c
  }

  /** The cache after the entries up to the null one. */
  function Parsed(ws: seq<nat>, c: AuxCache): AuxCache
    decreases |ws|
  {
    if |ws| < 2 || ws[0] == AT_NULL then c else Parsed(ws[2..], Cached(c, ws[0], ws[1]))
  }

  lemma ParsedStep(key: nat, val: nat, rest: seq<nat>, c: AuxCache)
    ensures Parsed([key, val] + rest, c) == if key == AT_NULL then c else Parsed(rest, Cached(c, key, val))
  {
    assert ([key, val] + rest)[2..] == rest;
  }

  lemma ParsedAuxv(random: nat, port: nat, c: AuxCache)
    ensures Parsed(Auxv(random, port), c) == AuxCache(4096, random, port % 0x1_0000_0000)
  {
    hide Parsed;
    var w0: seq<nat>, w1: seq<nat> := [AT_NULL, 0] + [], [AT_VFS_PORT, port] + [AT_NULL, 0];
    var c' := AuxCache(4096, random, c.vfsPort);
    ParsedStep(AT_NULL, 0, [], c'.(vfsPort := port % 0x1_0000_0000));
    ParsedStep(AT_VFS_PORT, port, w0, c');
    ParsedStep(14, 0, w1, c');
    ParsedStep(13, 0, [14, 0] + w1, c');
    ParsedStep(12, 0, [13, 0] + ([14, 0] + w1), c');
    ParsedStep(11, 0, [12, 0] + ([13, 0] + ([14, 0] + w1)), c');
    var w2 := [11, 0] + ([12, 0] + ([13, 0] + ([14, 0] + w1)));
    ParsedStep(AT_PAGESZ, 4096, w2, c.(random := random));
    ParsedStep(AT_RANDOM, random, [AT_PAGESZ, 4096] + w2, c);
    assert w0 == [AT_NULL, 0];
    assert Auxv(random, port) == [AT_RANDOM, random] + ([AT_PAGESZ, 4096] + w2);
  }

  /** What the libc shim finds on the initial stack. */
  method ShimInitFromSp(u: Mem, sp: nat, cache: AuxCache, ghost argv: seq<Str>, ghost envp: seq<Str>,
                        ghost seed: seq<Byte>, ghost port: nat)
    returns (c: AuxCache)
    requires Frame(u, sp, argv, envp, seed, port)
    ensures c.pageSize == 4096 && c.vfsPort == port % 0x1_0000_0000 && Load(u, c.random, 16) == seed
  {
    hide Vector, WordsAt, Load64, Load;
    var argc := Load64(u, sp);
    var p := SkipVector(u, sp + 8 * (1 + argc + 1), envp);
    ghost var r: nat :| WordsAt(u, p + 8, Auxv(r, port)) && Load(u, r, 16) == seed;
    AuxvEnds(r, port);
    c := ShimInit(u, p + 8, cache, Auxv(r, port));
    ParsedAuxv(r, port, cache);
  }

  lemma AuxvEnds(r: nat, port: nat)
    ensures var ws := Auxv(r, port);
            && |ws| == 16 && ws[14] == AT_NULL
            && forall k :: 0 <= k < 7 ==> ws[2 * k] != AT_NULL
  {
  }

  /** What `__libc_start_main` hands to `main`. */
  method LibcStart(u: Mem, sp: nat, ghost argv: seq<Str>, ghost envp: seq<Str>, ghost seed: seq<Byte>, ghost port: nat)
    returns (argc: nat, argvTable: nat, envpTable: nat, auxv: nat)
    requires Frame(u, sp, argv, envp, seed, port)
    ensures argc == |argv| && Vector(u, argvTable, argv) && Vector(u, envpTable, envp) && AuxVector(u, auxv, seed, port)
  {
    hide Vector, AuxVector, Load64;
    argc := Load64(u, sp);
    argvTable := sp + 8;
    envpTable := argvTable + 8 * (argc + 1);
    var ep := SkipVector(u, envpTable, envp);
    auxv := ep + 8;
    var _ := ParseAuxv(u, auxv, seed, port);
  }

  /** Walk the auxiliary vector to behind its null entry. */
  method ParseAuxv(u: Mem, auxv: nat, ghost seed: seq<Byte>, ghost port: nat) returns (av: nat)
    requires AuxVector(u, auxv, seed, port)
    ensures av == auxv + 8 * 16
  {
    hide WordsAt, Load64, Load;
    ghost var r: nat :| WordsAt(u, auxv, Auxv(r, port)) && Load(u, r, 16) == seed;
    ghost var ws, k := Auxv(r, port), 0;
    av := auxv;
    while true
      invariant 0 <= k < 8 && av == auxv + 8 * (2 * k)
      decreases 8 - k
    {
      WordAt(u, auxv, ws, 2 * k);
      var tag := Load64(u, av);
      av := av + 16;
      if tag == AT_NULL { break; }
      k := k + 1;
    }
  }
}
