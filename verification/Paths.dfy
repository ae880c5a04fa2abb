/**
  Path normalisation (resolve_path in kernel/src/syscall.rs): an in-place buffer that
  renders a stack of path components.
 */
module Paths {
  import opened Words

  type Name = seq<Byte>

  const SLASH: Byte := 47
  const DOT: Byte := 46
  const BUFFER := 256

  // --------------------------------------------------------------- the reference

  /** Where the first slash is, or the length. */
  function FirstSlash(s: seq<Byte>): (k: nat)
    ensures k <= |s| && SLASH !in s[..k] && (k < |s| ==> s[k] == SLASH)
  {
    if s == [] || s[0] == SLASH then 0 else 1 + FirstSlash(s[1..])
  }

  lemma {:induction false} FirstSlashUnique(s: seq<Byte>, k: nat)
    requires k <= |s| && SLASH !in s[..k] && (k < |s| ==> s[k] == SLASH)
    ensures FirstSlash(s) == k
  {
    if k > 0 {
      assert s[0] == s[..k][0];
      assert s[1..][..k - 1] == s[..k][1..];
      FirstSlashUnique(s[1..], k - 1);
    }
  }

  /** The parts between slashes; empty ones included. */
  function Components(s: seq<Byte>): (cs: seq<Name>)
    ensures |cs| > 0
    decreases |s|
  {
    var k := FirstSlash(s);
    if k == |s| then [s] else [s[..k]] + Components(s[k + 1..])
  }

  predicate IsName(c: Name)
  {
    c != [] && SLASH !in c && 0 !in c && c != [DOT] && c != [DOT, DOT]
  }

  /** A stack of proper names: where a canonical absolute path leads. */
  predicate Canonical(cs: seq<Name>)
  {
    forall i :: 0 <= i < |cs| ==> IsName(cs[i])
  }

  /** One component: nothing, one level up (never above the root), or one level down. */
  function Walk(cs: seq<Name>, c: Name): seq<Name>
  {
    if c == [] || c == [DOT] then cs
    else if c == [DOT, DOT] then if cs == [] then [] else cs[..|cs| - 1]
    else cs + [c]
  }

  function WalkAll(cs: seq<Name>, parts: seq<Name>): seq<Name>
    decreases |parts|
  {
    if parts == [] then cs else WalkAll(Walk(cs, parts[0]), parts[1..])
  }

  function Joined(cs: seq<Name>): seq<Byte>
  {
    if cs == [] then [] else Joined(cs[..|cs| - 1]) + [SLASH] + cs[|cs| - 1]
  }

  /** The absolute path of a stack. */
  function Render(cs: seq<Name>): (s: seq<Byte>)
    ensures |s| > 0
  {
    if cs == [] then [SLASH] else Joined(cs)
  }

  /** Every intermediate result fits the buffer. */
  predicate Fits(cs: seq<Name>, parts: seq<Name>)
    decreases |parts|
  {
    |Render(cs)| <= BUFFER && (parts != [] ==> Fits(Walk(cs, parts[0]), parts[1..]))
  }

  lemma WalkCanonical(cs: seq<Name>, c: Name)
    requires Canonical(cs) && SLASH !in c && 0 !in c
    ensures Canonical(Walk(cs, c))
  {
  }

  lemma {:induction false} WalkAllCanonical(cs: seq<Name>, parts: seq<Name>)
    requires Canonical(cs) && forall i :: 0 <= i < |parts| ==> SLASH !in parts[i] && 0 !in parts[i]
    ensures Canonical(WalkAll(cs, parts))
    decreases |parts|
  {
    if parts != [] {
      WalkCanonical(cs, parts[0]);
      WalkAllCanonical(Walk(cs, parts[0]), parts[1..]);
    }
  }

  lemma {:induction false} ComponentsClean(s: seq<Byte>)
    requires 0 !in s
    ensures forall i :: 0 <= i < |Components(s)| ==> SLASH !in Components(s)[i] && 0 !in Components(s)[i]
    decreases |s|
  {
    var k := FirstSlash(s);
    if k < |s| { ComponentsClean(s[k + 1..]); } else { assert s[..k] == s; }
  }

  // ------------------------------------------------------------- canonical paths

  /** Splitting after a name. */
  lemma ComponentsOf(c: Name, rest: seq<Byte>)
    requires SLASH !in c
    ensures Components(c) == [c]
    ensures Components(c + [SLASH] + rest) == [c] + Components(rest)
  {
    assert c[..|c|] == c;
    FirstSlashUnique(c, |c|);
    var s := c + [SLASH] + rest;
    assert s[..|c|] == c && s[|c|] == SLASH;
    FirstSlashUnique(s, |c|);
    assert s[|c| + 1..] == rest;
  }

  lemma {:induction false} JoinedFront(cs: seq<Name>)
    requires cs != []
    ensures Joined(cs) == [SLASH] + cs[0] + Joined(cs[1..])
    decreases |cs|
  {
    var n := |cs| - 1;
    JoinedLast(cs);
    hide Joined;
    if n == 0 {
      assert cs[..0] == [] && cs[1..] == [];
      RenderLength([]);
    } else {
      JoinedFront(cs[..n]);
      JoinedLast(cs[1..]);
      assert cs[..n][1..] == cs[1..][..n - 1] && cs[1..][n - 1] == cs[n] && cs[..n][0] == cs[0];
    }
  }

  lemma JoinedLast(cs: seq<Name>)
    requires cs != []
    ensures Joined(cs) == Joined(cs[..|cs| - 1]) + [SLASH] + cs[|cs| - 1]
  {
  }

  /** A rendered path splits into its components, after the empty one before the root. */
  lemma {:induction false} JoinedParts(cs: seq<Name>)
    requires Canonical(cs) && cs != []
    ensures Components(Joined(cs)) == [[]] + cs
    decreases |cs|
  {
    hide Components;
    JoinedFront(cs);
    var c, rest := cs[0], cs[1..];
    var tail := c + Joined(rest);
    ComponentsOf([], tail);
    assert [] + [SLASH] + tail == Joined(cs);
    if rest == [] {
      ComponentsOf(c, []);
      assert tail == c && cs == [c];
    } else {
      JoinedParts(rest);
      JoinedFront(rest);
      var inner := rest[0] + Joined(rest[1..]);
      assert Joined(rest) == [] + [SLASH] + inner;
      ComponentsOf([], inner);
      ComponentsOf(c, inner);
      assert tail == c + [SLASH] + inner;
      assert Components(inner) == rest by { assert ([[]] + rest)[1..] == ([[]] + Components(inner))[1..]; }
      assert cs == [c] + rest;
    }
  }

  lemma {:induction false} WalkNames(cs: seq<Name>, parts: seq<Name>)
    requires Canonical(parts)
    ensures WalkAll(cs, parts) == cs + parts
    decreases |parts|
  {
    if parts != [] {
      WalkNames(cs + [parts[0]], parts[1..]);
      assert cs + [parts[0]] + parts[1..] == cs + parts;
    }
  }

  /** Normalising a canonical path leads where it says: resolution is idempotent. */
  lemma Idempotent(cs: seq<Name>)
    requires Canonical(cs)
    ensures WalkAll([], Components(Render(cs))) == cs
  {
    if cs == [] {
      ComponentsOf([], []);
      ComponentsOf([], []);
      assert [] + [SLASH] + [] == Render(cs);
      assert Components([]) == [[]];
      RootWalk();
    } else {
      JoinedParts(cs);
      assert ([[]] + cs)[1..] == cs;
      WalkNames([], cs);
      assert [] + cs == cs;
    }
  }

  lemma RootWalk()
    ensures WalkAll([], [[], []]) == []
  {
    var two: seq<Name>, one: seq<Name> := [[], []], [[]];
    assert two[1..] == one && one[1..] == [];
    assert WalkAll([], one) == [];
  }

  /** The rendering is absolute, and has no trailing slash except for the root. */
  lemma RenderShape(cs: seq<Name>)
    requires Canonical(cs)
    ensures Render(cs)[0] == SLASH && (|Render(cs)| > 1 ==> Render(cs)[|Render(cs)| - 1] != SLASH)
  {
    if cs != [] {
      JoinedFront(cs);
      var c := cs[|cs| - 1];
      assert Joined(cs)[|Joined(cs)| - 1] == c[|c| - 1];
    }
  }

  /** Different stacks have different paths. */
  lemma RenderInjective(cs: seq<Name>, ds: seq<Name>)
    requires Canonical(cs) && Canonical(ds) && Render(cs) == Render(ds)
    ensures cs == ds
  {
    Idempotent(cs);
    Idempotent(ds);
  }

  // ------------------------------------------------------------------- the buffer

  /** The last slash at or before `k`, or 0. */
  function LastSlashFrom(s: seq<Byte>, k: nat): (r: nat)
    requires k < |s|
    ensures r <= k && (r > 0 ==> s[r] == SLASH) && forall i :: r < i <= k ==> s[i] != SLASH
  {
    if k == 0 || s[k] == SLASH then k else LastSlashFrom(s, k - 1)
  }

  /** "..": the buffer cut back to before its last slash. */
  function CutBack(s: seq<Byte>): (r: seq<Byte>)
    ensures |r| <= |s| && (s != [] ==> r != [])
  {
    if |s| <= 1 then s else
      var k := LastSlashFrom(s, |s| - 1);
      if k == 0 then s[..1] else s[..k]
  }

  /** A name: appended after a slash, as far as either fits. */
  function Appended(s: seq<Byte>, c: Name): (r: seq<Byte>)
    requires |s| <= BUFFER
    ensures |s| <= |r| <= BUFFER
  {
    var t := if |s| > 1 && s[|s| - 1] != SLASH && |s| < BUFFER - 1 then s + [SLASH] else s;
    t + c[..if |c| < BUFFER - |t| then |c| else BUFFER - |t|]
  }

  function StepBytes(s: seq<Byte>, c: Name): (r: seq<Byte>)
    requires |s| <= BUFFER
    ensures |r| <= BUFFER && (s != [] ==> r != [])
  {
    if c == [] || c == [DOT] then s else if c == [DOT, DOT] then CutBack(s) else Appended(s, c)
  }

  function StepAll(s: seq<Byte>, parts: seq<Name>): (r: seq<Byte>)
    requires |s| <= BUFFER
    ensures |r| <= BUFFER && (s != [] ==> r != [])
    decreases |parts|
  {
    if parts == [] then s else StepAll(StepBytes(s, parts[0]), parts[1..])
  }

  /** Without a trailing slash, except for the root. */
  function Stripped(s: seq<Byte>): seq<Byte>
  {
    if |s| > 1 && s[|s| - 1] == SLASH then s[..|s| - 1] else s
  }

  /** The path up to a terminating zero, if there is one. */
  function UpToNul(s: seq<Byte>): (r: seq<Byte>)
    ensures r <= s && 0 !in r && (|r| < |s| ==> s[|r|] == 0)
  {
    if s == [] || s[0] == 0 then [] else [s[0]] + UpToNul(s[1..])
  }

  /** Where resolution starts: at the root, or in the working directory. */
  function Start(path: seq<Byte>, cwd: seq<Name>): seq<Name>
  {
    if UpToNul(path) != [] && UpToNul(path)[0] == SLASH then [] else cwd
  }

  /** What the buffer holds first: the root, or what there is of the working directory. */
  function StartBytes(path: seq<Byte>, cwd: seq<Byte>): (s: seq<Byte>)
    ensures 0 < |s| < BUFFER
  {
    if cwd == [] || (UpToNul(path) != [] && UpToNul(path)[0] == SLASH) then [SLASH]
    else cwd[..if |cwd| < BUFFER - 1 then |cwd| else BUFFER - 1]
  }

  /** The answer for any path and any working directory. */
  function Resolved(path: seq<Byte>, cwd: seq<Byte>): seq<Byte>
  {
    Stripped(StepAll(StartBytes(path, cwd), Components(UpToNul(path))))
  }

  // ------------------------------------------------------- the algorithm in place

  method Up(b: array<Byte>, len: nat) returns (len': nat)
    requires 0 < len <= b.Length
    ensures len' <= b.Length && b[..len'] == CutBack(b[..len])
  {
    len' := len;
    if len > 1 {
      ghost var s := b[..len];
      var last := len - 1;
      while last > 0 && b[last] != SLASH
        invariant last < len && LastSlashFrom(s, last) == LastSlashFrom(s, len - 1)
      {
        last := last - 1;
      }
      len' := if last == 0 then 1 else last;
      assert b[..len'] == s[..len'];
    }
  }

  method Down(b: array<Byte>, len: nat, c: Name) returns (len': nat)
    requires b.Length == BUFFER && 0 < len <= BUFFER
    modifies b
    ensures len' <= BUFFER && b[..len'] == Appended(old(b[..len]), c)
  {
    len' := len;
    ghost var s := b[..len];
    if len > 1 && b[len - 1] != SLASH && len < BUFFER - 1 {
      b[len] := SLASH;
      len' := len + 1;
      assert b[..len'] == s + [SLASH];
    }
    var copy := if |c| < BUFFER - len' then |c| else BUFFER - len';
    ghost var t := b[..len'];
    for i := 0 to copy
      invariant b[..len' + i] == t + c[..i]
    {
      b[len' + i] := c[i];
      assert c[..i + 1] == c[..i] + [c[i]];
      assert b[..len' + (i + 1)] == b[..len' + i] + [c[i]];
    }
    len' := len' + copy;
  }

  /** Process one component. */
  method Apply(b: array<Byte>, len: nat, c: Name) returns (len': nat)
    requires b.Length == BUFFER && 0 < len <= BUFFER
    modifies b
    ensures 0 < len' <= BUFFER && b[..len'] == StepBytes(old(b[..len]), c)
  {
    hide CutBack, Appended;
    if c == [] || c == [DOT] { return len; }
    if c == [DOT, DOT] {
      len' := Up(b, len);
    } else {
      len' := Down(b, len, c);
    }
  }

  /** Fill the buffer with the working directory, or the root if there is none. */
  method Load(b: array<Byte>, cwd: seq<Byte>) returns (len: nat)
    requires b.Length == BUFFER
    modifies b
    ensures 0 < len < BUFFER
    ensures b[..len] == if cwd == [] then [SLASH] else cwd[..if |cwd| < BUFFER - 1 then |cwd| else BUFFER - 1]
  {
    if cwd == [] {
      b[0] := SLASH;
      assert b[..1] == [SLASH];
      return 1;
    }
    len := if |cwd| < BUFFER - 1 then |cwd| else BUFFER - 1;
    for i := 0 to len
      invariant b[..i] == cwd[..i]
    {
      b[i] := cwd[i];
      assert b[..i + 1] == b[..i] + [cwd[i]] && cwd[..i + 1] == cwd[..i] + [cwd[i]];
    }
  }

  /**
    Resolve a path against a working directory: the buffer ends up with the bytes that
    stepping through the components prescribes, whatever does not fit is cut off.
   */
  method ResolvePath(path: seq<Byte>, cwd: seq<Byte>) returns (out: seq<Byte>)
    ensures out == Resolved(path, cwd)
  {
    hide StepAll, StepBytes, Components, UpToNul, FirstSlash;
    var p := UpToNul(path);
    var b := new Byte[BUFFER](_ => 0);
    var len: nat := 1;
    if p == [] || p[0] != SLASH {
      len := Load(b, cwd);
    } else {
      b[0] := SLASH;
      assert b[..1] == [SLASH];
    }
    assert b[..len] == StartBytes(path, cwd);
    ghost var goal := StepAll(b[..len], Components(p));
    var i := 0;
    assert p[0..] == p;
    while i <= |p|
      invariant i <= |p| + 1 && 0 < len <= BUFFER
      invariant if i <= |p| then StepAll(b[..len], Components(p[i..])) == goal else b[..len] == goal
      decreases |p| + 1 - i
    {
      var k := FirstSlash(p[i..]);
      NextComponent(b[..len], p, i);
      len := Apply(b, len, p[i..][..k]);
      i := i + k + 1;
    }
    assert b[..len][len - 1] == b[len - 1];
    if len > 1 && b[len - 1] == SLASH {
      assert b[..len - 1] == goal[..len - 1];
      len := len - 1;
    }
    out := b[..len];
  }

  /** The component at position `i` is the next step. */
  lemma NextComponent(s: seq<Byte>, p: seq<Byte>, i: nat)
    requires i <= |p| && |s| <= BUFFER
    ensures var k := FirstSlash(p[i..]); var s' := StepBytes(s, p[i..][..k]);
            && i + k <= |p|
            && (i + k == |p| ==> StepAll(s, Components(p[i..])) == s')
            && (i + k < |p| ==> StepAll(s, Components(p[i..])) == StepAll(s', Components(p[i + k + 1..])))
  {
    hide StepBytes, StepAll, Components, FirstSlash;
    var r := p[i..];
    var k := FirstSlash(r);
    if k < |r| {
      assert r[k + 1..] == p[i + k + 1..];
      StepInner(s, r);
    } else {
      StepLast(s, r);
    }
  }

  lemma StepInner(s: seq<Byte>, r: seq<Byte>)
    requires |s| <= BUFFER && FirstSlash(r) < |r|
    ensures var k := FirstSlash(r); StepAll(s, Components(r)) == StepAll(StepBytes(s, r[..k]), Components(r[k + 1..]))
  {
    hide StepBytes, StepAll, FirstSlash;
    var k := FirstSlash(r);
    assert Components(r) == [r[..k]] + Components(r[k + 1..]);
    hide Components;
    StepFirst(s, r[..k], Components(r[k + 1..]));
  }

  lemma StepLast(s: seq<Byte>, r: seq<Byte>)
    requires |s| <= BUFFER && FirstSlash(r) == |r|
    ensures StepAll(s, Components(r)) == StepBytes(s, r[..|r|])
  {
    hide StepBytes, StepAll, FirstSlash;
    assert r[..|r|] == r && [r] + [] == [r];
    StepFirst(s, r, []);
  }

  lemma StepFirst(s: seq<Byte>, c: Name, rest: seq<Name>)
    requires |s| <= BUFFER
    ensures StepAll(s, [c] + rest) == StepAll(StepBytes(s, c), rest)
    ensures rest == [] ==> StepAll(s, [c] + rest) == StepBytes(s, c)
  {
    hide StepBytes;
    assert ([c] + rest)[1..] == rest;
  }

  // ------------------------------------------------- what the bytes stand for

  lemma PushJoined(cs: seq<Name>, c: Name)
    ensures Render(cs + [c]) == Joined(cs) + [SLASH] + c
  {
    assert (cs + [c])[..|cs|] == cs;
  }

  /** Where the last component of a path starts. */
  lemma LastSlash(cs: seq<Name>)
    requires Canonical(cs) && cs != []
    ensures var k := |Joined(cs[..|cs| - 1])|; var r := Render(cs);
            && k < |r| && r[k] == SLASH && SLASH !in r[k + 1..] && r[..k] == Joined(cs[..|cs| - 1]) && |r| > 1
  {
    var pre, c := cs[..|cs| - 1], cs[|cs| - 1];
    var k := |Joined(pre)|;
    assert Render(cs) == Joined(pre) + [SLASH] + c;
    assert Render(cs)[k + 1..] == c;
  }

  lemma RenderRoot()
    ensures Render([]) == [SLASH]
  {
  }

  lemma JoinedEmpty(cs: seq<Name>)
    ensures Joined(cs) == [] <==> cs == []
  {
  }

  lemma RenderLength(cs: seq<Name>)
    ensures cs != [] ==> Render(cs) == Joined(cs)
    ensures cs == [] ==> Joined(cs) == []
  {
  }

  lemma {:induction false} LastSlashUnique(s: seq<Byte>, k: nat, r: nat)
    requires r <= k < |s| && s[r] == SLASH && forall i :: r < i <= k ==> s[i] != SLASH
    ensures LastSlashFrom(s, k) == r
  {
    if r < k { LastSlashUnique(s, k - 1, r); }
  }

  /** Cutting a path back goes one level up. */
  lemma CutIsUp(cs: seq<Name>)
    requires Canonical(cs)
    ensures CutBack(Render(cs)) == Render(Walk(cs, [DOT, DOT])) && |Render(Walk(cs, [DOT, DOT]))| <= |Render(cs)|
  {
    hide Render, Joined;
    RenderRoot();
    if cs != [] {
      var pre, r := cs[..|cs| - 1], Render(cs);
      var k := |Joined(pre)|;
      LastSlash(cs);
      forall i | k < i < |r| ensures r[i] != SLASH { assert r[i] == r[k + 1..][i - (k + 1)]; }
      LastSlashUnique(r, |r| - 1, k);
      RenderShape(cs);
      JoinedEmpty(pre);
      RenderLength(pre);
    }
  }

  /** Appending a name goes one level down, exactly when it fits. */
  lemma AppendIsDown(cs: seq<Name>, c: Name)
    requires Canonical(cs) && IsName(c) && |Render(cs)| <= BUFFER
    ensures Appended(Render(cs), c) == Render(cs + [c]) <==> |Render(cs + [c])| <= BUFFER
    ensures |Render(cs)| <= |Render(cs + [c])|
  {
    hide Render, Joined;
    RenderShape(cs);
    RenderRoot();
    PushJoined(cs, c);
    RenderLength(cs);
    var s := Render(cs);
    assert cs != [] ==> |s| > 1 by { if cs != [] { LastSlash(cs); } }
    assert c[..|c|] == c;
  }

  /** One component is walked faithfully exactly when the result fits. */
  lemma StepIsWalk(cs: seq<Name>, c: Name)
    requires Canonical(cs) && SLASH !in c && 0 !in c && |Render(cs)| <= BUFFER
    ensures StepBytes(Render(cs), c) == Render(Walk(cs, c)) <==> |Render(Walk(cs, c))| <= BUFFER
    ensures c != [DOT, DOT] ==> |Render(cs)| <= |Render(Walk(cs, c))|
  {
    hide Render, CutBack, Appended;
    if c == [DOT, DOT] {
      CutIsUp(cs);
    } else if c != [] && c != [DOT] {
      AppendIsDown(cs, c);
    }
  }

  /** Components of a path without a terminating zero. */
  predicate Clean(parts: seq<Name>)
  {
    forall i :: 0 <= i < |parts| ==> SLASH !in parts[i] && 0 !in parts[i]
  }

  lemma {:induction false} StepsAreWalk(cs: seq<Name>, parts: seq<Name>)
    requires Canonical(cs) && Clean(parts) && Fits(cs, parts)
    ensures StepAll(Render(cs), parts) == Render(WalkAll(cs, parts))
    decreases |parts|
  {
    hide Render, StepBytes, Walk;
    if parts != [] {
      StepIsWalk(cs, parts[0]);
      WalkCanonical(cs, parts[0]);
      StepsAreWalk(Walk(cs, parts[0]), parts[1..]);
    }
  }

  /** Without ".." paths only grow, so that all of it fits if the end does. */
  lemma {:induction false} FitsAtTheEnd(cs: seq<Name>, parts: seq<Name>)
    requires Canonical(cs) && Clean(parts) && [DOT, DOT] !in parts && |Render(WalkAll(cs, parts))| <= BUFFER
    ensures Fits(cs, parts) && |Render(cs)| <= |Render(WalkAll(cs, parts))|
    decreases |parts|
  {
    hide Render, Walk;
    if parts != [] {
      WalkCanonical(cs, parts[0]);
      FitsAtTheEnd(Walk(cs, parts[0]), parts[1..]);
      Grows(cs, parts[0]);
    }
  }

  lemma Grows(cs: seq<Name>, c: Name)
    requires Canonical(cs) && SLASH !in c && 0 !in c && c != [DOT, DOT]
    ensures |Render(cs)| <= |Render(Walk(cs, c))|
  {
    hide Render, Joined;
    if c != [] && c != [DOT] {
      PushJoined(cs, c);
      RenderLength(cs);
      RenderRoot();
    }
  }

  /** The working directory is the path of the stack `dir`. */
  ghost predicate Cwd(cwd: seq<Byte>, dir: seq<Name>)
  {
    Canonical(dir) && |cwd| < BUFFER && if cwd == [] then dir == [] else cwd == Render(dir)
  }

  lemma StartIsDir(path: seq<Byte>, cwd: seq<Byte>, dir: seq<Name>)
    requires Cwd(cwd, dir)
    ensures StartBytes(path, cwd) == Render(Start(path, dir)) && Canonical(Start(path, dir))
  {
    hide UpToNul;
    assert cwd[..|cwd|] == cwd;
  }

  /** The path of the stack that walking the components of `path` from `dir` reaches. */
  function Destination(path: seq<Byte>, dir: seq<Name>): seq<Name>
  {
    WalkAll(Start(path, dir), Components(UpToNul(path)))
  }

  /** As long as every intermediate path fits, the answer is the path of the destination. */
  lemma ResolvedIsWalk(path: seq<Byte>, cwd: seq<Byte>, dir: seq<Name>)
    requires Cwd(cwd, dir) && Fits(Start(path, dir), Components(UpToNul(path)))
    ensures Resolved(path, cwd) == Render(Destination(path, dir))
  {
    hide Render, StepAll, WalkAll, Components, Fits, Start, UpToNul, StartBytes;
    StartIsDir(path, cwd, dir);
    ComponentsClean(UpToNul(path));
    StepsAreWalk(Start(path, dir), Components(UpToNul(path)));
    ResolvedCanonical(path, dir);
    RenderShape(Destination(path, dir));
  }

  /** Without "..", the answer is right exactly when the right answer fits. */
  lemma ResolvedExact(path: seq<Byte>, cwd: seq<Byte>, dir: seq<Name>)
    requires Cwd(cwd, dir) && [DOT, DOT] !in Components(UpToNul(path))
    ensures Resolved(path, cwd) == Render(Destination(path, dir)) <==> |Render(Destination(path, dir))| <= BUFFER
  {
    hide Render, StepAll, WalkAll, Components, Fits, Start, UpToNul, StartBytes;
    StartIsDir(path, cwd, dir);
    ComponentsClean(UpToNul(path));
    if |Render(Destination(path, dir))| <= BUFFER {
      FitsAtTheEnd(Start(path, dir), Components(UpToNul(path)));
      ResolvedIsWalk(path, cwd, dir);
    }
  }

  /** The result of resolving anything is canonical: absolute, without empty, dot or dot-dot parts. */
  lemma ResolvedCanonical(path: seq<Byte>, dir: seq<Name>)
    requires Canonical(dir)
    ensures Canonical(Destination(path, dir))
  {
    ComponentsClean(UpToNul(path));
    WalkAllCanonical(Start(path, dir), Components(UpToNul(path)));
  }

  lemma {:induction false} JoinedNoNul(cs: seq<Name>)
    requires Canonical(cs)
    ensures 0 !in Joined(cs)
  {
    if cs != [] { JoinedNoNul(cs[..|cs| - 1]); }
  }

  lemma {:induction false} NoNulWhole(s: seq<Byte>)
    requires 0 !in s
    ensures UpToNul(s) == s
  {
    if s != [] { NoNulWhole(s[1..]); }
  }

  /** Resolving the result of a resolution, from any directory, gives it back. */
  lemma ResolveTwice(path: seq<Byte>, dir: seq<Name>, dir': seq<Name>)
    requires Canonical(dir)
    ensures var cs := Destination(path, dir); Destination(Render(cs), dir') == cs
  {
    var cs := Destination(path, dir);
    ResolvedCanonical(path, dir);
    JoinedNoNul(cs);
    hide WalkAll, Components;
    NoNulWhole(Render(cs));
    RenderShape(cs);
    Idempotent(cs);
  }

  // ---------------------------------------------------------- relative paths

  lemma {:induction false} WalkTwice(cs: seq<Name>, a: seq<Name>, b: seq<Name>)
    ensures WalkAll(cs, a + b) == WalkAll(WalkAll(cs, a), b)
    ensures Fits(cs, a + b) <==> Fits(cs, a) && Fits(WalkAll(cs, a), b)
    decreases |a|
  {
    hide Render, Walk;
    if a == [] {
      assert a + b == b;
    } else {
      WalkTwice(Walk(cs, a[0]), a[1..], b);
      assert (a + b)[1..] == a[1..] + b;
    }
  }

  /** A slash separates components. */
  lemma {:induction false} ComponentsSplit(s: seq<Byte>, t: seq<Byte>)
    ensures Components(s + [SLASH] + t) == Components(s) + Components(t)
    decreases |s|
  {
    hide Components;
    var k := FirstSlash(s);
    if k == |s| {
      ComponentsOf(s, t);
      ComponentsOf(s, []);
    } else {
      var rest := s[k + 1..];
      ComponentsSplit(rest, t);
      ComponentsOf(s[..k], rest);
      ComponentsOf(s[..k], rest + [SLASH] + t);
      assert s == s[..k] + [SLASH] + rest;
      assert s + [SLASH] + t == s[..k] + [SLASH] + (rest + [SLASH] + t);
      assert [s[..k]] + (Components(rest) + Components(t)) == [s[..k]] + Components(rest) + Components(t);
    }
  }

  lemma NulFirst(c: Byte, t: seq<Byte>)
    requires c != 0
    ensures UpToNul([c] + t) == [c] + UpToNul(t)
  {
    assert ([c] + t)[1..] == t;
  }

  lemma {:induction false} NulAfter(s: seq<Byte>, t: seq<Byte>)
    requires 0 !in s
    ensures UpToNul(s + t) == s + UpToNul(t)
  {
    hide UpToNul;
    if s == [] {
      assert s + t == t;
    } else {
      var c, rest := s[0], s[1..];
      NulAfter(rest, t);
      NulFirst(c, rest + t);
      assert s + t == [c] + (rest + t) && s + UpToNul(t) == [c] + (rest + UpToNul(t));
    }
  }

  /** Walking down a canonical path from the root never overflows if its end fits. */
  lemma RenderFits(dir: seq<Name>)
    requires Canonical(dir) && |Render(dir)| <= BUFFER
    ensures Fits([], Components(Render(dir)))
  {
    hide Fits, Components, WalkAll;
    Idempotent(dir);
    JoinedNoNul(dir);
    NoNulWhole(Render(dir));
    ComponentsClean(Render(dir));
    if dir == [] {
      ComponentsOf([], []);
      assert [] + [SLASH] + [] == Render(dir);
    } else {
      JoinedParts(dir);
    }
    FitsAtTheEnd([], Components(Render(dir)));
  }

  /**
    A relative path leads from the directory `dir` where the path of `dir`, a slash and
    the relative path lead from anywhere, as long as it fits.
   */
  lemma RelativeIsJoined(path: seq<Byte>, dir: seq<Name>, cwd: seq<Byte>, dir': seq<Name>)
    requires Cwd(Render(dir), dir) && Cwd(cwd, dir') && UpToNul(path) != [] && UpToNul(path)[0] != SLASH
    requires Fits(dir, Components(UpToNul(path)))
    ensures Resolved(path, Render(dir)) == Resolved(Render(dir) + [SLASH] + path, cwd)
  {
    hide WalkAll, Components, Fits, Resolved, UpToNul;
    var p, whole := UpToNul(path), Render(dir) + [SLASH] + path;
    JoinedNoNul(dir);
    NulAfter(Render(dir) + [SLASH], path);
    RenderShape(dir);
    ComponentsSplit(Render(dir), p);
    assert UpToNul(whole) == Render(dir) + [SLASH] + p && UpToNul(whole)[0] == SLASH;
    RenderFits(dir);
    Idempotent(dir);
    WalkTwice([], Components(Render(dir)), Components(p));
    ResolvedIsWalk(path, Render(dir), dir);
    ResolvedIsWalk(whole, cwd, dir');
  }

  // ---------------------------------------------------------- a path cut short

  /** A name of 252 bytes, and a name that starts with two dots. */
  const LONG: Name := seq(252, _ => 97)
  const DOTS: Name := [DOT, DOT, 120]
  const CUT: seq<Byte> := [SLASH] + LONG + [SLASH] + DOTS

  lemma CutParts()
    ensures Components(CUT) == [[], LONG, DOTS] && UpToNul(CUT) == CUT
  {
    hide Components, UpToNul;
    ComponentsOf([], LONG + [SLASH] + DOTS);
    ComponentsOf(LONG, DOTS);
    ComponentsOf(DOTS, []);
    assert [] + [SLASH] + (LONG + [SLASH] + DOTS) == CUT;
    NoNulWhole(CUT);
  }

  /** A name cut off at the end of the buffer may become "..": the answer is not canonical. */
  lemma CutToDots()
    ensures Resolved(CUT, []) == [SLASH] + LONG + [SLASH, DOT, DOT]
    ensures Components(Resolved(CUT, [])) == [[], LONG, [DOT, DOT]]
    ensures Resolved(Resolved(CUT, []), []) == [SLASH]
  {
    CutParts();
    hide Components, UpToNul;
    var s1 := [SLASH] + LONG;
    var out := s1 + [SLASH, DOT, DOT];
    StepThree([SLASH], [], LONG, DOTS);
    assert StepBytes([SLASH], LONG) == s1 by { assert LONG[..252] == LONG; }
    assert s1 + [SLASH] + DOTS[..2] == out;
    assert StepBytes(s1, DOTS) == out;
    ComponentsOf([], LONG + [SLASH] + [DOT, DOT]);
    ComponentsOf(LONG, [DOT, DOT]);
    ComponentsOf([DOT, DOT], []);
    assert [] + [SLASH] + (LONG + [SLASH] + [DOT, DOT]) == out;
    NoNulWhole(out);
    StepThree([SLASH], [], LONG, [DOT, DOT]);
    LastSlashUnique(s1, 252, 0);
  }

  lemma StepThree(s: seq<Byte>, a: Name, b: Name, c: Name)
    requires |s| <= BUFFER
    ensures StepAll(s, [a, b, c]) == StepBytes(StepBytes(StepBytes(s, a), b), c)
  {
    hide StepBytes;
    StepFirst(s, a, [b, c]);
    StepFirst(StepBytes(s, a), b, [c]);
    StepFirst(StepBytes(StepBytes(s, a), b), c, []);
    assert [a] + [b, c] == [a, b, c] && [b] + [c] == [b, c] && [c] + [] == [c];
  }
}
