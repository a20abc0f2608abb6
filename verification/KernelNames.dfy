/** Kernel package names: which packages are headers packages, and what their kernel is called
    (crates/cachyos-kernel-manager-core/src/kernel.rs). */
module KernelNames {
  import opened Text

  const LINUX := "linux"
  const HEADERS := "-headers"

  // ---------- the search needle ----------

  /** The fragment of POSIX regular expressions the needle uses, with its textbook language. */
  datatype Regex =
    | Literal(text: string)
    | AnyBut(c: char)
    | Star(inner: Regex)
    | Then(first: Regex, second: Regex)
  {
    ghost predicate Accepts(s: string)
      decreases this, |s|
    {
      match this
      case Literal(t) => s == t
      case AnyBut(c) => |s| == 1 && s[0] != c
      case Star(r) =>
        s == "" || exists k | 0 < k <= |s| :: r.Accepts(s[..k]) && Accepts(s[k..])
      case Then(a, b) =>
        exists k | 0 <= k <= |s| :: a.Accepts(s[..k]) && b.Accepts(s[k..])
    }

    /** Unanchored search: some substring is accepted. */
    ghost predicate FoundIn(s: string) {
      exists i, j | 0 <= i <= j <= |s| :: Accepts(s[i..j])
    }
  }

  /** `linux[^ ]*-headers` */
  const NEEDLE: Regex := Then(Literal(LINUX), Then(Star(AnyBut(' ')), Literal(HEADERS)))

  lemma {:induction false} StarAnyButAccepts(c: char, s: string)
    ensures Star(AnyBut(c)).Accepts(s) <==> c !in s
  {
    var star := Star(AnyBut(c));
    if s != "" {
      StarAnyButAccepts(c, s[1..]);
      if c !in s {
        assert AnyBut(c).Accepts(s[..1]) && star.Accepts(s[1..]);
      }
      if star.Accepts(s) {
        var k :| 0 < k <= |s| && AnyBut(c).Accepts(s[..k]) && star.Accepts(s[k..]);
        assert k == 1 && s[..1][0] != c;
      }
    }
  }

  /** A match of the needle that starts at `i`, in terms of positions: some "-headers" at `j`
      with no space between it and the "linux" at `i`. */
  ghost predicate MatchAt(s: string, i: nat, j: nat) {
    i + |LINUX| <= j && OccursAt(s, LINUX, i) && OccursAt(s, HEADERS, j) && ' ' !in s[i + |LINUX|..j]
  }

  lemma {:induction false} MatchAtAccepts(s: string, i: nat, j: nat)
    requires MatchAt(s, i, j)
    ensures NEEDLE.FoundIn(s)
  {
    var e := j + |HEADERS|;
    var t := s[i..e];
    var u := t[|LINUX|..];
    var gap := j - i - |LINUX|;
    assert u[..gap] == s[i + |LINUX|..j];
    StarAnyButAccepts(' ', u[..gap]);
    assert u[gap..] == s[j..e] == HEADERS;
    assert NEEDLE.second.Accepts(u);
    assert t[..|LINUX|] == s[i..i + |LINUX|] == LINUX;
    assert NEEDLE.first.Accepts(t[..|LINUX|]) && NEEDLE.second.Accepts(t[|LINUX|..]);
  }

  lemma {:induction false} ThenSplits(a: Regex, b: Regex, s: string) returns (k: nat)
    requires Then(a, b).Accepts(s)
    ensures k <= |s| && a.Accepts(s[..k]) && b.Accepts(s[k..])
  {
    k :| 0 <= k <= |s| && a.Accepts(s[..k]) && b.Accepts(s[k..]);
  }

  lemma {:induction false} LiteralAccepts(text: string, s: string)
    ensures Literal(text).Accepts(s) <==> s == text
  {
  }

  /** A word, then anything without `c`, then another word. */
  lemma {:induction false} GapLanguage(first: string, c: char, last: string, t: string) returns (gap: string)
    requires Then(Literal(first), Then(Star(AnyBut(c)), Literal(last))).Accepts(t)
    ensures t == first + gap + last && c !in gap
  {
    hide Regex.Accepts;
    var k := ThenSplits(Literal(first), Then(Star(AnyBut(c)), Literal(last)), t);
    var u := t[k..];
    var g := ThenSplits(Star(AnyBut(c)), Literal(last), u);
    gap := u[..g];
    LiteralAccepts(first, t[..k]);
    LiteralAccepts(last, u[g..]);
    StarAnyButAccepts(c, gap);
    CutTwice(t, k, g);
  }

  lemma CutTwice(t: string, k: nat, g: nat)
    requires k <= |t| && g <= |t| - k
    ensures t == t[..k] + t[k..][..g] + t[k..][g..]
  {
  }

  lemma ThreeParts(s: string, i: nat, e: nat, a: string, b: string, c: string)
    requires i <= e <= |s| && s[i..e] == a + b + c
    ensures e == i + |a| + |b| + |c|
    ensures s[i..i + |a|] == a && s[i + |a|..i + |a| + |b|] == b && s[i + |a| + |b|..e] == c
  {
    var t := s[i..e];
    forall k | 0 <= k < |a| ensures s[i + k] == a[k] {
      assert t[k] == a[k];
    }
    forall k | 0 <= k < |b| ensures s[i + |a| + k] == b[k] {
      assert t[|a| + k] == b[k];
    }
    forall k | 0 <= k < |c| ensures s[i + |a| + |b| + k] == c[k] {
      assert t[|a| + |b| + k] == c[k];
    }
    OccursAtMeans(s, a, i);
    OccursAtMeans(s, b, i + |a|);
    OccursAtMeans(s, c, i + |a| + |b|);
  }

  lemma {:induction false} AcceptedIsMatchAt(s: string, i: nat, e: nat) returns (j: nat)
    requires i <= e <= |s| && NEEDLE.Accepts(s[i..e])
    ensures MatchAt(s, i, j)
  {
    hide Regex.Accepts;
    var gap := GapLanguage(LINUX, ' ', HEADERS, s[i..e]);
    ThreeParts(s, i, e, LINUX, gap, HEADERS);
    j := i + |LINUX| + |gap|;
  }

  /** The scan tests only the first "-headers" after each "linux"; a later one cannot succeed
      where the first fails. */
  lemma {:induction false} FirstHeadersSuffices(s: string, i: nat, j: nat)
    requires MatchAt(s, i, j)
    ensures FindFrom(s, HEADERS, i + |LINUX|).Some?
    ensures MatchAt(s, i, FindFrom(s, HEADERS, i + |LINUX|).value)
  {
    var f := FindFrom(s, HEADERS, i + |LINUX|).value;
    assert s[i + |LINUX|..f] == s[i + |LINUX|..j][..f - i - |LINUX|];
  }

  method MatchesHeadersNeedle(name: string) returns (found: bool)
    ensures found <==> NEEDLE.FoundIn(name)
  {
    var i := 0;
    while i + |LINUX| <= |name|
      invariant forall h: nat, j: nat | h < i :: !MatchAt(name, h, j)
    {
      if OccursAt(name, LINUX, i) {
        var rel := FindFrom(name, HEADERS, i + |LINUX|);
        if rel.Some? && ' ' !in name[i + |LINUX|..rel.value] {
          MatchAtAccepts(name, i, rel.value);
          return true;
        }
      }
      forall j: nat ensures !MatchAt(name, i, j) {
        if MatchAt(name, i, j) {
          FirstHeadersSuffices(name, i, j);
        }
      }
      i := i + 1;
    }
    if NEEDLE.FoundIn(name) {
      ghost var h, e :| 0 <= h <= e <= |name| && NEEDLE.Accepts(name[h..e]);
      ghost var j := AcceptedIsMatchAt(name, h, e);
    }
    return false;
  }

  /** Excluded from discovery. */
  predicate IsApiHeaders(name: string) {
    FindFrom(name, "linux-api-headers", 0).Some?
  }

  lemma ApiHeadersExactly(name: string)
    ensures IsApiHeaders(name) <==> Contains(name, "linux-api-headers")
  {
    hide OccursAt;
  }

  /** The kernel of a headers package: one pass of `replace`. */
  function KernelHeadersName(headers: string): string {
    Replace(headers, HEADERS, "")
  }

  // ---------- deleting "-headers" until none is left ----------

  function Delete(s: string, p: string, i: nat): string
    requires i + |p| <= |s|
  {
    s[..i] + s[i + |p|..]
  }

  /** `s` becomes `t` by deleting occurrences of `p` at the positions of `path`, in turn. */
  ghost predicate Reduces(s: string, p: string, path: seq<nat>, t: string)
    decreases |path|
  {
    if path == [] then s == t
    else OccursAt(s, p, path[0]) && Reduces(Delete(s, p, path[0]), p, path[1..], t)
  }

  ghost predicate Irreducible(s: string, p: string) {
    forall i: nat :: !OccursAt(s, p, i)
  }

  /** Deleting first occurrences until none remains. */
  function StripAll(s: string, p: string): string
    requires p != ""
    decreases |s|
  {
    var i := FindFrom(s, p, 0);
    if i.None? then s else StripAll(Delete(s, p, i.value), p)
  }

  lemma {:induction false} StripAllReduces(s: string, p: string) returns (path: seq<nat>)
    requires p != ""
    ensures Reduces(s, p, path, StripAll(s, p))
    ensures Irreducible(StripAll(s, p), p)
    decreases |s|
  {
    var i := FindFrom(s, p, 0);
    if i.None? {
      path := [];
    } else {
      var rest := StripAllReduces(Delete(s, p, i.value), p);
      path := [i.value] + rest;
      assert path[1..] == rest;
    }
  }

  /** Two different deletions from the same string commute. */
  lemma {:induction false} Diamond(s: string, p: string, i: nat, j: nat)
    requires BorderFree(p) && i < j
    requires OccursAt(s, p, i) && OccursAt(s, p, j)
    ensures i + |p| <= j
    ensures OccursAt(Delete(s, p, i), p, j - |p|) && OccursAt(Delete(s, p, j), p, i)
    ensures Delete(Delete(s, p, i), p, j - |p|) == Delete(Delete(s, p, j), p, i)
  {
    NoOverlap(s, p, i, j);
    assert Delete(s, p, i)[j - |p|..j] == s[j..j + |p|];
    assert Delete(s, p, j)[i..i + |p|] == s[i..i + |p|];
    assert Delete(Delete(s, p, i), p, j - |p|) == s[..i] + s[i + |p|..j] + s[j + |p|..];
    assert Delete(Delete(s, p, j), p, i) == s[..i] + s[i + |p|..j] + s[j + |p|..];
  }

  lemma {:induction false} StripUnfolds(s: string, p: string, i: nat)
    requires p != "" && FindFrom(s, p, 0) == Some(i)
    ensures StripAll(s, p) == StripAll(Delete(s, p, i), p)
  {
  }

  /** Deleting any occurrence first does not change where stripping ends. */
  lemma {:induction false} AnyDeletionFirst(s: string, p: string, j: nat)
    requires p != "" && BorderFree(p) && OccursAt(s, p, j)
    ensures StripAll(s, p) == StripAll(Delete(s, p, j), p)
    decreases |s|
  {
    hide StripAll, FindFrom, BorderFree;
    var i := FindFrom(s, p, 0).value;
    StripUnfolds(s, p, i);
    if i < j {
      Diamond(s, p, i, j);
      AnyDeletionFirst(Delete(s, p, i), p, j - |p|);
      AnyDeletionFirst(Delete(s, p, j), p, i);
    }
  }

  /** Every deletion takes |p| characters, so no order of deletions goes on forever. */
  lemma {:induction false} ReducesLength(s: string, p: string, path: seq<nat>, t: string)
    requires Reduces(s, p, path, t)
    ensures |t| + |p| * |path| == |s|
    decreases |path|
  {
    if path != [] {
      ReducesLength(Delete(s, p, path[0]), p, path[1..], t);
      assert |p| * (|path[1..]| + 1) == |p| * |path[1..]| + |p|;
    }
  }

  /** Termination and confluence: every deletion takes |p| characters, and whatever the order of
      deletions, the irreducible end is the same. */
  lemma {:induction false} AnyOrderSameEnd(s: string, p: string, path: seq<nat>, t: string)
    requires p != "" && BorderFree(p)
    requires Reduces(s, p, path, t) && Irreducible(t, p)
    ensures t == StripAll(s, p) && |t| + |p| * |path| == |s|
    decreases |path|
  {
    ReducesLength(s, p, path, t);
    hide StripAll, BorderFree, Irreducible;
    if path != [] {
      AnyDeletionFirst(s, p, path[0]);
      AnyOrderSameEnd(Delete(s, p, path[0]), p, path[1..], t);
    }
  }

  /** A reduction of `b` is one of `a + b`, shifted. */
  lemma {:induction false} ReducesBehind(a: string, b: string, p: string, path: seq<nat>, t: string)
      returns (shifted: seq<nat>)
    requires Reduces(b, p, path, t)
    ensures Reduces(a + b, p, shifted, a + t)
    decreases |path|
  {
    assert path != [] ==> path[0] + |p| <= |b|;
    hide OccursAt;
    if path == [] {
      shifted := [];
    } else {
      var i := path[0];
      var rest := ReducesBehind(a, Delete(b, p, i), p, path[1..], t);
      OccursInConcat(a, b, p, |a| + i);
      assert Delete(a + b, p, |a| + i) == a + Delete(b, p, i);
      shifted := [|a| + i] + rest;
      assert shifted[1..] == rest;
    }
  }

  lemma {:induction false} ReplaceReduces(s: string, p: string) returns (path: seq<nat>)
    requires p != ""
    ensures Reduces(s, p, path, Replace(s, p, ""))
    decreases |s|
  {
    if |s| < |p| {
      path := [];
    } else if p <= s {
      var rest := ReplaceReduces(s[|p|..], p);
      assert Delete(s, p, 0) == s[|p|..];
      path := [0] + rest;
      assert path[1..] == rest;
      assert "" + Replace(s[|p|..], p, "") == Replace(s[|p|..], p, "");
    } else {
      var rest := ReplaceReduces(s[1..], p);
      path := ReducesBehind([s[0]], s[1..], p, rest, Replace(s[1..], p, ""));
      assert [s[0]] + s[1..] == s;
    }
  }

  lemma HeadersBorderFree()
    ensures BorderFree(HEADERS)
  {
    forall d | 0 < d < |HEADERS| ensures HEADERS[d..] != HEADERS[..|HEADERS| - d] {
      assert HEADERS[d..][0] == HEADERS[d] != '-';
    }
  }

  /** The name discovery computes in one pass is the fully stripped name exactly when that pass
      leaves no occurrence behind. */
  lemma {:induction false} OnePassAgrees(headers: string)
    ensures KernelHeadersName(headers) == StripAll(headers, HEADERS)
            <==> Irreducible(KernelHeadersName(headers), HEADERS)
  {
    HeadersBorderFree();
    var path := ReplaceReduces(headers, HEADERS);
    var _ := StripAllReduces(headers, HEADERS);
    if Irreducible(KernelHeadersName(headers), HEADERS) {
      AnyOrderSameEnd(headers, HEADERS, path, KernelHeadersName(headers));
    }
  }

  lemma ReplaceStep(s: string, p: string, w: string)
    requires p != ""
    ensures OccursAt(s, p, 0) ==> Replace(s, p, w) == w + Replace(s[|p|..], p, w)
    ensures |p| <= |s| && !OccursAt(s, p, 0) ==> Replace(s, p, w) == [s[0]] + Replace(s[1..], p, w)
  {
    if |p| <= |s| {
      assert p <= s <==> s[0..|p|] == p;
    }
  }

  /** `replace` passes over text in which no match starts, then takes the match. */
  lemma {:induction false} ReplaceBehind(a: string, p: string, b: string, w: string)
    requires p != ""
    requires forall j: nat | j < |a| :: !OccursAt(a + p + b, p, j)
    ensures Replace(a + p + b, p, w) == a + w + Replace(b, p, w)
  {
    var s := a + p + b;
    ReplaceStep(s, p, w);
    if a == "" {
      assert s[0..|p|] == p && s[|p|..] == b;
      assert a + w == w;
    } else {
      var tail := a[1..] + p + b;
      assert s[1..] == tail && s == [a[0]] + tail;
      forall j: nat | j < |a| - 1 ensures !OccursAt(tail, p, j) {
        OccursInConcat([a[0]], tail, p, j + 1);
        assert !OccursAt(s, p, j + 1);
      }
      ReplaceBehind(a[1..], p, b, w);
      assert !OccursAt(s, p, 0);
      assert [a[0]] + (a[1..] + w + Replace(b, p, w)) == a + w + Replace(b, p, w);
    }
  }

  /** A pass over text without a match changes nothing. */
  lemma {:induction false} ReplaceNone(s: string, p: string, w: string)
    requires p != "" && Irreducible(s, p)
    ensures Replace(s, p, w) == s
  {
    if |p| <= |s| {
      assert !OccursAt(s, p, 0);
      ReplaceStep(s, p, w);
      forall i: nat ensures !OccursAt(s[1..], p, i) {
        OccursInConcat([s[0]], s[1..], p, i + 1);
        assert [s[0]] + s[1..] == s && !OccursAt(s, p, i + 1);
      }
      ReplaceNone(s[1..], p, w);
    }
  }

  lemma {:induction false} OneOccurrence(a: string, p: string, b: string)
    requires p != "" && BorderFree(p) && Irreducible(a, p) && Irreducible(b, p)
    ensures Replace(a + p + b, p, "") == a + b
    ensures StripAll(a + p + b, p) == StripAll(a + b, p)
  {
    var s := a + p + b;
    assert s[|a|..|a| + |p|] == p;
    assert OccursAt(s, p, |a|);
    forall j: nat | j < |a| ensures !OccursAt(s, p, j) {
      if OccursAt(s, p, j) {
        NoOverlap(s, p, j, |a|);
        assert a + (p + b) == s;
        OccursInConcat(a, p + b, p, j);
      }
    }
    ReplaceBehind(a, p, b, "");
    ReplaceNone(b, p, "");
    assert a + "" + b == a + b;
    assert Delete(s, p, |a|) == a + b;
    AnyDeletionFirst(s, p, |a|);
  }

  /** `a` ends with the first `d` characters of `p`, and `b` starts with the rest of it. */
  predicate Seam(a: string, p: string, b: string, d: nat) {
    0 < d < |p| && d <= |a| && |p| - d <= |b| && a[|a| - d..] == p[..d] && b[..|p| - d] == p[d..]
  }

  lemma SeamOccurs(a: string, p: string, b: string, d: nat)
    requires Seam(a, p, b, d)
    ensures OccursAt(a + b, p, |a| - d)
  {
    var i := |a| - d;
    forall k | 0 <= k < |p| ensures (a + b)[i + k] == p[k] {
      if k < d {
        assert a[i..][k] == p[..d][k];
      } else {
        assert b[..|p| - d][k - d] == p[d..][k - d];
      }
    }
    OccursAtMeans(a + b, p, i);
  }

  lemma AcrossIsSeam(a: string, p: string, b: string, i: nat)
    requires i < |a| < i + |p| && OccursAt(a + b, p, i)
    ensures Seam(a, p, b, |a| - i)
  {
    var d, w := |a| - i, (a + b)[i..i + |p|];
    assert w[..d] == a[i..] && w[d..] == b[..|p| - d];
  }

  /** Two texts without `p` bring one together exactly at a seam. */
  lemma {:induction false} SeamExactly(a: string, p: string, b: string)
    requires p != "" && Irreducible(a, p) && Irreducible(b, p)
    ensures Irreducible(a + b, p) <==> forall d: nat :: !Seam(a, p, b, d)
  {
    forall d: nat | Seam(a, p, b, d) ensures !Irreducible(a + b, p) {
      SeamOccurs(a, p, b, d);
    }
    if !Irreducible(a + b, p) {
      var i: nat :| OccursAt(a + b, p, i);
      OccursInConcat(a, b, p, i);
      AcrossIsSeam(a, p, b, i);
    }
  }

  lemma {:induction false} StripFixedExactly(s: string, p: string)
    requires p != ""
    ensures StripAll(s, p) == s <==> Irreducible(s, p)
  {
    var path := StripAllReduces(s, p);
  }

  /** For a name with a single "-headers" the condition can be read off the name: the pass agrees
      with exhaustive stripping exactly when the parts around it do not fit together to another. */
  lemma {:induction false} SingleHeadersExactly(a: string, b: string)
    requires Irreducible(a, HEADERS) && Irreducible(b, HEADERS)
    ensures KernelHeadersName(a + HEADERS + b) == a + b
    ensures KernelHeadersName(a + HEADERS + b) == StripAll(a + HEADERS + b, HEADERS)
            <==> forall d: nat :: !Seam(a, HEADERS, b, d)
  {
    HeadersBorderFree();
    OneOccurrence(a, HEADERS, b);
    SeamExactly(a, HEADERS, b);
    StripFixedExactly(a + b, HEADERS);
  }

  lemma {:induction false} PassShortens(s: string, p: string)
    requires p != "" && !Irreducible(s, p)
    ensures |Replace(s, p, "")| + |p| <= |s|
  {
    var i := FindFrom(s, p, 0).value;
    var a, b := s[..i], s[i + |p|..];
    assert s == a + p + b;
    ReplaceBehind(a, p, b, "");
    ReplaceLength(b, p);
  }

  lemma {:induction false} ReplaceLength(s: string, p: string)
    requires p != ""
    ensures |Replace(s, p, "")| <= |s|
  {
    if |s| >= |p| {
      if p <= s {
        ReplaceLength(s[|p|..], p);
      } else {
        ReplaceLength(s[1..], p);
      }
    }
  }

  lemma CutOut(s: string, p: string, i: nat)
    requires OccursAt(s, p, i)
    ensures s == s[..i] + p + s[i + |p|..]
  {
  }

  lemma EndsWith(rest: string, p: string)
    ensures !Irreducible(rest + p, p)
  {
    assert OccursAt(rest + p, p, |rest|);
  }

  /** Cut at the first occurrence, which stays the first when the pattern is appended. */
  lemma {:induction false} FirstCut(kernel: string, p: string) returns (a: string, rest: string)
    requires BorderFree(p) && !Irreducible(kernel, p)
    ensures kernel == a + p + rest
    ensures forall j: nat | j < |a| :: !OccursAt(kernel + p, p, j)
  {
    var i := FindFrom(kernel, p, 0).value;
    a, rest := kernel[..i], kernel[i + |p|..];
    CutOut(kernel, p, i);
    hide FindFrom, OccursAt, BorderFree;
    forall j: nat | j < i ensures !OccursAt(kernel + p, p, j) {
      BeforeFirst(kernel, p, i, j);
    }
  }

  lemma {:induction false} TwiceShortens(kernel: string, p: string)
    requires p != "" && BorderFree(p) && !Irreducible(kernel, p)
    ensures |Replace(kernel + p, p, "")| < |kernel|
  {
    hide Irreducible, FindFrom, Replace, OccursAt, BorderFree;
    var a, rest := FirstCut(kernel, p);
    EndsWith(rest, p);
    assert kernel + p == a + p + (rest + p);
    ReplaceBehind(a, p, rest + p, "");
    PassShortens(rest + p, p);
  }

  /** The usual headers package, kernel name first, yields its kernel's name exactly when that name
      contains no "-headers". */
  lemma {:induction false} UsualNameExactly(kernel: string)
    ensures KernelHeadersName(kernel + HEADERS) == kernel <==> Irreducible(kernel, HEADERS)
  {
    hide Replace;
    if Irreducible(kernel, HEADERS) {
      assert kernel + HEADERS + "" == kernel + HEADERS && kernel + "" == kernel;
      MissingChar("", '-');
      SingleHeadersExactly(kernel, "");
    } else {
      HeadersBorderFree();
      TwiceShortens(kernel, HEADERS);
    }
  }

  lemma BeforeFirst(kernel: string, p: string, i: nat, j: nat)
    requires BorderFree(p) && OccursAt(kernel, p, i) && j < i && !OccursAt(kernel, p, j)
    ensures !OccursAt(kernel + p, p, j)
  {
    OccursInConcat(kernel, p, p, i);
    OccursInConcat(kernel, p, p, j);
    if OccursAt(kernel + p, p, j) {
      NoOverlap(kernel + p, p, j, i);
    }
  }

  const TANGLED := "linux-hea" + HEADERS + "ders"

  lemma {:induction false} TangledFound()
    ensures NEEDLE.FoundIn(TANGLED)
  {
    hide Regex.Accepts, Regex.FoundIn;
    assert TANGLED[0..5] == LINUX && TANGLED[9..17] == HEADERS && TANGLED[5..9] == "-hea";
    MatchAtAccepts(TANGLED, 0, 9);
  }

  lemma {:induction false} NotApi(name: string)
    requires 'p' !in name
    ensures !IsApiHeaders(name)
  {
    hide FindFrom, OccursAt;
    assert "linux-api-headers"[7] == 'p';
    forall i: nat ensures !OccursAt(name, "linux-api-headers", i) {
      OccurrenceChars(name, "linux-api-headers", i, 'p');
    }
  }

  lemma {:induction false} TangledNotApi()
    ensures !IsApiHeaders(TANGLED)
  {
    NotApi(TANGLED);
  }

  /** They do differ, on a name that discovery accepts: the pass takes it for the headers package of
      a kernel "linux-headers". */
  lemma {:induction false} OnePassMayLeaveOne()
    ensures NEEDLE.FoundIn(TANGLED) && !IsApiHeaders(TANGLED)
    ensures KernelHeadersName(TANGLED) == "linux-headers" && StripAll(TANGLED, HEADERS) == "linux"
  {
    TangledFound();
    TangledNotApi();
    hide Regex.FoundIn, StripAll, Replace, FindFrom, IsApiHeaders;
    MissingChar("linux-hea", 'r');
    MissingChar("ders", '-');
    MissingChar(LINUX, '-');
    MissingChar("", '-');
    HeadersBorderFree();
    OneOccurrence("linux-hea", HEADERS, "ders");
    assert "linux-hea" + "ders" == LINUX + HEADERS + "" == "linux-headers";
    OneOccurrence(LINUX, HEADERS, "");
    assert LINUX + "" == LINUX;
    StripFixedExactly(LINUX, HEADERS);
  }

  lemma MissingChar(s: string, c: char)
    requires c in HEADERS && c !in s
    ensures Irreducible(s, HEADERS)
  {
    forall i: nat ensures !OccursAt(s, HEADERS, i) {
      OccurrenceChars(s, HEADERS, i, c);
    }
  }
}
