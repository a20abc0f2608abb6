/** Strings as the repository uses them: first occurrences, one-pass replacement,
    splitting and joining on a character, trimming and ASCII lower-casing. */
module Text {
  import opened Sequences

  datatype Option<+T> = None | Some(value: T)

  // ---------- occurrences ----------

  /** `p` stands in `s` at index `i`. */
  predicate OccursAt(s: string, p: string, i: nat) {
    i + |p| <= |s| && s[i..i + |p|] == p
  }

  ghost predicate Contains(s: string, p: string) {
    exists i: nat :: OccursAt(s, p, i)
  }

  /** The first occurrence of `p` in `s` at or after `from`. */
  function FindFrom(s: string, p: string, from: nat): (r: Option<nat>)
    ensures r.Some? ==> from <= r.value && OccursAt(s, p, r.value)
    ensures r.Some? ==> forall j: nat | from <= j < r.value :: !OccursAt(s, p, j)
    ensures r.None? ==> forall j: nat | from <= j :: !OccursAt(s, p, j)
    decreases |s| - from
  {
    if OccursAt(s, p, from) then Some(from)
    else if |s| <= from then None
    else FindFrom(s, p, from + 1)
  }

  /** No proper suffix of `p` is a prefix of `p`. */
  ghost predicate BorderFree(p: string) {
    forall d | 0 < d < |p| :: p[d..] != p[..|p| - d]
  }

  lemma OverlapIsBorder(s: string, p: string, i: nat, j: nat)
    requires i < j < i + |p|
    requires OccursAt(s, p, i) && OccursAt(s, p, j)
    ensures p[j - i..] == p[..|p| - (j - i)]
  {
    var d := j - i;
    assert p[d..] == s[i..i + |p|][d..] == s[j..i + |p|];
    assert p[..|p| - d] == s[j..j + |p|][..|p| - d] == s[j..i + |p|];
  }

  lemma NoOverlap(s: string, p: string, i: nat, j: nat)
    requires BorderFree(p) && i < j
    requires OccursAt(s, p, i) && OccursAt(s, p, j)
    ensures i + |p| <= j
  {
    if j < i + |p| {
      OverlapIsBorder(s, p, i, j);
    }
  }

  lemma OccursAtMeans(s: string, p: string, i: nat)
    requires i + |p| <= |s|
    ensures OccursAt(s, p, i) <==> forall k | 0 <= k < |p| :: s[i + k] == p[k]
  {
    var w := s[i..i + |p|];
    assert forall k | 0 <= k < |p| :: w[k] == s[i + k];
  }

  /** Nothing occurs where one of its characters is missing. */
  lemma OccurrenceChars(s: string, p: string, i: nat, c: char)
    requires c in p && c !in s
    ensures !OccursAt(s, p, i)
  {
    if i + |p| <= |s| {
      var w := s[i..i + |p|];
      assert c !in w;
    }
  }

  /** Occurrences in a left part survive appending; those in a right part shift. */
  lemma OccursInConcat(a: string, b: string, p: string, i: nat)
    ensures i + |p| <= |a| ==> (OccursAt(a + b, p, i) <==> OccursAt(a, p, i))
    ensures |a| <= i ==> (OccursAt(a + b, p, i) <==> OccursAt(b, p, i - |a|))
  {
    if i + |p| <= |a| {
      assert (a + b)[i..i + |p|] == a[i..i + |p|];
    }
    if |a| <= i && i + |p| <= |a| + |b| {
      assert (a + b)[i..i + |p|] == b[i - |a|..i - |a| + |p|];
    }
  }

  /** One left-to-right pass over non-overlapping matches, as `str::replace` does it. */
  function Replace(s: string, p: string, w: string): string
    requires p != ""
  {
    if |s| < |p| then s
    else if p <= s then w + Replace(s[|p|..], p, w)
    else [s[0]] + Replace(s[1..], p, w)
  }

  /** Without one of the pattern's characters there is nothing to replace. */
  lemma {:induction false} ReplaceAbsent(s: string, p: string, w: string, c: char)
    requires p != "" && c in p && c !in s
    ensures Replace(s, p, w) == s
  {
    if |s| >= |p| {
      var i :| 0 <= i < |p| && p[i] == c;
      assert s[i] != p[i];
      ReplaceAbsent(s[1..], p, w, c);
    }
  }

  /** The last index of a character. */
  function LastIndex(s: string, c: char): (r: Option<nat>)
    ensures r.Some? ==> r.value < |s| && s[r.value] == c && forall j | r.value < j < |s| :: s[j] != c
    ensures r.None? ==> c !in s
  {
    if s == "" then None
    else if s[|s| - 1] == c then Some(|s| - 1)
    else LastIndex(s[..|s| - 1], c)
  }

  lemma {:induction false} LastIndexIs(s: string, c: char, i: nat)
    requires i < |s| && s[i] == c && forall j | i < j < |s| :: s[j] != c
    ensures LastIndex(s, c) == Some(i)
  {
    if i < |s| - 1 {
      LastIndexIs(s[..|s| - 1], c, i);
    }
  }

  lemma {:induction false} LastIndexBehind(front: string, part: string, c: char)
    requires LastIndex(part, c).Some?
    ensures LastIndex(front + part, c) == Some(|front| + LastIndex(part, c).value)
  {
    var r, all := LastIndex(part, c).value, front + part;
    forall i | |front| + r < i < |all| ensures all[i] != c {
      assert all[i] == part[i - |front|];
    }
    LastIndexIs(all, c, |front| + r);
  }

  // ---------- splitting and joining ----------

  function Split(s: string, c: char): (r: seq<string>)
    ensures |r| >= 1
  {
    if s == "" then [""]
    else if s[0] == c then [""] + Split(s[1..], c)
    else var rest := Split(s[1..], c); [[s[0]] + rest[0]] + rest[1..]
  }

  function Join(parts: seq<string>, c: char): string {
    if parts == [] then ""
    else if |parts| == 1 then parts[0]
    else parts[0] + [c] + Join(parts[1..], c)
  }

  lemma {:induction false} JoinSplit(s: string, c: char)
    ensures Join(Split(s, c), c) == s
    ensures forall p | p in Split(s, c) :: c !in p
  {
    if s != "" {
      var rest := Split(s[1..], c);
      JoinSplit(s[1..], c);
      if s[0] == c {
        var r := [""] + rest;
        assert r[1..] == rest;
        assert Join(r, c) == "" + [c] + Join(rest, c);
      } else {
        var r := [[s[0]] + rest[0]] + rest[1..];
        assert r[1..] == rest[1..];
        assert Join(r, c) == [s[0]] + Join(rest, c);
      }
    }
  }

  /** A separator-free head followed by the separator splits off. */
  lemma {:induction false} SplitHead(head: string, c: char, tail: string)
    requires c !in head
    ensures Split(head + [c] + tail, c) == [head] + Split(tail, c)
    ensures Split(head, c) == [head]
  {
    if head == "" {
      assert head + [c] + tail == [c] + tail;
      assert ([c] + tail)[1..] == tail;
    } else {
      var s := head + [c] + tail;
      assert s[1..] == head[1..] + [c] + tail;
      assert [s[0]] + head[1..] == head;
      SplitHead(head[1..], c, tail);
    }
  }

  lemma {:induction false} SplitJoin(parts: seq<string>, c: char)
    requires parts != []
    requires forall p | p in parts :: c !in p
    ensures Split(Join(parts, c), c) == parts
  {
    assert parts[0] in parts;
    if |parts| == 1 {
      SplitHead(parts[0], c, "");
    } else {
      SplitJoin(parts[1..], c);
      SplitHead(parts[0], c, Join(parts[1..], c));
      assert [parts[0]] + parts[1..] == parts;
    }
  }

  /** The non-empty segments. */
  function NonEmpty(parts: seq<string>): (r: seq<string>)
    ensures forall p :: p in r <==> p in parts && p != ""
  {
    if parts == [] then [] else (if parts[0] != "" then [parts[0]] else []) + NonEmpty(parts[1..])
  }

  predicate NotEmpty(s: string) {
    s != ""
  }

  function Same(s: string): string {
    s
  }

  /** They are kept in order. */
  lemma {:induction false} NonEmptyExactly(parts: seq<string>) returns (origin: seq<nat>)
    ensures Sifts(parts, NotEmpty, Same, NonEmpty(parts), origin)
  {
    hide Sifts;
    if parts == [] {
      origin := [];
      SiftsNone(NotEmpty, Same);
    } else {
      var rest := NonEmpty(parts[1..]);
      origin := NonEmptyExactly(parts[1..]);
      origin := SiftsCons(parts[0], parts[1..], NotEmpty, Same, rest, origin);
      assert parts == [parts[0]] + parts[1..];
      assert NonEmpty(parts) == if NotEmpty(parts[0]) then [Same(parts[0])] + rest else rest;
    }
  }

  lemma {:induction false} NonEmptyAll(parts: seq<string>)
    requires "" !in parts
    ensures NonEmpty(parts) == parts
  {
    if parts != [] {
      NonEmptyAll(parts[1..]);
    }
  }

  /** Splitting brings in no new characters. */
  lemma {:induction false} SplitChars(s: string, c: char)
    ensures forall part, x | part in Split(s, c) && x in part :: x in s
  {
    if s != "" {
      SplitChars(s[1..], c);
      forall part, x | part in Split(s, c) && x in part ensures x in s {
        var rest := Split(s[1..], c);
        if s[0] != c && part == [s[0]] + rest[0] && x != s[0] {
          assert x in rest[0];
        }
      }
    }
  }

  // ---------- trimming and case ----------

  /** `char::is_whitespace`: the Unicode White_Space property. */
  predicate IsWhitespace(c: char) {
    var n := c as int;
    9 <= n <= 13 || n == 32 || n == 0x85 || n == 0xA0 || n == 0x1680 || 0x2000 <= n <= 0x200A
    || n == 0x2028 || n == 0x2029 || n == 0x202F || n == 0x205F || n == 0x3000
  }

  function TrimStart(s: string): string {
    if s != "" && IsWhitespace(s[0]) then TrimStart(s[1..]) else s
  }

  function TrimEnd(s: string): string {
    if s != "" && IsWhitespace(s[|s| - 1]) then TrimEnd(s[..|s| - 1]) else s
  }

  function Trim(s: string): string {
    TrimEnd(TrimStart(s))
  }

  /** What `trim` guarantees of its result. */
  lemma {:induction false} TrimEndResult(s: string)
    ensures TrimEnd(s) <= s
    ensures TrimEnd(s) != "" ==> !IsWhitespace(TrimEnd(s)[|TrimEnd(s)| - 1])
  {
    if s != "" && IsWhitespace(s[|s| - 1]) {
      TrimEndResult(s[..|s| - 1]);
    }
  }

  lemma {:induction false} TrimStartResult(s: string)
    ensures TrimStart(s) != "" ==> !IsWhitespace(TrimStart(s)[0])
    ensures |TrimStart(s)| <= |s|
  {
    if s != "" && IsWhitespace(s[0]) {
      TrimStartResult(s[1..]);
    }
  }

  /** `trim` is the identity exactly on text that neither starts nor ends with whitespace. */
  lemma TrimFixed(s: string)
    ensures Trim(s) == s <==> s == "" || (!IsWhitespace(s[0]) && !IsWhitespace(s[|s| - 1]))
    ensures Trim(s) != "" ==> !IsWhitespace(Trim(s)[0]) && !IsWhitespace(Trim(s)[|Trim(s)| - 1])
  {
    TrimStartResult(s);
    TrimEndResult(TrimStart(s));
    if s != "" && IsWhitespace(s[0]) {
      TrimStartResult(s[1..]);
    }
  }

  predicate AllBlank(s: string) {
    forall c | c in s :: IsWhitespace(c)
  }

  /** `trim` takes away whitespace at the two ends and nothing else. */
  lemma {:induction false} TrimParts(s: string) returns (front: string, behind: string)
    ensures s == front + Trim(s) + behind && AllBlank(front) && AllBlank(behind)
  {
    front := TrimStartParts(s);
    behind := TrimEndParts(TrimStart(s));
    assert s == front + (Trim(s) + behind);
  }

  lemma {:induction false} TrimStartParts(s: string) returns (front: string)
    ensures s == front + TrimStart(s) && AllBlank(front)
  {
    front := "";
    if s != "" && IsWhitespace(s[0]) {
      front := TrimStartParts(s[1..]);
      assert s == [s[0]] + s[1..];
      front := [s[0]] + front;
    }
  }

  lemma {:induction false} TrimEndParts(s: string) returns (behind: string)
    ensures s == TrimEnd(s) + behind && AllBlank(behind)
  {
    behind := "";
    if s != "" && IsWhitespace(s[|s| - 1]) {
      behind := TrimEndParts(s[..|s| - 1]);
      assert s == s[..|s| - 1] + [s[|s| - 1]];
      behind := behind + [s[|s| - 1]];
    }
  }

  function LowerChar(c: char): char {
    if 'A' <= c <= 'Z' then (c as int + 32) as char else c
  }

  function Lower(s: string): string {
    seq(|s|, i requires 0 <= i < |s| => LowerChar(s[i]))
  }

  /** Letter by letter: only the capitals A to Z change, each to its small letter. */
  lemma LowerExactly(s: string)
    ensures |Lower(s)| == |s|
    ensures forall i | 0 <= i < |s| ::
              if 'A' <= s[i] <= 'Z' then 'a' <= Lower(s)[i] <= 'z' && Lower(s)[i] as int - 'a' as int == s[i] as int - 'A' as int
              else Lower(s)[i] == s[i]
  {
  }

  predicate IsAsciiAlphanumeric(c: char) {
    'a' <= c <= 'z' || 'A' <= c <= 'Z' || '0' <= c <= '9'
  }

  // ---------- decimal rendering ----------

  function Digit(d: nat): char
    requires d < 10
  {
    (d + '0' as int) as char
  }

  function Decimal(n: nat): string {
    if n < 10 then [Digit(n)] else Decimal(n / 10) + [Digit(n % 10)]
  }

  /** The number a row of digits stands for. */
  function Number(s: string): int {
    if s == "" then 0 else 10 * Number(s[..|s| - 1]) + (s[|s| - 1] as int - '0' as int)
  }

  lemma {:induction false} DecimalRead(n: nat)
    ensures Number(Decimal(n)) == n
  {
    if n >= 10 {
      DecimalRead(n / 10);
      assert Decimal(n)[..|Decimal(n)| - 1] == Decimal(n / 10);
    } else {
      assert Number([]) == 0;
    }
  }

  function DecimalInt(n: int): string {
    if n < 0 then "-" + Decimal(-n) else Decimal(n)
  }
}
