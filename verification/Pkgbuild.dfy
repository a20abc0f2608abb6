/** The two splices into a PKGBUILD
    (crates/cachyos-kernel-manager-build/src/lib.rs). */
module Pkgbuild {
  import opened Text
  import opened Sequences

  // ---------- the source block ----------

  function Quoted(entry: string): string {
    "\"" + entry + "\""
  }

  predicate IsPatch(entry: string) {
    |entry| >= |".patch"| && entry[|entry| - |".patch"|..] == ".patch"
  }

  function QuotedSources(entries: seq<string>): seq<string> {
    if entries == [] then []
    else
      var n := |entries| - 1;
      QuotedSources(entries[..n]) + (if IsPatch(entries[n]) then [] else [Quoted(entries[n])])
  }

  function QuotedAll(entries: seq<string>): seq<string> {
    seq(|entries|, i requires 0 <= i < |entries| => Quoted(entries[i]))
  }

  /** The old sources that are not patches, then the listed patches. */
  function SourceBlock(orig: seq<string>, patches: seq<string>): string {
    "source=(\n" + Join(QuotedSources(orig) + QuotedAll(patches), '\n') + ")\n"
  }

  lemma PatchExactly(entry: string)
    ensures IsPatch(entry) <==> exists stem :: entry == stem + ".patch"
  {
    if IsPatch(entry) {
      assert entry == entry[..|entry| - |".patch"|] + ".patch";
    }
  }

  predicate NoPatch(entry: string) {
    !IsPatch(entry)
  }

  /** The old sources that are not patches, each in quotes, in order. */
  lemma {:induction false} QuotedSourcesExactly(entries: seq<string>) returns (origin: seq<nat>)
    ensures Sifts(entries, NoPatch, Quoted, QuotedSources(entries), origin)
  {
    hide Sifts, IsPatch;
    if entries == [] {
      origin := [];
      SiftsNone(NoPatch, Quoted);
    } else {
      var n := |entries| - 1;
      var before := QuotedSources(entries[..n]);
      origin := QuotedSourcesExactly(entries[..n]);
      origin := SiftsSnoc(entries[..n], entries[n], NoPatch, Quoted, before, origin);
      assert entries == entries[..n] + [entries[n]];
      assert QuotedSources(entries) == if NoPatch(entries[n]) then before + [Quoted(entries[n])] else before;
    }
  }

  /** The block read line by line: between `source=(` and `)` stand the kept sources and then the patches,
      one a line, each in quotes. */
  lemma {:induction false} BlockReadsBack(orig: seq<string>, patches: seq<string>) returns (body: string)
    requires forall entry | entry in orig + patches :: '\n' !in entry
    ensures SourceBlock(orig, patches) == "source=(\n" + body + ")\n"
    ensures var lines, kept := Split(body, '\n'), QuotedSources(orig);
            if kept == [] && patches == [] then lines == [""]
            else |lines| == |kept| + |patches| && lines[..|kept|] == kept
                 && forall i | 0 <= i < |patches| :: lines[|kept| + i] == "\"" + patches[i] + "\""
  {
    hide QuotedSources, IsPatch, Join, Split, QuotedAll, Quoted;
    var kept, added := QuotedSources(orig), QuotedAll(patches);
    var entries := kept + added;
    body := Join(entries, '\n');
    AllQuoted(patches);
    assert entries[..|kept|] == kept;
    assert forall i | 0 <= i < |patches| :: entries[|kept| + i] == "\"" + patches[i] + "\"";
    EntriesOnOneLine(orig, patches);
    if entries == [] {
      NothingSplit();
    } else {
      SplitJoin(entries, '\n');
    }
  }

  lemma AllQuoted(patches: seq<string>)
    ensures |QuotedAll(patches)| == |patches|
    ensures forall i | 0 <= i < |patches| :: QuotedAll(patches)[i] == "\"" + patches[i] + "\""
  {
  }

  lemma NothingSplit()
    ensures Split(Join([], '\n'), '\n') == [""]
  {
  }

  lemma {:induction false} EntriesOnOneLine(orig: seq<string>, patches: seq<string>)
    requires forall entry | entry in orig + patches :: '\n' !in entry
    ensures forall line | line in QuotedSources(orig) + QuotedAll(patches) :: '\n' !in line
  {
    var origin := QuotedSourcesExactly(orig);
    hide QuotedSources, IsPatch;
    forall i | 0 <= i < |QuotedSources(orig)| ensures '\n' !in QuotedSources(orig)[i] {
      assert orig[origin[i]] in orig + patches;
    }
    forall i | 0 <= i < |patches| ensures '\n' !in QuotedAll(patches)[i] {
      assert patches[i] in orig + patches;
    }
  }

  method BuildSourceArray(orig: seq<string>, patches: seq<string>) returns (block: string)
    ensures block == SourceBlock(orig, patches)
  {
    var entries: seq<string> := [];
    for i := 0 to |orig|
      invariant entries == QuotedSources(orig[..i])
    {
      assert orig[..i + 1][..i] == orig[..i];
      if !IsPatch(orig[i]) {
        entries := entries + [Quoted(orig[i])];
      }
    }
    assert orig[..|orig|] == orig;
    for i := 0 to |patches|
      invariant entries == QuotedSources(orig) + QuotedAll(patches[..i])
    {
      assert QuotedAll(patches[..i + 1]) == QuotedAll(patches[..i]) + [Quoted(patches[i])];
      entries := entries + [Quoted(patches[i])];
    }
    assert patches[..|patches|] == patches;
    block := "source=(\n" + Join(entries, '\n') + ")\n";
  }

  // ---------- the insertion primitive ----------

  /** `at` is the last newline at or before the first occurrence of the marker. */
  ghost predicate IsInsertionPoint(text: string, marker: string, at: nat) {
    exists m: nat :: OccursAt(text, marker, m) && (forall j: nat | j < m :: !OccursAt(text, marker, j))
                     && at <= m < |text| && text[at] == '\n' && forall i | at < i <= m :: text[i] != '\n'
  }

  function InsertionPoint(text: string, marker: string): (r: Option<nat>)
    requires marker != "" || text != ""
    ensures r.Some? ==> r.value < |text| && text[r.value] == '\n'
  {
    var m := FindFrom(text, marker, 0);
    if m.None? then None else LastIndex(text[..m.value + 1], '\n')
  }

  function Spliced(text: string, at: nat, insertion: string): string
    requires at <= |text|
  {
    text[..at] + insertion + text[at..]
  }

  /** Insert at the insertion point, or leave the text as it is when there is none. */
  function Insert(text: string, marker: string, insertion: string): string
    requires marker != "" || text != ""
  {
    var at := InsertionPoint(text, marker);
    if at.Some? then Spliced(text, at.value, insertion) else text
  }

  lemma PointExact(text: string, marker: string)
    requires marker != "" || text != ""
    ensures var r := InsertionPoint(text, marker);
            && (r.Some? ==> IsInsertionPoint(text, marker, r.value))
            && (r.None? ==> forall at: nat :: !IsInsertionPoint(text, marker, at))
  {
    var m := FindFrom(text, marker, 0);
    if m.Some? {
      var head := text[..m.value + 1];
      var r := LastIndex(head, '\n');
      if r.Some? {
        assert forall i | r.value < i <= m.value :: head[i] == text[i];
      } else {
        forall at: nat ensures !IsInsertionPoint(text, marker, at) {
          assert forall i | 0 <= i < |head| :: head[i] == text[i];
        }
      }
    }
  }

  /** An insertion stands at the end of the line before the marker's: the text is cut at the newline that
      begins the line of the first marker, or the marker has no such line and nothing is inserted. */
  lemma {:induction false} InsertExactly(text: string, marker: string, insertion: string)
      returns (before: string, line: string, m: nat)
    requires marker != "" && '\n' !in marker
    ensures Insert(text, marker, insertion) != text && insertion != "" ==>
              && text == before + "\n" + line && Insert(text, marker, insertion) == before + insertion + "\n" + line
              && OccursAt(line, marker, m) && '\n' !in line[..m] && !Contains(before, marker)
    ensures Insert(text, marker, insertion) == text && insertion != "" ==>
              forall i: nat :: OccursAt(text, marker, i) && (forall j: nat | j < i :: !OccursAt(text, marker, j)) ==> '\n' !in text[..i]
  {
    PointExact(text, marker);
    var at := InsertionPoint(text, marker);
    before, line, m := "", "", 0;
    if at.Some? {
      before, line, m := CutAt(text, marker, at.value);
      hide InsertionPoint, OccursAt, Contains, IsInsertionPoint;
      assert Insert(text, marker, insertion) == before + insertion + "\n" + line;
      assert |Insert(text, marker, insertion)| == |text| + |insertion|;
    } else {
      forall i: nat | OccursAt(text, marker, i) && forall j: nat | j < i :: !OccursAt(text, marker, j) ensures '\n' !in text[..i] {
        NoLineBefore(text, marker, i);
      }
    }
  }

  lemma NoLineBefore(text: string, marker: string, i: nat)
    requires marker != "" && OccursAt(text, marker, i) && forall j: nat | j < i :: !OccursAt(text, marker, j)
    requires InsertionPoint(text, marker).None?
    ensures '\n' !in text[..i]
  {
    FirstIs(text, marker, i);
    assert text[..i] <= text[..i + 1];
  }

  lemma CutAt(text: string, marker: string, at: nat) returns (before: string, line: string, m: nat)
    requires IsInsertionPoint(text, marker, at) && marker != "" && '\n' !in marker
    ensures before == text[..at] && text == before + "\n" + line && at < |text| && text[at..] == "\n" + line
    ensures OccursAt(line, marker, m) && '\n' !in line[..m] && !Contains(before, marker)
  {
    var first: nat :| OccursAt(text, marker, first) && (forall j: nat | j < first :: !OccursAt(text, marker, j))
                      && at <= first < |text| && text[at] == '\n' && forall i | at < i <= first :: text[i] != '\n';
    before, line, m := CutAtFirst(text, marker, at, first);
  }

  lemma CutAtFirst(text: string, marker: string, at: nat, first: nat) returns (before: string, line: string, m: nat)
    requires marker != "" && '\n' !in marker && at <= first < |text| && text[at] == '\n'
    requires OccursAt(text, marker, first) && forall j: nat | j < first :: !OccursAt(text, marker, j)
    requires forall i | at < i <= first :: text[i] != '\n'
    ensures before == text[..at] && text == before + "\n" + line && text[at..] == "\n" + line
    ensures OccursAt(line, marker, m) && '\n' !in line[..m] && !Contains(before, marker)
  {
    before, line := text[..at], text[at + 1..];
    NewlineFirst(text, marker, at, first);
    m := first - at - 1;
    assert text == (before + "\n") + line && text == before + ("\n" + line);
    assert forall i | 0 <= i < m :: line[i] == text[at + 1 + i];
    hide OccursAt;
    OccursInConcat(before + "\n", line, marker, first);
    forall j: nat ensures !OccursAt(before, marker, j) {
      NotBefore(before, "\n" + line, marker, first, j);
    }
  }

  lemma NewlineFirst(text: string, marker: string, at: nat, first: nat)
    requires marker != "" && '\n' !in marker && OccursAt(text, marker, first) && at <= first && text[at] == '\n'
    ensures at < first
  {
    assert text[first..first + |marker|][0] == marker[0];
  }

  lemma NotBefore(a: string, b: string, marker: string, first: nat, j: nat)
    requires marker != "" && |a| <= first && forall i: nat | i < first :: !OccursAt(a + b, marker, i)
    ensures !OccursAt(a, marker, j)
  {
    OccursInConcat(a, b, marker, j);
  }

  /** Looking for the empty marker in the empty text is the one case that does not return. */
  method InsertBeforeMarkerChanged(text: string, marker: string, insertion: string) returns (r: Option<string>)
    requires marker != "" || text != ""
    ensures r.Some? <==> InsertionPoint(text, marker).Some?
    ensures r.Some? ==> r.value == Insert(text, marker, insertion)
    ensures r.None? ==> text == Insert(text, marker, insertion)
  {
    var markerPos := FindFrom(text, marker, 0);
    if markerPos.None? {
      return None;
    }
    var lastNewline := LastIndex(text[..markerPos.value + 1], '\n');
    if lastNewline.None? {
      return None;
    }
    var out := "";
    out := out + text[..lastNewline.value];
    out := out + insertion;
    out := out + text[lastNewline.value..];
    return Some(out);
  }

  const PREPARE := "prepare()"
  const MAJOR := "_major="

  function NameInsertion(custom: string): string {
    "\n\npkgbase=\"" + custom + "\""
  }

  method InsertPatchSourceArray(pkgbuild: string, orig: seq<string>, patches: seq<string>) returns (out: string)
    ensures out == Insert(pkgbuild, PREPARE, SourceBlock(orig, patches))
  {
    var block := BuildSourceArray(orig, patches);
    var r := InsertBeforeMarkerChanged(pkgbuild, PREPARE, block);
    out := if r.Some? then r.value else pkgbuild;
  }

  method InsertCustomPkgbase(pkgbuild: string, custom: string) returns (out: string)
    ensures out == Insert(pkgbuild, MAJOR, NameInsertion(custom))
  {
    var r := InsertBeforeMarkerChanged(pkgbuild, MAJOR, "\n\npkgbase=\"" + custom + "\"");
    out := if r.Some? then r.value else pkgbuild;
  }

  // ---------- when do two insertions commute ----------

  /** Inserting `x` at a newline brings in no new occurrence of `marker`: not inside `x`, and not
      across its ends. */
  ghost predicate Neutral(x: string, marker: string) {
    x != "" && marker != "" && x[0] !in marker && '\n' !in marker && !Contains(x, marker)
  }

  lemma SplicedParts(text: string, at: nat, x: string, marker: string, i: nat)
    requires at <= |text|
    ensures var out := Spliced(text, at, x);
            && (i + |marker| <= at ==> (OccursAt(out, marker, i) <==> OccursAt(text, marker, i)))
            && (at <= i && i + |marker| <= at + |x| ==> (OccursAt(out, marker, i) <==> OccursAt(x, marker, i - at)))
            && (at + |x| <= i ==> (OccursAt(out, marker, i) <==> OccursAt(text, marker, i - |x|)))
  {
    assert text == text[..at] + text[at..];
    OccursInConcat(text[..at] + x, text[at..], marker, i);
    OccursInConcat(text[..at], x, marker, i);
    OccursInConcat(text[..at], text[at..], marker, i);
    if at + |x| <= i {
      OccursInConcat(text[..at], text[at..], marker, i - |x|);
    }
  }

  lemma NoOccurrenceAcross(s: string, marker: string, i: nat, k: nat)
    requires i <= k < i + |marker| && k < |s| && s[k] !in marker
    ensures !OccursAt(s, marker, i)
  {
    if i + |marker| <= |s| {
      assert s[i..i + |marker|][k - i] == s[k];
    }
  }

  /** Occurrences of the marker move with the text around the insertion. */
  lemma MarkersMove(text: string, at: nat, x: string, marker: string, i: nat)
    requires at < |text| && text[at] == '\n' && Neutral(x, marker)
    ensures OccursAt(Spliced(text, at, x), marker, i)
            <==> (i < at && OccursAt(text, marker, i)) || (at + |x| < i && OccursAt(text, marker, i - |x|))
  {
    var out := Spliced(text, at, x);
    SplicedParts(text, at, x, marker, i);
    assert out[at] == x[0] && out[at + |x|] == '\n';
    if i <= at < i + |marker| {
      NoOccurrenceAcross(out, marker, i, at);
      NoOccurrenceAcross(text, marker, i, at);
    } else if i <= at + |x| < i + |marker| {
      NoOccurrenceAcross(out, marker, i, at + |x|);
    }
  }

  lemma FirstIs(s: string, p: string, i: nat)
    requires OccursAt(s, p, i) && forall j: nat | j < i :: !OccursAt(s, p, j)
    ensures FindFrom(s, p, 0) == Some(i)
  {
  }

  lemma FirstMoves(text: string, at: nat, x: string, marker: string, m: nat)
    requires at < |text| && text[at] == '\n' && Neutral(x, marker)
    requires OccursAt(text, marker, m) && forall j: nat | j < m :: !OccursAt(text, marker, j)
    ensures m != at && m < |text|
    ensures FindFrom(Spliced(text, at, x), marker, 0) == Some(if m < at then m else m + |x|)
  {
    NoOccurrenceAcross(text, marker, at, at);
    var moved := if m < at then m else m + |x|;
    MarkersMove(text, at, x, marker, moved);
    forall j: nat | j < moved ensures !OccursAt(Spliced(text, at, x), marker, j) {
      MarkersMove(text, at, x, marker, j);
    }
    FirstIs(Spliced(text, at, x), marker, moved);
  }

  lemma NoneMoves(text: string, at: nat, x: string, marker: string)
    requires at < |text| && text[at] == '\n' && Neutral(x, marker)
    requires forall j: nat :: !OccursAt(text, marker, j)
    ensures FindFrom(Spliced(text, at, x), marker, 0).None?
  {
    forall j: nat ensures !OccursAt(Spliced(text, at, x), marker, j) {
      MarkersMove(text, at, x, marker, j);
    }
  }

  lemma LastNewlineMoves(text: string, at: nat, x: string, m: nat)
    requires at <= m < |text| && text[at] == '\n'
    ensures var q := LastIndex(text[..m + 1], '\n');
            q.Some? && at <= q.value && LastIndex(Spliced(text, at, x)[..m + |x| + 1], '\n') == Some(q.value + |x|)
  {
    var head, moved := text[..m + 1], Spliced(text, at, x)[..m + |x| + 1];
    assert head[at] == '\n';
    var q := LastIndex(head, '\n');
    assert forall i | at <= i < |head| :: moved[i + |x|] == head[i];
    forall i | q.value + |x| < i < |moved| ensures moved[i] != '\n' {
      assert moved[(i - |x|) + |x|] == head[i - |x|];
    }
    LastIndexIs(moved, '\n', q.value + |x|);
  }

  /** Where the other marker's insertion point is after a neutral insertion. */
  lemma PointMoves(text: string, at: nat, x: string, marker: string)
    requires at < |text| && text[at] == '\n' && Neutral(x, marker)
    ensures var p, p' := InsertionPoint(text, marker), InsertionPoint(Spliced(text, at, x), marker);
            && (p.None? ==> p'.None?)
            && (p.Some? ==> p' == Some(if p.value < at then p.value else p.value + |x|))
  {
    hide FindFrom, LastIndex, OccursAt, Neutral;
    var m := FindFrom(text, marker, 0);
    if m.None? {
      NoneMoves(text, at, x, marker);
    } else {
      FirstMoves(text, at, x, marker, m.value);
      if m.value < at {
        assert Spliced(text, at, x)[..m.value + 1] == text[..m.value + 1];
      } else {
        LastNewlineMoves(text, at, x, m.value);
      }
    }
  }

  lemma InTwoPlaces(text: string, a: nat, x: string, b: nat, y: string)
    requires a <= b <= |text|
    ensures Spliced(Spliced(text, a, x), b + |x|, y) == text[..a] + x + text[a..b] + y + text[b..]
    ensures a < b ==> Spliced(Spliced(text, b, y), a, x) == text[..a] + x + text[a..b] + y + text[b..]
  {
    assert Spliced(text, a, x)[..b + |x|] == text[..a] + x + text[a..b];
    assert Spliced(text, a, x)[b + |x|..] == text[b..];
    if a < b {
      assert Spliced(text, b, y)[..a] == text[..a];
      assert Spliced(text, b, y)[a..] == text[a..b] + y + text[b..];
    }
  }

  /** The second of two insertions finds its place where the text has moved it. */
  lemma InsertAfter(text: string, markerA: string, x: string, markerB: string, y: string, a: nat, b: nat)
    requires markerA != "" && Neutral(x, markerB)
    requires InsertionPoint(text, markerA) == Some(a) && InsertionPoint(text, markerB) == Some(b)
    ensures Insert(Insert(text, markerA, x), markerB, y)
            == Spliced(Spliced(text, a, x), if b < a then b else b + |x|, y)
  {
    hide FindFrom, LastIndex, OccursAt, InsertionPoint, Neutral;
    MarkerNotEmpty(x, markerB);
    PointMoves(text, a, x, markerB);
  }

  lemma MarkerNotEmpty(x: string, marker: string)
    requires Neutral(x, marker)
    ensures marker != ""
  {
  }

  /** An insertion that finds no place before a neutral one finds none after it. */
  lemma InsertNowhere(text: string, markerA: string, x: string, markerB: string, y: string)
    requires markerA != "" && Neutral(x, markerB) && InsertionPoint(text, markerB).None?
    ensures Insert(Insert(text, markerA, x), markerB, y) == Insert(text, markerA, x)
    ensures Insert(text, markerB, y) == text
  {
    var a := InsertionPoint(text, markerA);
    if a.Some? {
      PointMoves(text, a.value, x, markerB);
    }
  }

  /** Two insertions that do not disturb each other's marker commute exactly when one of them does
      nothing, their points differ, or the inserted texts themselves commute. */
  lemma InsertionsCommuteExactly(text: string, markerA: string, x: string, markerB: string, y: string)
    requires Neutral(x, markerB) && Neutral(y, markerA)
    ensures Insert(Insert(text, markerA, x), markerB, y) == Insert(Insert(text, markerB, y), markerA, x)
            <==> var a, b := InsertionPoint(text, markerA), InsertionPoint(text, markerB);
                 a.None? || b.None? || a != b || x + y == y + x
  {
    var a, b := InsertionPoint(text, markerA), InsertionPoint(text, markerB);
    if a.None? {
      InsertNowhere(text, markerB, y, markerA, x);
    } else if b.None? {
      InsertNowhere(text, markerA, x, markerB, y);
    } else {
      CommuteWhenFound(text, markerA, x, markerB, y, a.value, b.value);
    }
  }

  lemma CommuteWhenFound(text: string, markerA: string, x: string, markerB: string, y: string, a: nat, b: nat)
    requires Neutral(x, markerB) && Neutral(y, markerA)
    requires InsertionPoint(text, markerA) == Some(a) && InsertionPoint(text, markerB) == Some(b)
    ensures Insert(Insert(text, markerA, x), markerB, y) == Insert(Insert(text, markerB, y), markerA, x)
            <==> a != b || x + y == y + x
  {
    InsertAfter(text, markerA, x, markerB, y, a, b);
    InsertAfter(text, markerB, y, markerA, x, b, a);
    BothOrders(text, a, x, b, y);
  }

  /** Inserting at two points, in either order; the earlier insertion moves the later point. */
  lemma BothOrders(text: string, a: nat, x: string, b: nat, y: string)
    requires a < |text| && b < |text|
    ensures Spliced(Spliced(text, a, x), if b < a then b else b + |x|, y)
            == Spliced(Spliced(text, b, y), if a < b then a else a + |y|, x)
            <==> a != b || x + y == y + x
  {
    if a < b {
      InTwoPlaces(text, a, x, b, y);
    } else if b < a {
      InTwoPlaces(text, b, y, a, x);
    } else {
      SamePlace(text, a, x, y);
    }
  }

  lemma SamePlace(text: string, at: nat, x: string, y: string)
    requires at <= |text|
    ensures Spliced(Spliced(text, at, x), at + |x|, y) == Spliced(Spliced(text, at, y), at + |y|, x) <==> x + y == y + x
  {
    InTwoPlaces(text, at, x, at, y);
    InTwoPlaces(text, at, y, at, x);
    var xy, yx := text[..at] + (x + y) + text[at..], text[..at] + (y + x) + text[at..];
    assert text[..at] + x + text[at..at] + y + text[at..] == xy;
    assert text[..at] + y + text[at..at] + x + text[at..] == yx;
    assert xy[at..at + |x + y|] == x + y && yx[at..at + |x + y|] == y + x;
  }

  // ---------- accepted custom names ----------

  predicate NameChar(c: char) {
    IsAsciiAlphanumeric(c) || c == '.' || c == '_' || c == '+' || c == '-'
  }

  /** The names accepted at the boundary. */
  predicate SafeCustomName(value: string) {
    value == "$pkgbase" || value == "$pkgbase-custom"
    || (value != "" && IsAsciiAlphanumeric(value[0]) && forall c | c in value :: NameChar(c))
  }

  /** An accepted name never brings in the other splice's marker. */
  lemma SafeNameIsNeutral(custom: string)
    requires SafeCustomName(custom)
    ensures Neutral(NameInsertion(custom), PREPARE)
  {
    var x := NameInsertion(custom);
    assert '(' !in x;
    forall i: nat ensures !OccursAt(x, PREPARE, i) {
      OccurrenceChars(x, PREPARE, i, '(');
    }
  }

  // ---------- the order of the two splices ----------

  /** An insertion behind the marker does not move its insertion point. */
  lemma PointStays(text: string, a: nat, x: string, marker: string)
    requires a < |text| && text[a] == '\n' && '\n' !in marker && marker != ""
    requires FindFrom(text, marker, 0).Some? && FindFrom(text, marker, 0).value < a
    ensures InsertionPoint(Spliced(text, a, x), marker) == InsertionPoint(text, marker)
  {
    var m := FindFrom(text, marker, 0).value;
    NoOccurrenceBeyond(text, marker, m, a);
    SplicedParts(text, a, x, marker, m);
    forall j: nat | j < m ensures !OccursAt(Spliced(text, a, x), marker, j) {
      SplicedParts(text, a, x, marker, j);
    }
    FirstIs(Spliced(text, a, x), marker, m);
    assert Spliced(text, a, x)[..m + 1] == text[..m + 1];
  }

  lemma NoOccurrenceBeyond(text: string, marker: string, m: nat, a: nat)
    requires OccursAt(text, marker, m) && m < a < |text| && text[a] !in marker
    ensures m + |marker| <= a
  {
    if a < m + |marker| {
      NoOccurrenceAcross(text, marker, m, a);
    }
  }

  lemma FirstDrawnIn(text: string, a: nat, x: string, marker: string, q: nat)
    requires a < |text| && marker != "" && x != "" && x[0] !in marker
    requires forall j: nat | j < a :: !OccursAt(text, marker, j)
    requires FindFrom(x, marker, 0) == Some(q)
    ensures FindFrom(Spliced(text, a, x), marker, 0) == Some(a + q)
  {
    var out := Spliced(text, a, x);
    assert out[a] == x[0];
    assert OccursAt(x, marker, q) && forall j: nat | j < q :: !OccursAt(x, marker, j);
    SplicedParts(text, a, x, marker, a + q);
    hide FindFrom, OccursAt, Spliced;
    forall j: nat | j < a + q ensures !OccursAt(out, marker, j) {
      SplicedParts(text, a, x, marker, j);
      if j <= a < j + |marker| {
        NoOccurrenceAcross(out, marker, j, a);
      }
    }
    FirstIs(out, marker, a + q);
  }

  /** An insertion in front of every occurrence of the marker that holds the marker itself draws the
      marker's insertion point into it. */
  lemma PointDrawnIn(text: string, a: nat, x: string, marker: string, q: nat, r: nat)
    requires a < |text| && marker != "" && x != "" && x[0] !in marker
    requires forall j: nat | j < a :: !OccursAt(text, marker, j)
    requires FindFrom(x, marker, 0) == Some(q) && q < |x| && LastIndex(x[..q + 1], '\n') == Some(r)
    ensures InsertionPoint(Spliced(text, a, x), marker) == Some(a + r)
  {
    hide FindFrom, OccursAt, Spliced, LastIndex;
    FirstDrawnIn(text, a, x, marker, q);
    SplicedHead(text, a, x, q);
    LastIndexBehind(text[..a], x[..q + 1], '\n');
  }

  lemma SplicedHead(text: string, at: nat, x: string, q: nat)
    requires at <= |text| && q < |x|
    ensures q + at < |Spliced(text, at, x)| && Spliced(text, at, x)[..at + q + 1] == text[..at] + x[..q + 1]
  {
  }

  /** Where the name marker stands in a source block that has it. */
  lemma MajorInBlock(orig: seq<string>, patches: seq<string>) returns (q: nat, r: nat)
    requires Contains(SourceBlock(orig, patches), MAJOR)
    ensures var block := SourceBlock(orig, patches);
            && FindFrom(block, MAJOR, 0) == Some(q) && q < |block| && LastIndex(block[..q + 1], '\n') == Some(r)
            && 0 < r < q && block[r + 1] != '\n'
  {
    var block, start := SourceBlock(orig, patches), "source=(\n";
    assert start <= block;
    q := FindFrom(block, MAJOR, 0).value;
    OccurrenceStarts(block, MAJOR, q);
    hide SourceBlock, FindFrom, OccursAt;
    assert forall i | 0 <= i < 9 :: block[i] == start[i] != '_';
    var head := block[..q + 1];
    assert head[8] == start[8] == '\n' && head[q] == '_';
    r := LastIndex(head, '\n').value;
    assert head[r + 1] != '\n';
  }

  lemma BlockStart(orig: seq<string>, patches: seq<string>)
    ensures var block := SourceBlock(orig, patches);
            block != "" && block[0] != '\n' && block[0] !in MAJOR
  {
    assert SourceBlock(orig, patches)[0] == 's';
  }

  lemma OccurrenceStarts(s: string, p: string, i: nat)
    requires OccursAt(s, p, i) && p != ""
    ensures s[i] == p[0]
  {
    assert s[i..i + |p|][0] == s[i];
  }

  /** With the marker in the block, and the block in front of it, the name ends up inside the block or
      behind it. */
  lemma DrawnInDiffers(text: string, a: nat, block: string, r: nat, name: string, b: Option<nat>)
    requires a < |text| && b.Some? ==> a <= b.value < |text|
    requires a < |text| && 0 < r < |block| - 1 && block[r + 1] != '\n' && block[0] != '\n'
    requires |name| > 1 && name[0] == '\n' && name[1] == '\n'
    ensures Spliced(Spliced(text, a, block), a + r, name)
            != (if b.None? then Spliced(text, a, block)
                else Spliced(Spliced(text, b.value, name), if a < b.value then a else a + |name|, block))
  {
    var inside := Spliced(Spliced(text, a, block), a + r, name);
    if b.Some? && a < b.value {
      var behind := Spliced(Spliced(text, b.value, name), a, block);
      assert inside[a + r + 1] == name[1] && behind[a + r + 1] == block[r + 1];
    } else if b.Some? {
      var behind := Spliced(Spliced(text, a, name), a + |name|, block);
      assert inside[a] == block[0] && behind[a] == name[0];
    } else {
      assert |inside| == |Spliced(text, a, block)| + |name|;
    }
  }

  /** When the two splices commute: with a block free of the name marker, when one of them finds no
      place or the places differ; with the marker in the block, when the block finds no place or goes
      in behind the text's own marker. */
  predicate OrderIndifferent(pkgbuild: string, block: string) {
    var a, b := InsertionPoint(pkgbuild, PREPARE), InsertionPoint(pkgbuild, MAJOR);
    var m := FindFrom(pkgbuild, MAJOR, 0);
    if FindFrom(block, MAJOR, 0).None? then a.None? || b.None? || a != b
    else a.None? || (m.Some? && m.value < a.value)
  }

  lemma CommuteBehindMarker(text: string, x: string, marker: string, name: string, a: nat)
    requires Neutral(name, PREPARE) && marker != "" && '\n' !in marker
    requires InsertionPoint(text, PREPARE) == Some(a)
    requires FindFrom(text, marker, 0).Some? && FindFrom(text, marker, 0).value < a
    ensures Insert(Insert(text, PREPARE, x), marker, name) == Insert(Insert(text, marker, name), PREPARE, x)
  {
    var b := InsertionPoint(text, marker);
    PointStays(text, a, x, marker);
    if b.Some? {
      InsertAfter(text, marker, name, PREPARE, x, b.value, a);
      hide Neutral, FindFrom, OccursAt;
      assert b.value < a;
      BothOrders(text, a, x, b.value, name);
    }
  }

  lemma BlockThenName(text: string, orig: seq<string>, patches: seq<string>, name: string, a: nat) returns (r: nat)
    requires Contains(SourceBlock(orig, patches), MAJOR)
    requires InsertionPoint(text, PREPARE) == Some(a) && forall j: nat | j < a :: !OccursAt(text, MAJOR, j)
    ensures var block := SourceBlock(orig, patches);
            && 0 < r < |block| - 1 && block[0] != '\n' && block[r + 1] != '\n'
            && Insert(Insert(text, PREPARE, block), MAJOR, name) == Spliced(Spliced(text, a, block), a + r, name)
  {
    hide SourceBlock, FindFrom, OccursAt, Spliced, LastIndex, InsertionPoint;
    var block, q := SourceBlock(orig, patches), 0;
    q, r := MajorInBlock(orig, patches);
    BlockStart(orig, patches);
    PointDrawnIn(text, a, block, MAJOR, q, r);
  }

  lemma NameThenBlock(text: string, block: string, name: string, a: nat)
    requires Neutral(name, PREPARE) && InsertionPoint(text, PREPARE) == Some(a)
    ensures var b := InsertionPoint(text, MAJOR);
            Insert(Insert(text, MAJOR, name), PREPARE, block)
            == if b.None? then Spliced(text, a, block)
               else Spliced(Spliced(text, b.value, name), if a < b.value then a else a + |name|, block)
  {
    var b := InsertionPoint(text, MAJOR);
    hide InsertionPoint, Neutral, FindFrom, OccursAt, Spliced, LastIndex;
    if b.Some? {
      InsertAfter(text, MAJOR, name, PREPARE, block, b.value, a);
    }
  }

  lemma DifferBeforeMarker(text: string, orig: seq<string>, patches: seq<string>, name: string, a: nat)
    requires Contains(SourceBlock(orig, patches), MAJOR)
    requires Neutral(name, PREPARE) && |name| > 1 && name[0] == '\n' && name[1] == '\n'
    requires InsertionPoint(text, PREPARE) == Some(a) && forall j: nat | j < a :: !OccursAt(text, MAJOR, j)
    ensures var block := SourceBlock(orig, patches);
            Insert(Insert(text, PREPARE, block), MAJOR, name) != Insert(Insert(text, MAJOR, name), PREPARE, block)
  {
    var block := SourceBlock(orig, patches);
    var r := BlockThenName(text, orig, patches, name, a);
    NameThenBlock(text, block, name, a);
    PointBehind(text, a, MAJOR);
    hide SourceBlock, InsertionPoint, Neutral, FindFrom, OccursAt, Spliced, LastIndex, Insert;
    DrawnInDiffers(text, a, block, r, name, InsertionPoint(text, MAJOR));
  }

  lemma CommuteWithMarkerInBlock(pkgbuild: string, orig: seq<string>, patches: seq<string>, name: string)
    requires FindFrom(SourceBlock(orig, patches), MAJOR, 0).Some?
    requires Neutral(name, PREPARE) && |name| > 1 && name[0] == '\n' && name[1] == '\n'
    ensures var block := SourceBlock(orig, patches);
            Insert(Insert(pkgbuild, PREPARE, block), MAJOR, name) == Insert(Insert(pkgbuild, MAJOR, name), PREPARE, block)
            <==> OrderIndifferent(pkgbuild, block)
  {
    var block := SourceBlock(orig, patches);
    var a, m := InsertionPoint(pkgbuild, PREPARE), FindFrom(pkgbuild, MAJOR, 0);
    assert Contains(block, MAJOR);
    hide SourceBlock, Neutral, OccursAt, Insert;
    if a.None? {
      hide FindFrom;
      PlaceNowhere(pkgbuild, block, name);
    } else if m.Some? && m.value < a.value {
      CommuteBehindMarker(pkgbuild, block, MAJOR, name, a.value);
    } else {
      assert m.Some? ==> m.value != a.value by {
        if m.Some? {
          OccurrenceStarts(pkgbuild, MAJOR, m.value);
        }
      }
      DifferBeforeMarker(pkgbuild, orig, patches, name, a.value);
    }
  }

  lemma PlaceNowhere(pkgbuild: string, block: string, name: string)
    requires Neutral(name, PREPARE) && InsertionPoint(pkgbuild, PREPARE).None?
    ensures Insert(Insert(pkgbuild, PREPARE, block), MAJOR, name) == Insert(Insert(pkgbuild, MAJOR, name), PREPARE, block)
  {
    InsertNowhere(pkgbuild, MAJOR, name, PREPARE, block);
  }

  /** A marker behind a newline has its insertion point there or later. */
  lemma PointBehind(text: string, a: nat, marker: string)
    requires a < |text| && text[a] == '\n' && marker != ""
    requires forall j: nat | j < a :: !OccursAt(text, marker, j)
    ensures InsertionPoint(text, marker).Some? ==> a <= InsertionPoint(text, marker).value
  {
    var m := FindFrom(text, marker, 0);
    if m.Some? {
      assert text[..m.value + 1][a] == '\n';
    }
  }

  /** The patch block and an accepted custom name, spliced in either order. */
  lemma SplicesCommuteExactly(pkgbuild: string, orig: seq<string>, patches: seq<string>, custom: string)
    requires SafeCustomName(custom)
    ensures var block, name := SourceBlock(orig, patches), NameInsertion(custom);
            Insert(Insert(pkgbuild, PREPARE, block), MAJOR, name) == Insert(Insert(pkgbuild, MAJOR, name), PREPARE, block)
            <==> OrderIndifferent(pkgbuild, block)
  {
    var block, name := SourceBlock(orig, patches), NameInsertion(custom);
    SafeNameIsNeutral(custom);
    assert block[0] == 's' && name[0] == '\n' && name[1] == '\n';
    if FindFrom(block, MAJOR, 0).None? {
      InsertionsCommuteExactly(pkgbuild, PREPARE, block, MAJOR, name);
      assert (block + name)[0] == 's' && (name + block)[0] == '\n';
    } else {
      CommuteWithMarkerInBlock(pkgbuild, orig, patches, name);
    }
  }

  lemma PointOnFirstLine(text: string, marker: string, m: nat)
    requires marker != "" && OccursAt(text, marker, m) && 0 < m && text[0] == '\n'
    requires forall j | 0 < j <= m :: text[j] != '\n'
    requires forall j | 0 <= j < m :: text[j] != marker[0]
    ensures InsertionPoint(text, marker) == Some(0)
  {
    forall j: nat | j < m ensures !OccursAt(text, marker, j) {
      if OccursAt(text, marker, j) {
        OccurrenceStarts(text, marker, j);
      }
    }
    FirstIs(text, marker, m);
    LastIndexIs(text[..m + 1], '\n', 0);
  }

  const ONE_LINE := "\n_major=prepare()"

  /** Both markers on one line: whatever is spliced, the order shows. */
  lemma OneLineOrderShows(orig: seq<string>, patches: seq<string>, custom: string)
    requires SafeCustomName(custom)
    ensures var block, name := SourceBlock(orig, patches), NameInsertion(custom);
            Insert(Insert(ONE_LINE, PREPARE, block), MAJOR, name) != Insert(Insert(ONE_LINE, MAJOR, name), PREPARE, block)
  {
    assert ONE_LINE[1..8] == MAJOR && ONE_LINE[8..17] == PREPARE;
    PointOnFirstLine(ONE_LINE, MAJOR, 1);
    PointOnFirstLine(ONE_LINE, PREPARE, 8);
    hide FindFrom, InsertionPoint, Insert;
    SplicesCommuteExactly(ONE_LINE, orig, patches, custom);
  }

  const TWO_LINES := "\nprepare()\n_major="

  /** Different places are not enough when a patch is named like the other marker. */
  lemma PatchNamedLikeMarker(custom: string)
    requires SafeCustomName(custom)
    ensures var block, name := SourceBlock([], ["_major=.patch"]), NameInsertion(custom);
            Insert(Insert(TWO_LINES, PREPARE, block), MAJOR, name) != Insert(Insert(TWO_LINES, MAJOR, name), PREPARE, block)
  {
    var patch := "_major=.patch";
    var block := SourceBlock([], [patch]);
    assert QuotedSources([]) + QuotedAll([patch]) == [Quoted(patch)];
    assert block == "source=(\n" + Quoted(patch) + ")\n";
    assert block[10..17] == MAJOR;
    assert TWO_LINES[1..10] == PREPARE;
    PointOnFirstLine(TWO_LINES, PREPARE, 1);
    hide FindFrom, InsertionPoint, Insert;
    assert OccursAt(block, MAJOR, 10);
    SplicesCommuteExactly(TWO_LINES, [], [patch], custom);
  }
}
