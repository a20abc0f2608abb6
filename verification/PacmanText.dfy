/** What the lines of pacman.conf mean to the mINI parser, and reading a listed document back
    (crates/cachyos-kernel-manager-alpm/src/pacman_conf.rs). */
module PacmanText {
  import opened Text
  import opened Sequences
  import opened PacmanConf

  // ---------- one line ----------

  /** A closing bracket in front of every semicolon. */
  predicate ClosesAt(line: string, c: nat) {
    c < |line| && line[c] == ']' && ';' !in line[..c]
  }

  lemma BeforeCommentExactly(line: string)
    ensures BeforeComment(line) <= line && ';' !in BeforeComment(line)
    ensures BeforeComment(line) != line ==> line[|BeforeComment(line)|] == ';'
  {
    var pos := FindFrom(line, ";", 0);
    var before := BeforeComment(line);
    assert pos.Some? ==> line[pos.value..pos.value + 1] == ";";
    forall i | 0 <= i < |before| ensures before[i] != ';' {
      assert line[i..i + 1] == [line[i]];
      assert !OccursAt(line, ";", i);
    }
  }

  /** A line opens a section exactly when it starts with `[` and a `]` stands in front of every `;`;
      the name is what stands strictly between the first bracket and the last such one, trimmed and in
      small letters. */
  lemma {:induction false} HeaderExactly(line: string) returns (c: nat)
    requires line != ""
    ensures HeaderName(line).Some? <==> line[0] == '[' && exists d: nat :: ClosesAt(line, d)
    ensures HeaderName(line).Some? ==>
              c >= 1 && ClosesAt(line, c) && (forall d: nat :: ClosesAt(line, d) ==> d <= c)
              && HeaderName(line).value == Lower(Trim(line[1..c]))
  {
    BeforeCommentExactly(line);
    hide BeforeComment, LastIndex;
    var before := BeforeComment(line);
    var closing := LastIndex(before, ']');
    c := if closing.Some? then closing.value else 0;
    forall d: nat ensures ClosesAt(line, d) <==> d < |before| && before[d] == ']' {
      if d < |before| {
        assert line[..d] == before[..d];
      } else if |before| < d < |line| {
        assert line[..d][|before|] == ';';
      }
    }
    if closing.Some? {
      assert ClosesAt(line, c);
      if c >= 1 {
        assert before[1..c] == line[1..c];
      }
    }
  }

  predicate Readable(c: char) {
    c != '\0' && c != '\r'
  }

  function SameChar(c: char): char {
    c
  }

  /** NUL and carriage return are dropped, the other characters kept in order. */
  lemma {:induction false} ReadableExactly(s: string) returns (origin: seq<nat>)
    ensures Sifts(s, Readable, SameChar, WithoutNulAndCr(s), origin)
  {
    hide Sifts;
    if s == "" {
      origin := [];
      SiftsNone(Readable, SameChar);
    } else {
      var rest := WithoutNulAndCr(s[1..]);
      origin := ReadableExactly(s[1..]);
      origin := SiftsCons(s[0], s[1..], Readable, SameChar, rest, origin);
      assert s == [s[0]] + s[1..];
      assert WithoutNulAndCr(s) == if Readable(s[0]) then [SameChar(s[0])] + rest else rest;
    }
  }

  // ---------- texts that list a document ----------

  /** A line as the parser looks at it. */
  function Tidy(rawLine: string): string {
    Trim(WithoutNulAndCr(rawLine))
  }

  /** An empty line or a comment. */
  predicate SaysNothing(t: string) {
    t == "" || t[0] == '#' || t[0] == ';'
  }

  /** `[name]`, in any case and with any spaces inside. */
  predicate Opens(t: string, name: string) {
    |t| >= 2 && t[0] == '[' && t[|t| - 1] == ']' && ';' !in t && Lower(Trim(t[1..|t| - 1])) == name
  }

  /** `key = value`, the key in any case and with any spaces around the `=` at `e`; a `[` that nothing
      closes is part of the key. */
  predicate SetsAt(t: string, e: nat, key: string, value: string) {
    && e < |t| && t[e] == '=' && '=' !in t[..e] && (e > 0 ==> t[e - 1] != '\\')
    && !SaysNothing(t) && (t[0] == '[' ==> forall d | 0 <= d < |t| :: !ClosesAt(t, d))
    && Lower(Trim(t[..e])) == key && Trim(t[e + 1..]) == value
  }

  ghost predicate Sets(t: string, entry: Entry) {
    exists e: nat :: SetsAt(t, e, entry.0, entry.1)
  }

  lemma ReadNothing(rawLine: string, at: Cursor)
    requires SaysNothing(Tidy(rawLine))
    ensures LineFacts(rawLine, at) == ([], at)
  {
  }

  lemma {:induction false} ReadHeader(rawLine: string, at: Cursor, name: string)
    requires Opens(Tidy(rawLine), name)
    ensures LineFacts(rawLine, at) == ([Mention(name)], Cursor(name, true, at.preSectionCounter))
  {
    hide Tidy;
    var t := Tidy(rawLine);
    var c := HeaderExactly(t);
    assert ClosesAt(t, |t| - 1);
    assert c == |t| - 1;
    assert Trim(WithoutNulAndCr(rawLine)) == t by {
      TidyMeans(rawLine);
    }
    hide HeaderName, EqualsAt, Lower, Trim, WithoutNulAndCr;
  }

  lemma TidyMeans(rawLine: string)
    ensures Tidy(rawLine) == Trim(WithoutNulAndCr(rawLine))
  {
  }

  lemma {:induction false} KeyRead(t: string, e: nat, key: string, value: string)
    requires SetsAt(t, e, key, value)
    ensures HeaderName(t).None? && EqualsAt(t) == Some(e) && KeyOf(t, e) == key && ValueOf(t, e) == value
  {
    KeyEndsExactly(t);
    var _ := HeaderExactly(t);
    forall i: nat | i < e ensures !Unescaped(t, i) {
      assert t[..e][i] == t[i];
    }
    assert Unescaped(t, e);
    var front, behind := TrimParts(t[..e]);
    assert '=' !in Trim(t[..e]) by {
      assert forall c | c in Trim(t[..e]) :: c in front + Trim(t[..e]) + behind;
    }
    hide HeaderName, EqualsAt, Lower, Trim, Replace, Unescaped;
    ReplaceAbsent(Trim(t[..e]), ESCAPED, "=", '=');
  }

  lemma {:induction false} ReadEntry(rawLine: string, at: Cursor, entry: Entry)
    requires Sets(Tidy(rawLine), entry)
    ensures at.inSection ==> LineFacts(rawLine, at) == ([Assign(at.section, entry.0, entry.1)], at)
    ensures !at.inSection ==>
              var auto := Decimal(at.preSectionCounter);
              LineFacts(rawLine, at)
              == ([Mention(auto), Assign(auto, entry.0, entry.1)], at.(preSectionCounter := at.preSectionCounter + 1))
  {
    var t := Tidy(rawLine);
    var e: nat :| SetsAt(t, e, entry.0, entry.1);
    KeyRead(t, e, entry.0, entry.1);
    hide HeaderName, EqualsAt, KeyOf, ValueOf, Lower, Trim, WithoutNulAndCr, Decimal;
  }

  // ---------- reading a listed document back ----------

  /** The line list that says `top` before any section, then the sections of `doc` with their entries,
      with empty lines and comments anywhere in between. */
  ghost predicate Lists(lines: seq<string>, top: seq<Entry>, doc: seq<Section>)
    decreases |lines|
  {
    if lines == [] then top == [] && doc == []
    else
      var before, t := lines[..|lines| - 1], Tidy(lines[|lines| - 1]);
      || (SaysNothing(t) && Lists(before, top, doc))
      || (doc == [] && top != [] && Sets(t, Last(top)) && Lists(before, Front(top), []))
      || (doc != [] && Last(doc).entries == [] && Opens(t, Last(doc).name) && Lists(before, top, Front(doc)))
      || (doc != [] && Last(doc).entries != [] && Sets(t, Last(Last(doc).entries)) && Lists(before, top, WithoutLastEntry(doc)))
  }

  function Last<T>(xs: seq<T>): T
    requires xs != []
  {
    xs[|xs| - 1]
  }

  function Front<T>(xs: seq<T>): seq<T>
    requires xs != []
  {
    xs[..|xs| - 1]
  }

  function WithoutLastEntry(doc: seq<Section>): seq<Section>
    requires doc != [] && Last(doc).entries != []
  {
    Front(doc) + [Section(Last(doc).name, Front(Last(doc).entries))]
  }

  /** The sections of the entries before any header: one each, numbered. */
  function Autos(top: seq<Entry>): seq<Section> {
    seq(|top|, i requires 0 <= i < |top| => Section(Decimal(i), [top[i]]))
  }

  /** Section names differ, those of the numbered ones included, and the keys of a section differ. */
  predicate Distinct(sections: seq<Section>) {
    && (forall i, j | 0 <= i < j < |sections| :: sections[i].name != sections[j].name)
    && (forall i, m, n | 0 <= i < |sections| && 0 <= m < n < |sections[i].entries| ::
          sections[i].entries[m].0 != sections[i].entries[n].0)
  }

  function EndOf(top: seq<Entry>, doc: seq<Section>): Cursor {
    Cursor(if doc == [] then "" else Last(doc).name, doc != [], |top|)
  }

  lemma OpenStep(facts: seq<Fact>, sections: seq<Section>, name: string)
    requires Document(facts) == sections && forall i | 0 <= i < |sections| :: sections[i].name != name
    ensures Document(facts + [Mention(name)]) == sections + [Section(name, [])]
  {
    MentionStep(facts, name);
    hide Document;
  }

  lemma SetStep(facts: seq<Fact>, front: seq<Section>, name: string, entries: seq<Entry>, entry: Entry)
    requires Document(facts) == front + [Section(name, entries)]
    requires forall i | 0 <= i < |front| :: front[i].name != name
    requires forall i | 0 <= i < |entries| :: entries[i].0 != entry.0
    ensures Document(facts + [Assign(name, entry.0, entry.1)]) == front + [Section(name, entries + [entry])]
  {
    var sections := front + [Section(name, entries)];
    assert HasSection(sections, name) by {
      assert sections[|front|].name == name;
    }
    DocumentHas(facts, name);
    AssignStep(facts, name, entry.0, entry.1);
    PutMisses(entries, entry.0, entry.1);
    hide Document, Put, Names;
  }

  lemma DistinctOpened(auto: seq<Section>, doc: seq<Section>)
    requires doc != [] && Distinct(auto + doc)
    ensures Distinct(auto + Front(doc))
    ensures forall i | 0 <= i < |auto + Front(doc)| :: (auto + Front(doc))[i].name != Last(doc).name
  {
    var all := auto + doc;
    assert forall i | 0 <= i < |auto + Front(doc)| :: (auto + Front(doc))[i] == all[i];
    assert all[|all| - 1] == Last(doc);
  }

  lemma DistinctSet(auto: seq<Section>, doc: seq<Section>)
    requires doc != [] && Last(doc).entries != [] && Distinct(auto + doc)
    ensures Distinct(auto + WithoutLastEntry(doc))
    ensures forall i | 0 <= i < |auto + Front(doc)| :: (auto + Front(doc))[i].name != Last(doc).name
    ensures forall i | 0 <= i < |Last(doc).entries| - 1 :: Last(doc).entries[i].0 != Last(Last(doc).entries).0
  {
    DistinctOpened(auto, doc);
    var all, fewer := auto + doc, auto + WithoutLastEntry(doc);
    assert all[|all| - 1] == Last(doc);
    assert forall i | 0 <= i < |all| - 1 :: fewer[i] == all[i];
    assert fewer[|all| - 1] == Section(Last(doc).name, Front(Last(doc).entries));
  }

  /** The lines read so far say exactly this document, and where the reader stands. */
  ghost predicate Says(lines: seq<string>, top: seq<Entry>, doc: seq<Section>) {
    Document(Facts(lines).0) == Autos(top) + doc && Facts(lines).1 == EndOf(top, doc)
  }

  lemma LastLine(lines: seq<string>)
    requires lines != []
    ensures var before := Facts(Front(lines));
            var here := LineFacts(Last(lines), before.1);
            Facts(lines) == (before.0 + here.0, here.1)
  {
  }

  lemma NothingCase(lines: seq<string>, top: seq<Entry>, doc: seq<Section>)
    requires lines != [] && SaysNothing(Tidy(Last(lines))) && Says(Front(lines), top, doc)
    ensures Says(lines, top, doc)
  {
    LastLine(lines);
    ReadNothing(Last(lines), EndOf(top, doc));
    hide Facts, LineFacts, Document;
    assert Facts(Front(lines)).0 + [] == Facts(Front(lines)).0;
  }

  lemma HeaderCase(lines: seq<string>, top: seq<Entry>, doc: seq<Section>)
    requires lines != [] && doc != [] && Last(doc).entries == [] && Distinct(Autos(top) + doc)
    requires Opens(Tidy(Last(lines)), Last(doc).name) && Says(Front(lines), top, Front(doc))
    ensures Says(lines, top, doc)
  {
    hide Facts, LineFacts, Document, Opens, Tidy, Autos, Distinct;
    LastLine(lines);
    ReadHeader(Last(lines), EndOf(top, Front(doc)), Last(doc).name);
    DistinctOpened(Autos(top), doc);
    OpenStep(Facts(Front(lines)).0, Autos(top) + Front(doc), Last(doc).name);
    assert Autos(top) + Front(doc) + [Section(Last(doc).name, [])] == Autos(top) + doc;
  }

  lemma EntryCase(lines: seq<string>, top: seq<Entry>, doc: seq<Section>)
    requires lines != [] && doc != [] && Last(doc).entries != [] && Distinct(Autos(top) + doc)
    requires Sets(Tidy(Last(lines)), Last(Last(doc).entries)) && Says(Front(lines), top, WithoutLastEntry(doc))
    ensures Says(lines, top, doc)
  {
    hide Facts, LineFacts, Document, Sets, Tidy, Autos, Distinct;
    var s := Last(doc);
    LastLine(lines);
    ReadEntry(Last(lines), EndOf(top, WithoutLastEntry(doc)), Last(s.entries));
    DistinctSet(Autos(top), doc);
    assert Autos(top) + WithoutLastEntry(doc) == Autos(top) + Front(doc) + [Section(s.name, Front(s.entries))];
    SetStep(Facts(Front(lines)).0, Autos(top) + Front(doc), s.name, Front(s.entries), Last(s.entries));
    assert Front(s.entries) + [Last(s.entries)] == s.entries;
    assert Autos(top) + Front(doc) + [s] == Autos(top) + doc;
  }

  lemma AutoCase(lines: seq<string>, top: seq<Entry>)
    requires lines != [] && top != [] && Distinct(Autos(top))
    requires Sets(Tidy(Last(lines)), Last(top)) && Says(Front(lines), Front(top), [])
    ensures Says(lines, top, [])
  {
    hide Facts, LineFacts, Document, Sets, Tidy, Autos, Decimal, Distinct;
    var before, auto := Facts(Front(lines)).0, Decimal(|top| - 1);
    LastLine(lines);
    ReadEntry(Last(lines), EndOf(Front(top), []), Last(top));
    LastAuto(top);
    OpenStep(before, Autos(Front(top)), auto);
    SetStep(before + [Mention(auto)], Autos(Front(top)), auto, [], Last(top));
    assert before + [Mention(auto), Assign(auto, Last(top).0, Last(top).1)]
           == before + [Mention(auto)] + [Assign(auto, Last(top).0, Last(top).1)];
    assert [] + [Last(top)] == [Last(top)];
  }

  lemma LastAuto(top: seq<Entry>)
    requires top != [] && Distinct(Autos(top))
    ensures Autos(top) == Autos(Front(top)) + [Section(Decimal(|top| - 1), [Last(top)])]
    ensures Autos(top) + [] == Autos(top) && Autos(Front(top)) + [] == Autos(Front(top))
    ensures forall i | 0 <= i < |Autos(Front(top))| :: Autos(Front(top))[i].name != Decimal(|top| - 1)
  {
    hide Decimal;
    assert forall i | 0 <= i < |top| - 1 :: Autos(Front(top))[i] == Autos(top)[i];
    assert Autos(top)[|top| - 1].name == Decimal(|top| - 1);
    forall i | 0 <= i < |Autos(Front(top))| ensures Autos(Front(top))[i].name != Decimal(|top| - 1) {
      assert Autos(top)[i].name != Autos(top)[|top| - 1].name;
    }
  }

  /** The numbered names differ of themselves. */
  lemma {:induction false} NumberedDistinct(top: seq<Entry>, doc: seq<Section>)
    requires Distinct(doc) && forall s, i: nat | s in doc && i < |top| :: s.name != Decimal(i)
    ensures Distinct(Autos(top) + doc)
  {
    var all := Autos(top) + doc;
    forall i, j | 0 <= i < j < |all| ensures all[i].name != all[j].name {
      if j < |top| {
        DecimalRead(i);
        DecimalRead(j);
      } else if i < |top| {
        assert all[j] in doc;
      } else {
        assert all[i] == doc[i - |top|] && all[j] == doc[j - |top|];
      }
    }
    forall i, m, n | 0 <= i < |all| && 0 <= m < n < |all[i].entries| ensures all[i].entries[m].0 != all[i].entries[n].0 {
      if i >= |top| {
        assert all[i] == doc[i - |top|];
      }
    }
  }

  lemma DistinctFront(top: seq<Entry>)
    requires top != [] && Distinct(Autos(top))
    ensures Distinct(Autos(Front(top)))
  {
    assert forall i | 0 <= i < |top| - 1 :: Autos(Front(top))[i] == Autos(top)[i];
  }

  /** The document comes back, whatever the text's spacing, case of names and keys, comments and empty
      lines. */
  lemma {:induction false} ListedReadsBack(lines: seq<string>, top: seq<Entry>, doc: seq<Section>)
    requires Lists(lines, top, doc) && Distinct(Autos(top) + doc)
    ensures Says(lines, top, doc)
    decreases |lines|
  {
    hide Says, Facts, Autos, Distinct, SaysNothing, Opens, Sets, Tidy;
    if lines == [] {
      NoLines();
    } else {
      var before, t := Front(lines), Tidy(Last(lines));
      if SaysNothing(t) && Lists(before, top, doc) {
        ListedReadsBack(before, top, doc);
        NothingCase(lines, top, doc);
      } else if doc == [] && top != [] && Sets(t, Last(top)) && Lists(before, Front(top), []) {
        assert Autos(top) + doc == Autos(top) && Autos(Front(top)) + [] == Autos(Front(top));
        DistinctFront(top);
        ListedReadsBack(before, Front(top), []);
        AutoCase(lines, top);
      } else if doc != [] && Last(doc).entries == [] && Opens(t, Last(doc).name) && Lists(before, top, Front(doc)) {
        DistinctOpened(Autos(top), doc);
        ListedReadsBack(before, top, Front(doc));
        HeaderCase(lines, top, doc);
      } else {
        DistinctSet(Autos(top), doc);
        ListedReadsBack(before, top, WithoutLastEntry(doc));
        EntryCase(lines, top, doc);
      }
    }
  }

  lemma NoLines()
    ensures Says([], [], [])
  {
    assert Autos([]) + [] == [];
  }

  /** For the parser: a text that lists a document is read as that document. */
  lemma {:induction false} TextReadsBack(lines: seq<string>, top: seq<Entry>, doc: seq<Section>)
    requires lines != [] && forall line | line in lines :: '\n' !in line
    requires Lists(lines, top, doc) && Distinct(doc)
    requires forall s, i: nat | s in doc && i < |top| :: s.name != Decimal(i)
    ensures Document(Facts(Split(Join(lines, '\n'), '\n')).0) == Autos(top) + doc
  {
    hide Lists, Distinct, Autos, Decimal;
    SplitJoin(lines, '\n');
    NumberedDistinct(top, doc);
    ListedReadsBack(lines, top, doc);
  }

  /** The file is read, and which databases it registers. */
  method ReadBack(lines: seq<string>, top: seq<Entry>, doc: seq<Section>) returns (ini: MiniIni)
    requires lines != [] && forall line | line in lines :: '\n' !in line
    requires Lists(lines, top, doc) && Distinct(doc)
    requires forall s, i: nat | s in doc && i < |top| :: s.name != Decimal(i)
    ensures fresh(ini) && ini.Valid() && ini.sections == Autos(top) + doc
  {
    TextReadsBack(lines, top, doc);
    ini := new MiniIni.Parse(Join(lines, '\n'));
  }

  predicate Registers(s: Section) {
    s.name != "testing" && s.name != "options"
  }

  function SectionName(s: Section): string {
    s.name
  }

  /** The databases registered are the names of the other sections, in their order. */
  lemma {:induction false} RegisteredInOrder(sections: seq<Section>) returns (origin: seq<nat>)
    ensures Sifts(sections, Registers, SectionName, RegisterSections(sections), origin)
  {
    hide Sifts;
    if sections == [] {
      origin := [];
      SiftsNone(Registers, SectionName);
    } else {
      var before, s := RegisterSections(Front(sections)), Last(sections);
      origin := RegisteredInOrder(Front(sections));
      origin := SiftsSnoc(Front(sections), s, Registers, SectionName, before, origin);
      assert sections == Front(sections) + [s];
      assert RegisterSections(sections) == if Registers(s) then before + [SectionName(s)] else before;
    }
  }

  // ---------- printing a document ----------

  predicate PlainText(s: string) {
    '\0' !in s && '\r' !in s && '\n' !in s
  }

  predicate CleanName(name: string) {
    PlainText(name) && ';' !in name && Lower(name) == name && Trim(name) == name
  }

  predicate CleanEntry(entry: Entry) {
    var (key, value) := entry;
    && PlainText(key) && '=' !in key && Lower(key) == key && Trim(key) == key
    && key != "" && key[0] != '#' && key[0] != ';' && key[0] != '['
    && PlainText(value) && Trim(value) == value
  }

  predicate CleanSection(s: Section) {
    CleanName(s.name) && forall entry | entry in s.entries :: CleanEntry(entry)
  }

  function HeaderLine(name: string): string {
    "[" + name + "]"
  }

  function EntryLine(entry: Entry): string {
    entry.0 + " = " + entry.1
  }

  function Print(top: seq<Entry>, doc: seq<Section>): seq<string>
    decreases |doc|, if doc == [] then |top| else |Last(doc).entries|
  {
    if doc == [] then (if top == [] then [] else Print(Front(top), []) + [EntryLine(Last(top))])
    else if Last(doc).entries == [] then Print(top, Front(doc)) + [HeaderLine(Last(doc).name)]
    else Print(top, WithoutLastEntry(doc)) + [EntryLine(Last(Last(doc).entries))]
  }

  lemma {:induction false} NothingDropped(s: string)
    requires '\0' !in s && '\r' !in s
    ensures WithoutNulAndCr(s) == s
  {
    if s != "" {
      NothingDropped(s[1..]);
    }
  }

  lemma {:induction false} HeaderPrinted(name: string)
    requires CleanName(name)
    ensures Opens(Tidy(HeaderLine(name)), name)
  {
    var t := HeaderLine(name);
    NothingDropped(t);
    TrimFixed(t);
    assert !IsWhitespace('[') && !IsWhitespace(']');
    hide Trim, Lower, IsWhitespace, WithoutNulAndCr;
    assert t[1..|t| - 1] == name;
  }

  lemma {:induction false} SpaceTrimmed(s: string)
    requires Trim(s) == s
    ensures Trim(" " + s) == s && (s != "" ==> Trim(s + " ") == s)
  {
    TrimFixed(s);
    assert (" " + s)[1..] == s && TrimStart(" " + s) == TrimStart(s);
    if s != "" {
      assert (s + " ")[..|s|] == s && TrimEnd(s + " ") == TrimEnd(s);
    }
  }

  /** The line without the blank a missing value leaves. */
  function EntryText(entry: Entry): string {
    if entry.1 == "" then entry.0 + " =" else EntryLine(entry)
  }

  lemma {:induction false} EntryTidied(entry: Entry)
    requires CleanEntry(entry)
    ensures Tidy(EntryLine(entry)) == EntryText(entry)
  {
    var (key, value) := entry;
    var t := EntryText(entry);
    NothingDropped(EntryLine(entry));
    TrimFixed(key);
    TrimFixed(value);
    TrimFixed(t);
    assert !IsWhitespace('=');
    hide Trim, Lower, IsWhitespace, WithoutNulAndCr;
    assert t[0] == key[0] && t[|t| - 1] == if value == "" then '=' else value[|value| - 1];
    assert Trim(t) == t;
    SpaceTrimmed(t);
    assert value == "" ==> EntryLine(entry) == t + " ";
  }

  lemma EntryShape(entry: Entry)
    requires entry.0 != "" && '=' !in entry.0
    ensures var t, e := EntryText(entry), |entry.0| + 1;
            && e < |t| && t[e] == '=' && t[e - 1] == ' ' && t[0] == entry.0[0] && '=' !in t[..e]
            && t[..e] == entry.0 + " " && t[e + 1..] == if entry.1 == "" then "" else " " + entry.1
  {
    var t, e := EntryText(entry), |entry.0| + 1;
    assert t[..e] == entry.0 + " ";
  }

  lemma {:induction false} EntryPrinted(entry: Entry)
    requires CleanEntry(entry)
    ensures Sets(Tidy(EntryLine(entry)), entry)
  {
    hide Trim, Lower, Tidy, WithoutNulAndCr, EntryText, EntryLine, PlainText, ClosesAt;
    EntryTidied(entry);
    SpaceTrimmed(entry.0);
    SpaceTrimmed(entry.1);
    EntryShape(entry);
    assert SetsAt(EntryText(entry), |entry.0| + 1, entry.0, entry.1);
  }

  /** What is printed lists the document. */
  lemma {:induction false} PrintLists(top: seq<Entry>, doc: seq<Section>)
    requires forall entry | entry in top :: CleanEntry(entry)
    requires forall s | s in doc :: CleanSection(s)
    ensures Lists(Print(top, doc), top, doc)
    decreases |doc|, if doc == [] then |top| else |Last(doc).entries|
  {
    hide CleanName, CleanEntry, Opens, Sets, Tidy, SaysNothing;
    var lines := Print(top, doc);
    if doc == [] {
      if top != [] {
        PrintLists(Front(top), []);
        EntryPrinted(Last(top));
        assert Front(lines) == Print(Front(top), []);
      }
    } else if Last(doc).entries == [] {
      assert CleanSection(Last(doc));
      PrintLists(top, Front(doc));
      HeaderPrinted(Last(doc).name);
      assert Front(lines) == Print(top, Front(doc));
    } else {
      var s := Last(doc);
      assert CleanSection(s);
      assert CleanSection(Section(s.name, Front(s.entries)));
      PrintLists(top, WithoutLastEntry(doc));
      EntryPrinted(Last(s.entries));
      assert Front(lines) == Print(top, WithoutLastEntry(doc));
    }
  }

  /** Parsing undoes printing, for every clean document. */
  lemma {:induction false} PrintReadsBack(top: seq<Entry>, doc: seq<Section>)
    requires forall entry | entry in top :: CleanEntry(entry)
    requires forall s | s in doc :: CleanSection(s)
    requires Distinct(doc) && forall s, i: nat | s in doc && i < |top| :: s.name != Decimal(i)
    ensures Document(Facts(Print(top, doc)).0) == Autos(top) + doc
  {
    hide CleanSection, CleanEntry, Distinct, Lists, Autos, Decimal;
    PrintLists(top, doc);
    NumberedDistinct(top, doc);
    ListedReadsBack(Print(top, doc), top, doc);
  }
}
