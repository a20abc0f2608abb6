/** The mINI parser that reads pacman.conf
    (crates/cachyos-kernel-manager-alpm/src/pacman_conf.rs). */
module PacmanConf {
  import opened Text

  type Entry = (string, string)

  datatype Section = Section(name: string, entries: seq<Entry>)

  // ---------- what a text says ----------

  /** What a text says, line by line: it mentions sections and assigns keys in them. */
  datatype Fact = Mention(section: string) | Assign(section: string, key: string, value: string)

  /** The reader's place: the last section header, and how many keys came before any. */
  datatype Cursor = Cursor(section: string, inSection: bool, preSectionCounter: nat)

  function WithoutNulAndCr(s: string): string {
    if s == "" then "" else (if s[0] != '\0' && s[0] != '\r' then [s[0]] else []) + WithoutNulAndCr(s[1..])
  }

  /** The text before the first `;`. */
  function BeforeComment(line: string): string {
    var pos := FindFrom(line, ";", 0);
    if pos.Some? then line[..pos.value] else line
  }

  /** The section a header line names; `[` without a closing `]` is not a header. */
  function HeaderName(line: string): Option<string>
    requires line != ""
  {
    if line[0] != '[' then None
    else
      var noComment := BeforeComment(line);
      var closing := LastIndex(noComment, ']');
      if closing.None? then None
      else
        assert noComment[0] == line[0];
        Some(Lower(Trim(noComment[1..closing.value])))
  }

  const ESCAPED := "\\="

  /** Where the key ends. */
  function EqualsAt(line: string): (r: Option<nat>)
    ensures r.Some? ==> r.value < |line|
  {
    EscapesMasked(line);
    FindFrom(Replace(line, ESCAPED, "  "), "=", 0)
  }

  function KeyOf(line: string, e: nat): string
    requires e < |line|
  {
    Lower(Replace(Trim(line[..e]), ESCAPED, "="))
  }

  function ValueOf(line: string, e: nat): string
    requires e < |line|
  {
    Trim(line[e + 1..])
  }

  function LineFacts(rawLine: string, at: Cursor): (seq<Fact>, Cursor) {
    var line := Trim(WithoutNulAndCr(rawLine));
    if line == "" || line[0] == '#' || line[0] == ';' then ([], at)
    else
      var header := HeaderName(line);
      if header.Some? then ([Mention(header.value)], Cursor(header.value, true, at.preSectionCounter))
      else
        var e := EqualsAt(line);
        if e.None? then ([], at)
        else if at.inSection then ([Assign(at.section, KeyOf(line, e.value), ValueOf(line, e.value))], at)
        else
          var auto := Decimal(at.preSectionCounter);
          ([Mention(auto), Assign(auto, KeyOf(line, e.value), ValueOf(line, e.value))],
           at.(preSectionCounter := at.preSectionCounter + 1))
  }

  const TOP := Cursor("", false, 0)

  function Facts(lines: seq<string>): (seq<Fact>, Cursor) {
    if lines == [] then ([], TOP)
    else
      var n := |lines| - 1;
      var before := Facts(lines[..n]);
      var here := LineFacts(lines[n], before.1);
      (before.0 + here.0, here.1)
  }

  // ---------- the document those facts describe ----------

  /** Section names in order of first mention. */
  function Names(facts: seq<Fact>): seq<string> {
    if facts == [] then []
    else
      var n := |facts| - 1;
      var before := Names(facts[..n]);
      if facts[n].section in before then before else before + [facts[n].section]
  }

  /** A section's keys in order of first assignment. */
  function Keys(facts: seq<Fact>, section: string): seq<string> {
    if facts == [] then []
    else
      var n := |facts| - 1;
      var before := Keys(facts[..n], section);
      if facts[n].Assign? && facts[n].section == section && facts[n].key !in before then before + [facts[n].key] else before
  }

  /** The last value assigned. */
  function LastValue(facts: seq<Fact>, section: string, key: string): string {
    if facts == [] then ""
    else
      var n := |facts| - 1;
      if facts[n].Assign? && facts[n].section == section && facts[n].key == key then facts[n].value
      else LastValue(facts[..n], section, key)
  }

  function Entries(facts: seq<Fact>, section: string): seq<Entry> {
    var keys := Keys(facts, section);
    seq(|keys|, i requires 0 <= i < |keys| => (keys[i], LastValue(facts, section, keys[i])))
  }

  function Document(facts: seq<Fact>): seq<Section> {
    var names := Names(facts);
    seq(|names|, i requires 0 <= i < |names| => Section(names[i], Entries(facts, names[i])))
  }

  // ---------- the parser ----------

  class MiniIni {
    var sections: seq<Section>
    var index: map<string, nat>

    /** `index` is the exact inverse of the section list. */
    ghost predicate Valid()
      reads this
    {
      && (forall i | 0 <= i < |sections| :: sections[i].name in index && index[sections[i].name] == i)
      && (forall name | name in index :: index[name] < |sections| && sections[index[name]].name == name)
    }

    constructor Parse(content: string)
      ensures Valid()
      ensures sections == Document(Facts(Split(content, '\n')).0)
    {
      sections, index := [], map[];
      new;
      var at := TOP;
      var lines := Split(content, '\n');
      ghost var facts: seq<Fact> := [];
      for i := 0 to |lines|
        invariant Valid()
        invariant Facts(lines[..i]) == (facts, at)
        invariant sections == Document(facts)
        invariant at.inSection ==> at.section in Names(facts)
      {
        FactsStep(lines, i);
        ghost var here := LineFacts(lines[i], at).0;
        at := ParseLine(lines[i], at, facts);
        facts := facts + here;
      }
      assert lines[..|lines|] == lines;
    }

    /** The loop body of `parse`. */
    method ParseLine(rawLine: string, at: Cursor, ghost facts: seq<Fact>) returns (next: Cursor)
      requires Valid() && sections == Document(facts)
      requires at.inSection ==> at.section in Names(facts)
      modifies this
      ensures Valid()
      ensures next == LineFacts(rawLine, at).1
      ensures sections == Document(facts + LineFacts(rawLine, at).0)
      ensures next.inSection ==> next.section in Names(facts + LineFacts(rawLine, at).0)
    {
      hide FindFrom, LastIndex, Replace, Trim, Lower, Decimal, WithoutNulAndCr, BeforeComment, EqualsAt, KeyOf, ValueOf;
      hide Document, Names, WithSection, WithValue, HasSection, Valid;
      assert facts + [] == facts;
      next := at;
      var line := Trim(WithoutNulAndCr(rawLine));
      if line == "" || line[0] == '#' {
        return;
      }
      if line[0] == ';' {
        return;
      }
      if line[0] == '[' {
        var header := HeaderName(line);
        if header.Some? {
          next := next.(section := header.value);
          MentionStep(facts, next.section);
          EnsureSection(next.section);
          next := next.(inSection := true);
          return;
        }
      }
      var equalsAt := EqualsAt(line);
      if equalsAt.Some? {
        var key, value := KeyOf(line, equalsAt.value), ValueOf(line, equalsAt.value);
        if at.inSection {
          AssignStep(facts, at.section, key, value);
          SetValue(at.section, key, value);
        } else {
          var auto := Decimal(at.preSectionCounter);
          next := next.(preSectionCounter := at.preSectionCounter + 1);
          MentionStep(facts, auto);
          EnsureSection(auto);
          AssignStep(facts + [Mention(auto)], auto, key, value);
          SetValue(auto, key, value);
          assert facts + [Mention(auto), Assign(auto, key, value)] == facts + [Mention(auto)] + [Assign(auto, key, value)];
        }
      }
    }

    method EnsureSection(name: string)
      requires Valid()
      modifies this
      ensures Valid()
      ensures sections == WithSection(old(sections), name)
    {
      if name !in index {
        index := index[name := |sections|];
        sections := sections + [Section(name, [])];
      }
    }

    /** The lookup of the section cannot fail. */
    method SetValue(section: string, key: string, value: string)
      requires Valid() && HasSection(sections, section)
      modifies this
      ensures Valid()
      ensures sections == WithValue(old(sections), section, key, value)
    {
      assert section in index;
      var idx := index[section];
      var kv := sections[idx].entries;
      var j := 0;
      while j < |kv| && kv[j].0 != key
        invariant j <= |kv| && forall i | 0 <= i < j :: kv[i].0 != key
      {
        j := j + 1;
      }
      kv := if j < |kv| then kv[j := (key, value)] else kv + [(key, value)];
      SetValueAt(sections, idx, key, value, j);
      sections := sections[idx := Section(section, kv)];
    }
  }

  predicate HasSection(sections: seq<Section>, name: string) {
    exists s | s in sections :: s.name == name
  }

  function WithSection(sections: seq<Section>, name: string): seq<Section> {
    if HasSection(sections, name) then sections else sections + [Section(name, [])]
  }

  /** Replaces the value of the key where it stands, or appends it. */
  function Put(entries: seq<Entry>, key: string, value: string): seq<Entry> {
    if entries == [] then [(key, value)]
    else if entries[0].0 == key then [(key, value)] + entries[1..]
    else [entries[0]] + Put(entries[1..], key, value)
  }

  function WithValue(sections: seq<Section>, section: string, key: string, value: string): seq<Section> {
    seq(|sections|, i requires 0 <= i < |sections| =>
      if sections[i].name == section then Section(section, Put(sections[i].entries, key, value)) else sections[i])
  }

  lemma {:induction false} PutAt(entries: seq<Entry>, key: string, value: string, j: nat)
    requires j <= |entries| && forall i | 0 <= i < j :: entries[i].0 != key
    requires j < |entries| ==> entries[j].0 == key
    ensures Put(entries, key, value)
            == if j < |entries| then entries[j := (key, value)] else entries + [(key, value)]
  {
    if entries != [] && j > 0 {
      PutAt(entries[1..], key, value, j - 1);
    }
  }

  lemma SetValueAt(sections: seq<Section>, idx: nat, key: string, value: string, j: nat)
    requires idx < |sections|
    requires forall i | 0 <= i < |sections| && i != idx :: sections[i].name != sections[idx].name
    requires var kv := sections[idx].entries;
             j <= |kv| && (forall i | 0 <= i < j :: kv[i].0 != key) && (j < |kv| ==> kv[j].0 == key)
    ensures var kv := sections[idx].entries;
            WithValue(sections, sections[idx].name, key, value)
            == sections[idx := Section(sections[idx].name, if j < |kv| then kv[j := (key, value)] else kv + [(key, value)])]
  {
    PutAt(sections[idx].entries, key, value, j);
  }

  // ---------- facts arrive one at a time ----------

  lemma FactsStep(lines: seq<string>, i: nat)
    requires i < |lines|
    ensures var before := Facts(lines[..i]);
            var here := LineFacts(lines[i], before.1);
            Facts(lines[..i + 1]) == (before.0 + here.0, here.1)
  {
    assert lines[..i + 1][..i] == lines[..i];
  }

  lemma DocumentHas(facts: seq<Fact>, name: string)
    ensures HasSection(Document(facts), name) <==> name in Names(facts)
  {
    if name in Names(facts) {
      var i :| 0 <= i < |Names(facts)| && Names(facts)[i] == name;
      assert Document(facts)[i].name == name;
    }
  }

  lemma {:induction false} NoKeysUnmentioned(facts: seq<Fact>, name: string)
    requires name !in Names(facts)
    ensures Keys(facts, name) == []
  {
    if facts != [] {
      NoKeysUnmentioned(facts[..|facts| - 1], name);
    }
  }

  lemma {:induction false} MentionStep(facts: seq<Fact>, name: string)
    ensures Document(facts + [Mention(name)]) == WithSection(Document(facts), name)
    ensures name in Names(facts + [Mention(name)])
  {
    var more := facts + [Mention(name)];
    assert more[..|facts|] == facts;
    DocumentHas(facts, name);
    forall s ensures Entries(more, s) == Entries(facts, s) {
      assert Keys(more, s) == Keys(facts, s);
    }
    if name !in Names(facts) {
      NoKeysUnmentioned(facts, name);
    }
  }

  lemma {:induction false} PutMisses(entries: seq<Entry>, key: string, value: string)
    requires forall i | 0 <= i < |entries| :: entries[i].0 != key
    ensures Put(entries, key, value) == entries + [(key, value)]
  {
    if entries != [] {
      PutMisses(entries[1..], key, value);
    }
  }

  lemma {:induction false} KeysDistinct(facts: seq<Fact>, section: string)
    ensures forall i, j | 0 <= i < j < |Keys(facts, section)| :: Keys(facts, section)[i] != Keys(facts, section)[j]
  {
    if facts != [] {
      KeysDistinct(facts[..|facts| - 1], section);
    }
  }

  lemma {:induction false} EntriesStep(facts: seq<Fact>, section: string, key: string, value: string)
    ensures Entries(facts + [Assign(section, key, value)], section) == Put(Entries(facts, section), key, value)
  {
    hide Put;
    var more := facts + [Assign(section, key, value)];
    assert more[..|facts|] == facts;
    var keys, entries := Keys(facts, section), Entries(facts, section);
    if key in keys {
      var j :| 0 <= j < |keys| && keys[j] == key;
      KeysDistinct(facts, section);
      PutAt(entries, key, value, j);
      assert Entries(more, section) == entries[j := (key, value)];
    } else {
      PutMisses(entries, key, value);
      assert Entries(more, section) == entries + [(key, value)];
    }
  }

  lemma {:induction false} AssignStep(facts: seq<Fact>, section: string, key: string, value: string)
    requires section in Names(facts)
    ensures Document(facts + [Assign(section, key, value)]) == WithValue(Document(facts), section, key, value)
    ensures Names(facts + [Assign(section, key, value)]) == Names(facts)
    ensures HasSection(Document(facts), section)
  {
    var more := facts + [Assign(section, key, value)];
    assert more[..|facts|] == facts;
    DocumentHas(facts, section);
    EntriesStep(facts, section, key, value);
    forall s | s != section ensures Entries(more, s) == Entries(facts, s) {
      assert Keys(more, s) == Keys(facts, s);
    }
  }

  // ---------- what the document means ----------

  /** Fact `t` is the first that mentions its section. */
  predicate FirstMention(facts: seq<Fact>, t: nat) {
    t < |facts| && forall u | 0 <= u < t :: facts[u].section != facts[t].section
  }

  lemma FirstMentionKept(facts: seq<Fact>, n: nat, t: nat)
    requires n <= |facts| && FirstMention(facts[..n], t)
    ensures FirstMention(facts, t) && facts[t] == facts[..n][t]
  {
    forall u | 0 <= u < t ensures facts[u].section != facts[t].section {
      assert facts[..n][u] == facts[u];
    }
  }

  lemma NewIsFirstMention(facts: seq<Fact>, n: nat)
    requires n < |facts| && forall f | f in facts[..n] :: f.section != facts[n].section
    ensures FirstMention(facts, n)
  {
    forall u | 0 <= u < n ensures facts[u].section != facts[n].section {
      assert facts[..n][u] in facts[..n];
    }
  }

  /** Sections are listed once each, exactly those mentioned, in order of first mention. */
  lemma {:induction false} NamesMeaning(facts: seq<Fact>) returns (origin: seq<nat>)
    ensures |origin| == |Names(facts)|
    ensures forall i | 0 <= i < |origin| :: FirstMention(facts, origin[i]) && facts[origin[i]].section == Names(facts)[i]
    ensures forall i, j | 0 <= i < j < |origin| :: origin[i] < origin[j]
    ensures forall f | f in facts :: f.section in Names(facts)
    ensures forall i, j | 0 <= i < j < |origin| :: Names(facts)[i] != Names(facts)[j]
  {
    if facts == [] {
      origin := [];
    } else {
      var n := |facts| - 1;
      origin := NamesMeaning(facts[..n]);
      assert facts == facts[..n] + [facts[n]];
      forall i | 0 <= i < |origin| ensures FirstMention(facts, origin[i]) && facts[origin[i]] == facts[..n][origin[i]] {
        FirstMentionKept(facts, n, origin[i]);
      }
      if facts[n].section !in Names(facts[..n]) {
        NewIsFirstMention(facts, n);
        origin := origin + [n];
      }
      hide FirstMention;
    }
  }

  predicate Assigns(facts: seq<Fact>, t: nat, section: string, key: string) {
    t < |facts| && facts[t].Assign? && facts[t].section == section && facts[t].key == key
  }

  /** A section holds each assigned key, once. */
  lemma {:induction false} KeysMeaning(facts: seq<Fact>, section: string, key: string)
    ensures key in Keys(facts, section) <==> exists t: nat :: Assigns(facts, t, section, key)
    ensures forall i, j | 0 <= i < j < |Keys(facts, section)| :: Keys(facts, section)[i] != Keys(facts, section)[j]
  {
    KeysDistinct(facts, section);
    if facts != [] {
      var n := |facts| - 1;
      KeysMeaning(facts[..n], section, key);
      if exists t: nat :: Assigns(facts[..n], t, section, key) {
        var t: nat :| Assigns(facts[..n], t, section, key);
        assert Assigns(facts, t, section, key);
      }
      if exists t: nat :: Assigns(facts, t, section, key) {
        var t: nat :| Assigns(facts, t, section, key);
        assert t < n ==> Assigns(facts[..n], t, section, key);
      }
      if Assigns(facts, n, section, key) {
        assert key in Keys(facts, section);
      }
      assert key in Keys(facts, section) && key !in Keys(facts[..n], section) ==> Assigns(facts, n, section, key);
    }
  }

  /** Its value is the one last assigned anywhere in the text - also when the section was opened
      several times. */
  lemma {:induction false} LastAssignmentWins(facts: seq<Fact>, t: nat, section: string, key: string)
    requires Assigns(facts, t, section, key) && forall u: nat | t < u :: !Assigns(facts, u, section, key)
    ensures LastValue(facts, section, key) == facts[t].value
  {
    var n := |facts| - 1;
    if t < n {
      assert !Assigns(facts, n, section, key);
      forall u: nat | t < u ensures !Assigns(facts[..n], u, section, key) {
        assert !Assigns(facts, u, section, key);
      }
      LastAssignmentWins(facts[..n], t, section, key);
    }
  }

  /** Every section but two is registered as a sync database, in order. */
  function RegisterSections(sections: seq<Section>): seq<string> {
    if sections == [] then []
    else
      var n := |sections| - 1;
      var name := sections[n].name;
      RegisterSections(sections[..n]) + (if name != "testing" && name != "options" then [name] else [])
  }

  /** From the text of the configuration: exactly its sections but two, and none registered twice,
      however often the text opens it. */
  lemma {:induction false} RegisteredOnce(facts: seq<Fact>)
    ensures var names := RegisterSections(Document(facts));
            && (forall i, j | 0 <= i < j < |names| :: names[i] != names[j])
            && (forall name :: name in names <==> name in Names(facts) && name != "testing" && name != "options")
  {
    var _ := NamesMeaning(facts);
    Registered(Document(facts));
    forall name ensures HasSection(Document(facts), name) <==> name in Names(facts) {
      DocumentHas(facts, name);
    }
  }

  lemma {:induction false} Registered(sections: seq<Section>)
    requires forall i, j | 0 <= i < j < |sections| :: sections[i].name != sections[j].name
    ensures var names := RegisterSections(sections);
            && (forall i, j | 0 <= i < j < |names| :: names[i] != names[j])
            && (forall name :: name in names <==> HasSection(sections, name) && name != "testing" && name != "options")
  {
    if sections != [] {
      var n := |sections| - 1;
      Registered(sections[..n]);
      assert forall name :: HasSection(sections, name) <==> HasSection(sections[..n], name) || name == sections[n].name by {
        assert sections == sections[..n] + [sections[n]];
      }
      assert !HasSection(sections[..n], sections[n].name);
    }
  }

  /** An `=` that no backslash precedes. */
  predicate Unescaped(s: string, i: nat) {
    i < |s| && s[i] == '=' && !(i > 0 && s[i - 1] == '\\')
  }

  /** Masking `\=` keeps positions and leaves exactly the unescaped `=` signs. */
  lemma {:induction false} EscapesMasked(s: string)
    ensures var m := Replace(s, ESCAPED, "  ");
            |m| == |s| && forall i | 0 <= i < |s| :: m[i] == '=' <==> Unescaped(s, i)
  {
    if |s| >= 2 {
      assert s[..2] == [s[0], s[1]];
      var k := if ESCAPED <= s then 2 else 1;
      EscapesMasked(s[k..]);
      forall i | k <= i < |s| ensures Unescaped(s, i) <==> Unescaped(s[k..], i - k) {
        assert s[k..][i - k] == s[i];
      }
    }
  }

  /** A key ends at the first `=` that no backslash precedes. */
  lemma {:induction false} KeyEndsExactly(line: string)
    ensures var e := EqualsAt(line);
            && (e.None? <==> forall i: nat :: !Unescaped(line, i))
            && (e.Some? ==> Unescaped(line, e.value) && forall i: nat | i < e.value :: !Unescaped(line, i))
  {
    EscapesMasked(line);
    var m := Replace(line, ESCAPED, "  ");
    forall i: nat ensures OccursAt(m, "=", i) <==> Unescaped(line, i) {
      if i < |m| {
        assert m[i..i + 1] == [m[i]];
      }
    }
  }
}
