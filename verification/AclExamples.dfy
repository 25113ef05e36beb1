/** Saved tables of src/acl.rs that load as other ones. */
module AclExamples {
  import opened Basics
  import opened AclText
  import opened AclUsers
  import opened AclStores

  /** The line that sets an enabled user with every command. */
  function Line(eve: string): string {
    Join(["user", eve, "on", "+@all"], ' ')
  }

  /** A key pattern that spells the end of one line of the file, a whole other line, and a comment. */
  function Pattern(a: string, eve: string): string {
    a + "\n" + Line(eve) + "\n#"
  }

  function Setting(name: string, a: string, eve: string): User {
    WithKeys(New(name), Patterns(false, [Pattern(a, eve)]))
  }

  function Promoted(eve: string): User {
    WithCommands(New(eve).(enabled := true), Commands(true, {}, {}), "+@all")
  }

  /** The lines of the saved file. */
  function File(name: string, a: string, eve: string): seq<string> {
    [Join(["user", name, "off", "~" + a], ' '), Line(eve), Join(["#", "-@all"], ' '), Entry(Superuser(""))]
  }

  lemma JoinSnoc(parts: seq<string>, p: string, sep: char)
    requires parts != []
    ensures Join(parts + [p], sep) == Join(parts, sep) + [sep] + p
  {
    assert (parts + [p])[..|parts|] == parts;
  }

  lemma JoinTwo(a: string, b: string, sep: char)
    ensures Join([a, b], sep) == a + [sep] + b
  {
    assert [a] + [b] == [a, b];
    JoinSnoc([a], b, sep);
  }

  lemma JoinFour(a: string, b: string, c: string, d: string, sep: char)
    ensures Join([a, b, c, d], sep) == a + [sep] + b + [sep] + c + [sep] + d
  {
    hide Join;
    assert [a, b] + [c] + [d] == [a, b, c, d];
    JoinTwo(a, b, sep);
    JoinSnoc([a, b], c, sep);
    JoinSnoc([a, b] + [c], d, sep);
  }

  /** The printed entry takes up three lines. */
  lemma SettingEntry(name: string, a: string, eve: string)
    ensures var f := File(name, a, eve); Entry(Setting(name, a, eve)) == f[0] + "\n" + f[1] + "\n" + f[2]
  {
    hide Join, Entry;
    OnePatternEntry(name, Pattern(a, eve));
    JoinFour("user " + name, "off", ['~'] + Pattern(a, eve), "-@all", ' ');
    JoinFour("user", name, "off", "~" + a, ' ');
    JoinTwo("#", "-@all", ' ');
    var head := "user " + name + " " + "off" + " " + "~" + a;
    assert "user" + " " + name + " " + "off" + " " + ("~" + a) == head;
    assert "user " + name + " " + "off" + " " + (['~'] + Pattern(a, eve)) + " " + "-@all"
        == head + "\n" + Line(eve) + "\n" + ("#" + " " + "-@all");
  }

  lemma FileText(t: Table, name: string, a: string, eve: string)
    requires name in t && DEFAULT in t && t[name] == Setting(name, a, eve) && t[DEFAULT] == Superuser("")
    ensures SaveText(t, [name, DEFAULT]) == Join(File(name, a, eve), '\n') + "\n"
  {
    hide Join, Entry, Setting;
    SettingEntry(name, a, eve);
    var f := File(name, a, eve);
    assert Entries(t, [name, DEFAULT]) == [Entry(t[name]), Entry(t[DEFAULT])];
    JoinTwo(Entry(t[name]), Entry(t[DEFAULT]), '\n');
    JoinFour(f[0], f[1], f[2], f[3], '\n');
  }

  lemma LineLoads(cats: Categories, t: Table, name: string, r: string, r': string)
    requires Plain(name) && Plain(r) && Plain(r') && Applied(cats, New(name), [r, r']).ok
    ensures LoadLine(cats, t, Join(["user", name, r, r'], ' ')) == Some(t[name := Applied(cats, New(name), [r, r']).user])
  {
    hide Words, Applied, Join;
    var words := ["user", name, r, r'];
    WordsOfPlainJoin(words);
    assert words[2..] == [r, r'] && Lower("user") == "user";
  }

  lemma CommentLoads(cats: Categories, t: Table)
    ensures LoadLine(cats, t, Join(["#", "-@all"], ' ')) == Some(t)
  {
    hide Words, Join;
    WordsOfPlainJoin(["#", "-@all"]);
  }

  lemma AppliedTwo(cats: Categories, u: User, r: string, r': string)
    requires ApplyRule(cats, u, r).Some? && ApplyRule(cats, ApplyRule(cats, u, r).value, r').Some?
    ensures Applied(cats, u, [r, r']) == Progress(ApplyRule(cats, ApplyRule(cats, u, r).value, r').value, true)
  {
    hide ApplyRule;
    AppliedOne(cats, u, r);
    assert [r, r'][..1] == [r];
  }

  /** Every line of the file loads, the one in the middle as well. */
  lemma FileLoads(cats: Categories, name: string, a: string, eve: string)
    requires Plain(name) && Plain(a) && Plain(eve) && eve != DEFAULT
    ensures LoadLines(cats, File(name, a, eve)).Some?
    ensures var t := LoadLines(cats, File(name, a, eve)).value; DEFAULT in t && eve in t && t[eve] == Promoted(eve)
  {
    hide Join, LoadLine, Entry, Good, Applied, ApplyRule;
    var f := File(name, a, eve);
    NameRules(cats, name, a);
    LineLoads(cats, map[], name, "off", "~" + a);
    var t1 := LoadLine(cats, map[], f[0]).value;
    EveRules(cats, eve);
    LineLoads(cats, t1, eve, "on", "+@all");
    var t2 := t1[eve := Promoted(eve)];
    CommentLoads(cats, t2);
    SuperuserIsGood(cats, "");
    EntryLoads(cats, t2, Superuser(""));
    LoadsFour(cats, f, t1, t2);
  }

  lemma NameRules(cats: Categories, name: string, a: string)
    ensures Applied(cats, New(name), ["off", "~" + a]).ok
  {
    hide Join, WithPattern;
    SigilApplied(cats, New(name), '~', a);
    AppliedTwo(cats, New(name), "off", "~" + a);
  }

  lemma EveRules(cats: Categories, eve: string)
    ensures Applied(cats, New(eve), ["on", "+@all"]) == Progress(Promoted(eve), true)
  {
    AppliedTwo(cats, New(eve), "on", "+@all");
  }

  lemma LoadsFour(cats: Categories, f: seq<string>, t1: Table, t2: Table)
    requires |f| == 4 && LoadLine(cats, map[], f[0]) == Some(t1) && LoadLine(cats, t1, f[1]) == Some(t2)
    requires LoadLine(cats, t2, f[2]) == Some(t2)
    ensures LoadLines(cats, f) == LoadLine(cats, t2, f[3])
  {
    hide LoadLine;
    assert f[..3][..2] == f[..2] && f[..2][..1] == f[..1] && f[..1][..0] == [];
    assert LoadLines(cats, f[..1]) == Some(t1);
    assert LoadLines(cats, f[..2]) == Some(t2);
  }

  /** Setting one key pattern with line breaks, saving and loading succeeds, and the loaded table has an
      enabled user with every command whom nobody set. */
  lemma PhantomUser(cats: Categories, name: string, a: string, eve: string)
    requires Plain(name) && Plain(a) && Plain(eve) && eve != name && name != DEFAULT && eve != DEFAULT
    ensures var t := TableAfter(cats, "", [Set(name, ["~" + Pattern(a, eve)])]);
      && t == map[DEFAULT := Superuser(""), name := Setting(name, a, eve)] && Enumerates([name, DEFAULT], t)
      && LoadText(cats, SaveText(t, [name, DEFAULT])).Some?
      && var t' := LoadText(cats, SaveText(t, [name, DEFAULT])).value; eve !in t && eve in t' && t'[eve] == Promoted(eve)
  {
    hide SaveText, Join, LoadLines, ApplyRule, Pattern, Superuser, Entry, Lines;
    var op := Set(name, ["~" + Pattern(a, eve)]);
    var t := TableAfter(cats, "", [op]);
    SettingReached(cats, name, a, eve);
    FileText(t, name, a, eve);
    FileLines(cats, name, a, eve);
    FileLoads(cats, name, a, eve);
  }

  lemma FileLines(cats: Categories, name: string, a: string, eve: string)
    requires Plain(name) && Plain(a) && Plain(eve)
    ensures Lines(Join(File(name, a, eve), '\n') + "\n") == File(name, a, eve)
  {
    hide Join, Entry, Good, Lines;
    PlainIsOneLine(name);
    PlainIsOneLine(a);
    PlainIsOneLine(eve);
    JoinIsOneLine(["user", name, "off", "~" + a]);
    JoinIsOneLine(["user", eve, "on", "+@all"]);
    JoinIsOneLine(["#", "-@all"]);
    SuperuserIsGood(cats, "");
    EntryWords(cats, Superuser(""));
    LinesOfJoin(File(name, a, eve));
  }

  lemma SettingReached(cats: Categories, name: string, a: string, eve: string)
    requires name != "" && name != DEFAULT
    ensures TableAfter(cats, "", [Set(name, ["~" + Pattern(a, eve)])]) ==
      map[DEFAULT := Superuser(""), name := Setting(name, a, eve)]
  {
    hide Join, ApplyRule, Superuser;
    var op := Set(name, ["~" + Pattern(a, eve)]);
    assert [op][..0] == [];
    SigilApplied(cats, New(name), '~', Pattern(a, eve));
    AppliedOne(cats, New(name), "~" + Pattern(a, eve));
    assert '\n' in Pattern(a, eve) && Pattern(a, eve) != "*" by { assert Pattern(a, eve)[|a|] == '\n'; }
    var start: Table := map[DEFAULT := Superuser("")];
    assert TableAfter(cats, "", []) == start && TableUser(start, name) == New(name);
    assert WithPattern(NONE, Pattern(a, eve)) == Patterns(false, [Pattern(a, eve)]);
    assert start[name := Setting(name, a, eve)] == map[DEFAULT := Superuser(""), name := Setting(name, a, eve)];
  }
}
