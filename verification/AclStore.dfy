/** The user table of src/acl.rs: SETUSER, DELUSER, and saving to and loading from text. */
module AclStores {
  import opened Basics
  import opened AclText
  import opened AclUsers

  type Table = map<string, User>

  const DEFAULT := "default"

  /** The order in which the users are printed: each once. */
  ghost predicate Enumerates(order: seq<string>, t: Table) {
    Distinct(order) && forall n :: n in order <==> n in t
  }

  function Entries(t: Table, order: seq<string>): seq<string>
    requires forall n :: n in order ==> n in t
  {
    seq(|order|, i requires 0 <= i < |order| => assert order[i] in order; Entry(t[order[i]]))
  }

  /** save_to_path, up to the file. */
  function SaveText(t: Table, order: seq<string>): string
    requires forall n :: n in order ==> n in t
  {
    Join(Entries(t, order), '\n') + "\n"
  }

  /** One line of load_from_str. A line that is blank, or whose first word starts with #, is skipped. */
  function LoadLine(cats: Categories, t: Table, line: string): Option<Table> {
    var tokens := Words(line);
    WordsArePlain(line);
    if tokens == [] || tokens[0][0] == '#' then Some(t)
    else if Lower(tokens[0]) != "user" || |tokens| < 2 then None
    else
      var p := Applied(cats, New(tokens[1]), tokens[2..]);
      if p.ok then Some(t[tokens[1] := p.user]) else None
  }

  function LoadLines(cats: Categories, lines: seq<string>): Option<Table> {
    if lines == [] then Some(map[])
    else
      match LoadLines(cats, lines[..|lines| - 1])
      case None => None
      case Some(t) => LoadLine(cats, t, lines[|lines| - 1])
  }

  /** load_from_str: the new table, or None when a line is wrong or there is no default user. */
  function LoadText(cats: Categories, text: string): Option<Table> {
    match LoadLines(cats, Lines(text))
    case None => None
    case Some(t) => if DEFAULT in t then Some(t) else None
  }

  ghost predicate TableOk(cats: Categories, t: Table) {
    && DEFAULT in t
    && forall n :: n in t ==> t[n].name == n && Good(cats, t[n])
  }

  function ReloadedTable(t: Table): Table {
    map n | n in t :: Reloaded(t[n])
  }

  // ----- the round trip ------------------------------------------------------------------------------------

  lemma EntryLoads(cats: Categories, t: Table, u: User)
    requires Good(cats, u)
    ensures LoadLine(cats, t, Entry(u)) == Some(t[u.name := Reloaded(u)])
  {
    hide Words, Rules, Applied, Good, Entry;
    EntryWords(cats, u);
    RulesReload(cats, u);
    var tokens := Words(Entry(u));
    assert tokens[0] == "user" && tokens[1] == u.name && tokens[2..] == Rules(u);
    assert Lower("user") == "user";
  }

  lemma {:induction false} EntriesLoad(cats: Categories, t: Table, order: seq<string>)
    requires TableOk(cats, t) && forall n :: n in order ==> n in t
    ensures LoadLines(cats, Entries(t, order)) == Some(map n | n in order :: Reloaded(t[n]))
  {
    hide LoadLine, Good, Entry, Reloaded;
    if order != [] {
      var init, last := order[..|order| - 1], order[|order| - 1];
      assert order == init + [last];
      EntriesLoad(cats, t, init);
      assert Entries(t, order)[..|order| - 1] == Entries(t, init);
      var before := map n | n in init :: Reloaded(t[n]);
      EntryLoads(cats, before, t[last]);
      assert before[last := Reloaded(t[last])] == map n | n in order :: Reloaded(t[n]);
    }
  }

  lemma EntriesOneLine(cats: Categories, t: Table, order: seq<string>)
    requires TableOk(cats, t) && forall n :: n in order ==> n in t
    ensures forall i :: 0 <= i < |order| ==> OneLine(Entries(t, order)[i])
  {
    hide Good, Entry;
    forall i | 0 <= i < |order| ensures OneLine(Entries(t, order)[i]) {
      assert order[i] in order;
      EntryWords(cats, t[order[i]]);
    }
  }

  /** Printing all users and loading the text back brings every user back, in every order of printing;
      and printing the result again gives the same text. */
  lemma SaveThenLoad(cats: Categories, t: Table, order: seq<string>)
    requires TableOk(cats, t) && Enumerates(order, t)
    ensures LoadText(cats, SaveText(t, order)) == Some(ReloadedTable(t))
    ensures SaveText(ReloadedTable(t), order) == SaveText(t, order)
  {
    hide Good, Entry, Reloaded, LoadLine, LoadLines, Join, Lines, Entries;
    var entries := Entries(t, order);
    assert |entries| == |order| > 0 by { EntriesSize(t, order); assert DEFAULT in order; }
    EntriesOneLine(cats, t, order);
    LinesOfJoin(entries);
    EntriesLoad(cats, t, order);
    assert (map n | n in order :: Reloaded(t[n])) == ReloadedTable(t);
    SameEntries(t, order);
  }

  lemma EntriesSize(t: Table, order: seq<string>)
    requires forall n :: n in order ==> n in t
    ensures |Entries(t, order)| == |order|
  {
  }

  lemma SameEntries(t: Table, order: seq<string>)
    requires forall n :: n in order ==> n in t
    ensures Entries(ReloadedTable(t), order) == Entries(t, order)
  {
    hide Entry, Reloaded;
    forall i | 0 <= i < |order| ensures Entries(ReloadedTable(t), order)[i] == Entries(t, order)[i] {
      assert order[i] in order;
      SameEntry(t[order[i]]);
    }
  }

  lemma SameEntry(u: User)
    ensures Entry(Reloaded(u)) == Entry(u)
  {
  }

  lemma ReloadedTwice(u: User)
    ensures Reloaded(Reloaded(u)) == Reloaded(u) && Reloaded(u).name == u.name
  {
  }

  // ----- what keeps a table in good order ---------------------------------------------------------------------

  predicate Clean(rules: seq<string>) {
    forall i :: 0 <= i < |rules| ==> NoSpace(rules[i])
  }

  lemma NewIsGood(cats: Categories, name: string)
    requires Plain(name)
    ensures Good(cats, New(name))
  {
    EmptyGood(cats);
  }

  lemma SuperuserIsGood(cats: Categories, auth: string)
    requires NoSpace(auth)
    ensures Good(cats, Superuser(auth))
  {
    hide CommandsOk;
    CommandsAll(cats, true);
  }

  lemma LineKeepsOk(cats: Categories, t: Table, line: string)
    requires forall n :: n in t ==> t[n].name == n && Good(cats, t[n])
    requires LoadLine(cats, t, line).Some?
    ensures var t' := LoadLine(cats, t, line).value; forall n :: n in t' ==> t'[n].name == n && Good(cats, t'[n])
  {
    hide Good, Words, WordCut;
    var tokens := Words(line);
    WordsArePlain(line);
    if tokens != [] && tokens[0][0] != '#' {
      NewIsGood(cats, tokens[1]);
      assert forall i :: 0 <= i < |tokens[2..]| ==> tokens[2..][i] == tokens[i + 2];
      RulesKeepGood(cats, New(tokens[1]), tokens[2..]);
      RulesKeepName(cats, New(tokens[1]), tokens[2..]);
    }
  }

  lemma {:induction false} RulesKeepName(cats: Categories, u: User, rules: seq<string>)
    ensures Applied(cats, u, rules).user.name == u.name
  {
    hide CommandRule, Without, WithPattern, KeywordOf;
    if rules != [] { RulesKeepName(cats, u, rules[..|rules| - 1]); }
  }

  lemma {:induction false} LinesKeepOk(cats: Categories, lines: seq<string>)
    requires LoadLines(cats, lines).Some?
    ensures var t := LoadLines(cats, lines).value; forall n :: n in t ==> t[n].name == n && Good(cats, t[n])
  {
    hide LoadLine, Good;
    if lines != [] {
      LinesKeepOk(cats, lines[..|lines| - 1]);
      LineKeepsOk(cats, LoadLines(cats, lines[..|lines| - 1]).value, lines[|lines| - 1]);
    }
  }

  // ----- the operations ----------------------------------------------------------------------------------------

  /** What DELUSER has done when it ends or is refused at `default`. */
  datatype Deletion = Deletion(users: Table, removed: nat, refused: bool)

  function Deleted(t: Table, names: seq<string>): Deletion {
    if names == [] then Deletion(t, 0, false)
    else DeleteOne(Deleted(t, names[..|names| - 1]), names[|names| - 1])
  }

  function DeleteOne(d: Deletion, name: string): Deletion {
    if d.refused || name == "" then d
    else if name == DEFAULT then d.(refused := true)
    else Deletion(d.users - {name}, d.removed + if name in d.users then 1 else 0, false)
  }

  function TableUser(t: Table, name: string): User {
    if name in t then t[name] else New(name)
  }

  /** It is refused exactly when `default` is named; users that are not named stay as they are; and the
      count is the number gone. */
  ghost predicate DeletionOk(t: Table, named: set<string>, d: Deletion) {
    NamedGone(t, named, d) && d.removed == |t| - |d.users|
  }

  ghost predicate NamedGone(t: Table, named: set<string>, d: Deletion) {
    && (d.refused <==> DEFAULT in named)
    && d.users.Keys <= t.Keys && (forall n :: n in d.users ==> d.users[n] == t[n])
    && (forall n :: n in t && (n !in named || n == DEFAULT || n == "") ==> n in d.users)
    && (!d.refused ==> forall n :: n in named && n != "" ==> n !in d.users)
  }

  lemma NamedGoneNext(t: Table, named: set<string>, d: Deletion, name: string)
    requires NamedGone(t, named, d)
    ensures NamedGone(t, named + {name}, DeleteOne(d, name))
  {
  }

  lemma DeleteOneOk(t: Table, named: set<string>, d: Deletion, name: string)
    requires DeletionOk(t, named, d)
    ensures DeletionOk(t, named + {name}, DeleteOne(d, name))
  {
    hide NamedGone;
    NamedGoneNext(t, named, d, name);
    RemovedSize(d.users, name);
  }

  ghost function NamedIn(names: seq<string>): set<string> {
    set n | n in names
  }

  lemma NamedNext(names: seq<string>)
    requires names != []
    ensures NamedIn(names) == NamedIn(names[..|names| - 1]) + {names[|names| - 1]}
  {
    assert names == names[..|names| - 1] + [names[|names| - 1]];
  }

  lemma {:induction false} DeletedUsers(t: Table, names: seq<string>)
    ensures DeletionOk(t, NamedIn(names), Deleted(t, names))
  {
    hide DeleteOne;
    if names != [] {
      hide DeletionOk, NamedIn;
      var front := names[..|names| - 1];
      DeletedUsers(t, front);
      DeleteOneOk(t, NamedIn(front), Deleted(t, front), names[|names| - 1]);
      NamedNext(names);
    }
  }

  lemma DeletedKeepsOk(cats: Categories, t: Table, names: seq<string>)
    requires TableOk(cats, t)
    ensures TableOk(cats, Deleted(t, names).users)
  {
    hide Good, Deleted;
    DeletedUsers(t, names);
  }

  lemma {:induction false} StopsAtDefault(t: Table, names: seq<string>, i: nat)
    requires i <= |names| && (i < |names| ==> Deleted(t, names[..i]).refused)
    ensures Deleted(t, names) == Deleted(t, names[..i])
    decreases |names| - i
  {
    if i < |names| {
      assert names[..i + 1][..i] == names[..i];
      StopsAtDefault(t, names, i + 1);
    } else {
      assert names[..i] == names;
    }
  }

  lemma RemovedSize(t: Table, name: string)
    ensures |t - {name}| == |t| - if name in t then 1 else 0
  {
    assert (t - {name}).Keys == t.Keys - {name};
    assert |t - {name}| == |(t - {name}).Keys| && |t| == |t.Keys|;
  }

  class AclStore {
    const cats: Categories
    var users: Table

    constructor (cats: Categories, auth: string)
      ensures this.cats == cats && users == map["default" := Superuser(auth)]
      ensures NoSpace(auth) ==> TableOk(cats, users)
    {
      this.cats, users := cats, map["default" := Superuser(auth)];
      new;
      if NoSpace(auth) { SuperuserIsGood(cats, auth); }
    }

    /** Rules apply one by one; the first error stops, and what was applied before it stays. */
    method SetUser(name: string, rules: seq<string>) returns (ok: bool)
      modifies this
      ensures name == "" ==> !ok && users == old(users)
      ensures name != "" ==>
        var p := Applied(cats, TableUser(old(users), name), rules);
        users == old(users)[name := p.user] && ok == p.ok
      ensures old(TableOk(cats, users)) && NoSpace(name) && Clean(rules) ==> TableOk(cats, users)
    {
      hide ApplyRule, Good;
      if name == "" {
        return false;
      }
      ghost var was := TableUser(users, name);
      var user := TableUser(users, name);
      if NoSpace(name) { NewIsGood(cats, name); }
      if Good(cats, was) && Clean(rules) { RulesKeepGood(cats, was, rules); }
      RulesKeepName(cats, was, rules);
      ok := true;
      var i := 0;
      while ok && i < |rules|
        invariant i <= |rules| && Progress(user, ok) == Applied(cats, was, rules[..i])
      {
        var next := ApplyRule(cats, user, rules[i]);
        assert rules[..i + 1][..i] == rules[..i];
        match next {
          case None => ok := false;
          case Some(u) => user := u;
        }
        i := i + 1;
      }
      StopsAtError(cats, was, rules, i);
      users := users[name := user];
    }

    /** Returns how many were removed, or None at the name `default`, keeping the removals before it. */
    method DelUser(names: seq<string>) returns (n: Option<nat>)
      modifies this
      ensures var d := Deleted(old(users), names);
        users == d.users && n == if d.refused then None else Some(d.removed)
      ensures old(TableOk(cats, users)) ==> TableOk(cats, users)
    {
      hide Good, TableOk, DeleteOne;
      if TableOk(cats, users) { DeletedKeepsOk(cats, users, names); }
      var d := Deletion(users, 0, false);
      var i := 0;
      while !d.refused && i < |names|
        invariant i <= |names| && d == Deleted(old(users), names[..i])
        invariant users == old(users)
      {
        assert names[..i + 1][..i] == names[..i];
        d := DeleteOne(d, names[i]);
        i := i + 1;
      }
      StopsAtDefault(users, names, i);
      users := d.users;
      return if d.refused then None else Some(d.removed);
    }

    /** The table is replaced only when every line is right and there is a default user. */
    method LoadFromStr(text: string) returns (ok: bool)
      modifies this
      ensures var t := LoadText(cats, text);
        if t.Some? then ok && users == t.value && TableOk(cats, users) else !ok && users == old(users)
    {
      hide LoadLine, Good, Lines;
      var lines := Lines(text);
      var t: Table := map[];
      for i := 0 to |lines|
        invariant users == old(users) && LoadLines(cats, lines[..i]) == Some(t)
      {
        assert lines[..i + 1][..i] == lines[..i];
        var next := LoadLine(cats, t, lines[i]);
        if next.None? {
          FailsOn(cats, lines, i + 1);
          return false;
        }
        t := next.value;
      }
      assert lines[..|lines|] == lines;
      LinesKeepOk(cats, lines);
      if DEFAULT !in t {
        return false;
      }
      users := t;
      return true;
    }
  }

  lemma {:induction false} StopsAtError(cats: Categories, u: User, rules: seq<string>, i: nat)
    requires i <= |rules| && (i < |rules| ==> !Applied(cats, u, rules[..i]).ok)
    ensures Applied(cats, u, rules) == Applied(cats, u, rules[..i])
    decreases |rules| - i
  {
    if i < |rules| {
      assert rules[..i + 1][..i] == rules[..i];
      StopsAtError(cats, u, rules, i + 1);
    } else {
      assert rules[..i] == rules;
    }
  }

  lemma {:induction false} FailsOn(cats: Categories, lines: seq<string>, i: nat)
    requires i <= |lines| && LoadLines(cats, lines[..i]).None?
    ensures LoadLines(cats, lines).None?
    decreases |lines| - i
  {
    if i < |lines| {
      assert lines[..i + 1][..i] == lines[..i];
      FailsOn(cats, lines, i + 1);
    } else {
      assert lines[..i] == lines;
    }
  }

  // ----- whole runs ----------------------------------------------------------------------------------------------

  datatype Op = Set(name: string, rules: seq<string>) | Delete(names: seq<string>) | Load(text: string)

  /** What AclStore's methods do to the table. */
  function NextTable(cats: Categories, t: Table, op: Op): Table {
    match op
    case Set(name, rules) => if name == "" then t else t[name := Applied(cats, TableUser(t, name), rules).user]
    case Delete(names) => Deleted(t, names).users
    case Load(text) => if LoadText(cats, text).Some? then LoadText(cats, text).value else t
  }

  function TableAfter(cats: Categories, auth: string, ops: seq<Op>): Table {
    if ops == [] then map[DEFAULT := Superuser(auth)]
    else NextTable(cats, TableAfter(cats, auth, ops[..|ops| - 1]), ops[|ops| - 1])
  }

  /** No white space in a user name or rule; loaded text may be any. */
  predicate CleanOp(op: Op) {
    op.Set? ==> NoSpace(op.name) && Clean(op.rules)
  }

  lemma NextKeepsOk(cats: Categories, t: Table, op: Op)
    requires TableOk(cats, t) && CleanOp(op)
    ensures TableOk(cats, NextTable(cats, t, op))
  {
    hide Good, ApplyRule, LoadLine, Lines;
    match op
    case Set(name, rules) =>
      if name != "" {
        NewIsGood(cats, name);
        RulesKeepGood(cats, TableUser(t, name), rules);
        RulesKeepName(cats, TableUser(t, name), rules);
      }
    case Delete(names) => DeletedKeepsOk(cats, t, names);
    case Load(text) => if LoadText(cats, text).Some? { LinesKeepOk(cats, Lines(text)); }
  }

  lemma {:induction false} RunIsOk(cats: Categories, auth: string, ops: seq<Op>)
    requires NoSpace(auth) && forall i :: 0 <= i < |ops| ==> CleanOp(ops[i])
    ensures TableOk(cats, TableAfter(cats, auth, ops))
  {
    hide Good, NextTable;
    if ops == [] {
      SuperuserIsGood(cats, auth);
    } else {
      RunIsOk(cats, auth, ops[..|ops| - 1]);
      NextKeepsOk(cats, TableAfter(cats, auth, ops[..|ops| - 1]), ops[|ops| - 1]);
    }
  }

  /** After any run, saving and loading brings every user back. */
  lemma RunSaveLoad(cats: Categories, auth: string, ops: seq<Op>, order: seq<string>)
    requires NoSpace(auth) && forall i :: 0 <= i < |ops| ==> CleanOp(ops[i])
    requires Enumerates(order, TableAfter(cats, auth, ops))
    ensures var t := TableAfter(cats, auth, ops); LoadText(cats, SaveText(t, order)) == Some(ReloadedTable(t))
  {
    hide TableOk, TableAfter, LoadText, ReloadedTable;
    RunIsOk(cats, auth, ops);
    SaveThenLoad(cats, TableAfter(cats, auth, ops), order);
  }

  // ----- when saving and loading brings the table back ---------------------------------------------------------------

  /** The file brings the table back exactly when the table as it would be reloaded is in good order. */
  lemma SaveThenLoadIff(cats: Categories, t: Table, order: seq<string>)
    requires Enumerates(order, t)
    ensures LoadText(cats, SaveText(t, order)) == Some(ReloadedTable(t)) <==> TableOk(cats, ReloadedTable(t))
  {
    hide Good, Entry, Reloaded, LoadLine, LoadLines, Join, Lines, Entries;
    var t' := ReloadedTable(t);
    if TableOk(cats, t') {
      SaveThenLoad(cats, t', order);
      SameEntries(t, order);
      forall n | n in t ensures Reloaded(t'[n]) == t'[n] { ReloadedTwice(t[n]); }
      assert ReloadedTable(t') == t';
    }
    if LoadText(cats, SaveText(t, order)) == Some(t') {
      LinesKeepOk(cats, Lines(SaveText(t, order)));
    }
  }

  /** What every run keeps, whatever characters the rules hold: the descriptions of patterns say what is
      stored, nothing is stored twice, and `*` stands for everything. */
  ghost predicate Stored(u: User) {
    && u.name != ""
    && (u.nopass ==> u.passwords == []) && Distinct(u.passwords) && "" !in u.passwords
    && PatternsStored(u.keys) && u.keysDesc == Join(PatternRules('~', u.keys), ' ')
    && PatternsStored(u.channels) && u.channelsDesc == Join(PatternRules('&', u.channels), ' ')
  }

  ghost predicate PatternsStored(p: Patterns) {
    (p.all ==> p.list == []) && Distinct(p.list) && "*" !in p.list
  }

  /** No white space in the name, a password or a pattern, and the printed commands, read word by word,
      give the commands in force and print as they did. */
  ghost predicate Readable(cats: Categories, u: User) {
    && NoSpace(u.name)
    && Clean(u.passwords) && Clean(u.keys.list) && Clean(u.channels.list)
    && CommandsOk(cats, u.commands, CommandPart(u))
  }

  lemma ReadableIsGood(cats: Categories, u: User)
    requires Stored(u)
    ensures Good(cats, Reloaded(u)) <==> Readable(cats, u)
  {
    hide Join, CommandsOk, CommandPart, Distinct;
    forall i | 0 <= i < |u.passwords| ensures u.passwords[i] != "" { assert u.passwords[i] in u.passwords; }
    forall i | 0 <= i < |u.keys.list| ensures u.keys.list[i] != "*" { assert u.keys.list[i] in u.keys.list; }
    forall i | 0 <= i < |u.channels.list| ensures u.channels.list[i] != "*" { assert u.channels.list[i] in u.channels.list; }
  }

  lemma RuleKeepsStored(cats: Categories, u: User, r: string)
    requires Stored(u) && ApplyRule(cats, u, r).Some?
    ensures Stored(ApplyRule(cats, u, r).value)
  {
    hide CommandRule, Join, Described, KeywordOf, Without, PatternsStored, WithPattern, Marked, Distinct, ApplyKeyword;
    if r != "" {
      PasswordsKeepStored(u, r[1..]);
      PatternKeepsStored(u.keys, r[1..]);
      PatternKeepsStored(u.channels, r[1..]);
      if KeywordOf(r).Some? { KeywordKeepsStored(u, KeywordOf(r).value); }
    }
  }

  lemma KeywordKeepsStored(u: User, k: Keyword)
    requires Stored(u)
    ensures Stored(ApplyKeyword(u, k))
  {
    NewIsStored(u.name, "");
  }

  lemma PatternKeepsStored(p: Patterns, pattern: string)
    requires PatternsStored(p)
    ensures PatternsStored(WithPattern(p, pattern))
  {
  }

  lemma PasswordsKeepStored(u: User, p: string)
    requires Distinct(u.passwords) && "" !in u.passwords
    ensures var v := AddPassword(u, p).passwords; Distinct(v) && (p != "" ==> "" !in v)
    ensures var v := Without(u.passwords, p); Distinct(v) && "" !in v && (u.passwords == [] ==> v == [])
  {
    WithoutKeeps(u.passwords, p);
  }

  lemma {:induction false} RulesKeepStored(cats: Categories, u: User, rules: seq<string>)
    requires Stored(u)
    ensures Stored(Applied(cats, u, rules).user)
  {
    hide Stored, ApplyRule;
    if rules != [] {
      RulesKeepStored(cats, u, rules[..|rules| - 1]);
      var before := Applied(cats, u, rules[..|rules| - 1]);
      if before.ok && ApplyRule(cats, before.user, rules[|rules| - 1]).Some? {
        RuleKeepsStored(cats, before.user, rules[|rules| - 1]);
      }
    }
  }

  ghost predicate TableStored(t: Table) {
    && DEFAULT in t
    && forall n :: n in t ==> t[n].name == n && Stored(t[n])
  }

  lemma NewIsStored(name: string, auth: string)
    ensures name != "" ==> Stored(New(name))
    ensures Stored(Superuser(auth))
  {
  }

  lemma GoodIsStored(cats: Categories, u: User)
    requires Good(cats, u)
    ensures Stored(u)
  {
    hide Join, CommandsOk;
    PlainStar();
  }

  lemma NextKeepsStored(cats: Categories, t: Table, op: Op)
    requires TableStored(t)
    ensures TableStored(NextTable(cats, t, op))
  {
    hide Stored, Good, ApplyRule, LoadLine, Lines, Deleted;
    match op
    case Set(name, rules) =>
      if name != "" {
        NewIsStored(name, "");
        RulesKeepStored(cats, TableUser(t, name), rules);
        RulesKeepName(cats, TableUser(t, name), rules);
      }
    case Delete(names) => DeletedUsers(t, names);
    case Load(text) =>
      if LoadText(cats, text).Some? {
        LinesKeepOk(cats, Lines(text));
        var t' := LoadText(cats, text).value;
        forall n | n in t' ensures Stored(t'[n]) { GoodIsStored(cats, t'[n]); }
      }
  }

  lemma {:induction false} RunIsStored(cats: Categories, auth: string, ops: seq<Op>)
    ensures TableStored(TableAfter(cats, auth, ops))
  {
    hide Stored, NextTable;
    if ops == [] {
      NewIsStored("", auth);
    } else {
      RunIsStored(cats, auth, ops[..|ops| - 1]);
      NextKeepsStored(cats, TableAfter(cats, auth, ops[..|ops| - 1]), ops[|ops| - 1]);
    }
  }

  /** After any run, with any characters in names, rules and loaded text: saving and loading brings the
      table back exactly when every user is readable. */
  lemma RunSaveLoadIff(cats: Categories, auth: string, ops: seq<Op>, order: seq<string>)
    requires Enumerates(order, TableAfter(cats, auth, ops))
    ensures var t := TableAfter(cats, auth, ops);
      LoadText(cats, SaveText(t, order)) == Some(ReloadedTable(t)) <==> forall n :: n in t ==> Readable(cats, t[n])
  {
    hide Stored, Good, Readable, Reloaded, TableAfter, LoadText, SaveText;
    var t := TableAfter(cats, auth, ops);
    RunIsStored(cats, auth, ops);
    SaveThenLoadIff(cats, t, order);
    forall n | n in t
      ensures Reloaded(t[n]).name == n && (Good(cats, Reloaded(t[n])) <==> Readable(cats, t[n]))
    {
      ReadableIsGood(cats, t[n]);
      ReloadedTwice(t[n]);
    }
    assert TableOk(cats, ReloadedTable(t)) <==> forall n :: n in t ==> Good(cats, Reloaded(t[n])) by {
      assert forall n :: n in t ==> ReloadedTable(t)[n] == Reloaded(t[n]);
    }
  }

  /** So white space in a name, a password or a pattern of any user keeps the file from bringing the
      table back. */
  lemma SpacedStringLost(cats: Categories, t: Table, order: seq<string>, n: string, s: string)
    requires Enumerates(order, t) && n in t && !NoSpace(s)
    requires s == t[n].name || s in t[n].passwords || s in t[n].keys.list || s in t[n].channels.list
    ensures LoadText(cats, SaveText(t, order)) != Some(ReloadedTable(t))
  {
    hide LoadText, SaveText, Join, CommandsOk;
    SaveThenLoadIff(cats, t, order);
    assert !Good(cats, Reloaded(t[n]));
    assert Reloaded(t[n]) == ReloadedTable(t)[n];
  }

  /** And after any run, any password, key or channel rule with white space makes such a table. */
  lemma SpacedRuleLost(cats: Categories, auth: string, ops: seq<Op>, name: string, mark: char, arg: string, order: seq<string>)
    requires name != "" && mark in {'>', '~', '&'} && !NoSpace(arg)
    requires Enumerates(order, TableAfter(cats, auth, ops + [Set(name, [[mark] + arg])]))
    ensures var t := TableAfter(cats, auth, ops + [Set(name, [[mark] + arg])]);
      LoadText(cats, SaveText(t, order)) != Some(ReloadedTable(t))
  {
    hide LoadText, SaveText, ApplyRule, Applied, NoSpace, ReloadedTable, Enumerates, TableUser;
    var op := Set(name, [[mark] + arg]);
    var t := TableAfter(cats, auth, ops);
    assert (ops + [op])[..|ops|] == ops;
    SpacedRuleStored(cats, TableUser(t, name), mark, arg);
    SpacedStringLost(cats, NextTable(cats, t, op), order, name, arg);
  }

  lemma SpacedRuleStored(cats: Categories, u: User, mark: char, arg: string)
    requires mark in {'>', '~', '&'} && !NoSpace(arg)
    ensures var v := Applied(cats, u, [[mark] + arg]).user; arg in v.passwords || arg in v.keys.list || arg in v.channels.list
  {
    hide ApplyRule, Applied, Join, NoSpace;
    SigilApplied(cats, u, mark, arg);
    assert arg != [] && arg != "*" by { PlainStar(); }
    AppliedOne(cats, u, [mark] + arg);
  }

  lemma PlainStar()
    ensures NoSpace("") && NoSpace("*")
  {
  }

  // ----- files that do not load, and files that load as something else -------------------------------------------------

  lemma {:induction false} LineCutPrefix(a: string, b: string)
    ensures LineCut(a).done <= LineCut(a + b).done
  {
    if b == [] {
      assert a + b == a;
    } else {
      LineCutPrefix(a, b[..|b| - 1]);
      assert (a + b)[..|a + b| - 1] == a + b[..|b| - 1];
    }
  }

  /** An entry of one line is a line of the file, whatever the other entries hold. */
  lemma {:induction false} EntryIsLine(parts: seq<string>, i: nat)
    requires i < |parts| && OneLine(parts[i])
    ensures parts[i] in LineCut(Join(parts, '\n') + "\n").done
  {
    var front, last := parts[..|parts| - 1], parts[|parts| - 1];
    var text := Join(parts, '\n');
    assert (text + "\n")[..|text|] == text;
    if i == |parts| - 1 {
      var before := if |parts| == 1 then "" else Join(front, '\n') + "\n";
      assert text == before + last;
      LineCutAppend(before, last);
      assert LineCut(before).open == [] by { if |parts| > 1 { assert before[..|before| - 1] == Join(front, '\n'); } }
      assert [] + last == last;
    } else {
      EntryIsLine(front, i);
      assert text + "\n" == (Join(front, '\n') + "\n") + (last + "\n");
      LineCutPrefix(Join(front, '\n') + "\n", last + "\n");
    }
  }

  /** A line that fails, fails whatever was loaded before it. */
  lemma {:induction false} BadLineFails(cats: Categories, lines: seq<string>, line: string)
    requires line in lines && LoadLine(cats, map[], line).None?
    ensures LoadLines(cats, lines).None?
  {
    hide Words;
    if lines[|lines| - 1] != line {
      BadLineFails(cats, lines[..|lines| - 1], line);
    }
  }

  /** One printed line that does not load keeps the whole file from loading. */
  lemma BadEntryFails(cats: Categories, t: Table, order: seq<string>, n: string)
    requires Enumerates(order, t) && n in t
    requires OneLine(Entry(t[n])) && LoadLine(cats, map[], Entry(t[n])).None?
    ensures LoadText(cats, SaveText(t, order)).None?
  {
    hide LoadLine, Entry, Join;
    var i :| 0 <= i < |order| && order[i] == n;
    EntryIsLine(Entries(t, order), i);
    BadLineFails(cats, Lines(SaveText(t, order)), Entry(t[n]));
  }

  /** White space in a rule may cost the whole table: one pattern whose second word is no rule makes a
      file that does not load. */
  lemma SpacedPatternLost(cats: Categories, t: Table, order: seq<string>, name: string, a: string, b: string)
    requires Plain(name) && Plain(a) && Plain(b) && !Sigil(b) && KeywordOf(b).None?
    requires Enumerates(order, t) && name in t && Some(t[name]) == ApplyRule(cats, New(name), "~" + a + " " + b)
    ensures LoadText(cats, SaveText(t, order)).None?
  {
    hide CommandRule, Words, WordCut, KeywordOf, Entry, Join, SaveText, LoadText;
    var pattern := a + " " + b;
    assert "~" + a + " " + b == ['~'] + pattern;
    SigilApplied(cats, New(name), '~', pattern);
    var u := WithKeys(New(name), WithPattern(NONE, pattern));
    assert pattern[|a|] == ' ' && pattern != "*";
    assert u.keys.list == [pattern];
    OnePatternEntry(name, pattern);
    SpacedWords(name, a, b);
    FailsAtWord(cats, New(name), ["off", "~" + a], b, ["-@all"]);
    var tokens := Words(Entry(u));
    assert tokens[2..] == ["off", "~" + a] + [b] + ["-@all"];
    assert Lower("user") == "user";
    SpacedOneLine(name, a, b);
    BadEntryFails(cats, t, order, name);
  }

  lemma SpacedOneLine(name: string, a: string, b: string)
    requires Plain(name) && Plain(a) && Plain(b)
    ensures OneLine(Join(["user " + name, "off", ['~'] + (a + " " + b), "-@all"], ' '))
  {
    PlainIsOneLine(name);
    PlainIsOneLine(a);
    PlainIsOneLine(b);
    JoinIsOneLine(["user " + name, "off", ['~'] + (a + " " + b), "-@all"]);
  }

  lemma OnePatternEntry(name: string, pattern: string)
    ensures Entry(WithKeys(New(name), Patterns(false, [pattern]))) == Join(["user " + name, "off", ['~'] + pattern, "-@all"], ' ')
  {
    hide Join;
    var u := WithKeys(New(name), Patterns(false, [pattern]));
    var key := ['~'] + pattern;
    assert u.keysDesc == key by { OneJoin(key); assert Marked('~', [pattern]) == [key]; }
    assert PasswordRules(u) == [] && PatternPart('~', u.keys, u.keysDesc) == [key];
    assert PatternPart('&', u.channels, u.channelsDesc) == [] && CommandPart(u) == "-@all";
    assert ["user " + name, "off"] + [] + [key] + [] + ["-@all"] == ["user " + name, "off", key, "-@all"];
  }

  lemma OneJoin(s: string)
    ensures Join([s], ' ') == s
  {
  }

  lemma SpacedWords(name: string, a: string, b: string)
    requires Plain(name) && Plain(a) && Plain(b)
    ensures Words(Join(["user " + name, "off", ['~'] + (a + " " + b), "-@all"], ' ')) == ["user", name, "off", "~" + a, b, "-@all"]
  {
    hide WordCut, Words, Join;
    var parts := ["user " + name, "off", ['~'] + (a + " " + b), "-@all"];
    WordsOfJoin(parts);
    FirstWords(New(name));
    assert ['~'] + (a + " " + b) == ("~" + a) + " " + b;
    WordsAfterSpace("~" + a, b);
    WordsOfPlain("~" + a);
    WordsOfPlain(b);
    WordsOfPlain("-@all");
    assert parts[..3][..2] == ["user " + name, "off"] && parts[..3] == parts[..2] + [parts[2]];
    assert AllWords(parts[..3]) == AllWords(parts[..2]) + Words(parts[2]);
    assert AllWords(parts) == AllWords(parts[..3]) + Words(parts[3]);
  }

  lemma FailsAtWord(cats: Categories, u: User, before: seq<string>, b: string, after: seq<string>)
    requires b != "" && !Sigil(b) && KeywordOf(b).None?
    ensures !Applied(cats, u, before + [b] + after).ok
  {
    hide KeywordOf;
    var rules := before + [b];
    assert rules[..|rules| - 1] == before;
    assert !Applied(cats, u, rules).ok;
    assert (rules + after)[..|rules|] == rules;
    FailureStays(cats, u, rules, after);
  }

  lemma {:induction false} FailureStays(cats: Categories, u: User, rules: seq<string>, after: seq<string>)
    requires !Applied(cats, u, rules).ok
    ensures !Applied(cats, u, rules + after).ok
  {
    if after == [] {
      assert rules + after == rules;
    } else {
      FailureStays(cats, u, rules, after[..|after| - 1]);
      assert (rules + after)[..|rules + after| - 1] == rules + after[..|after| - 1];
    }
  }
}
