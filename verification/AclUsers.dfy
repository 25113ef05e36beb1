/** ACL users of src/acl.rs: the rules of SETUSER, the printed entry, and reading it back. */
module AclUsers {
  import opened Basics
  import opened AclText

  /** The commands a user may run. */
  datatype Commands = Commands(all: bool, allowed: set<string>, disallowed: set<string>)

  /** All keys (or channels), or those matching a pattern. */
  datatype Patterns = Patterns(all: bool, list: seq<string>)

  datatype User = User(
    name: string, enabled: bool, nopass: bool, passwords: seq<string>,
    commands: Commands, keys: Patterns, channels: Patterns,
    commandDesc: string, keysDesc: string, channelsDesc: string)

  /** The commands of a category, or None for one that does not exist. */
  type Categories = string -> Option<set<string>>

  const NO_COMMANDS := Commands(false, {}, {})
  const NONE := Patterns(false, [])
  const EVERY := Patterns(true, [])

  function New(name: string): User {
    User(name, false, false, [], NO_COMMANDS, NONE, NONE, "", "", "")
  }

  function Superuser(auth: string): User {
    User("default", true, auth == "", if auth == "" then [] else [auth],
         Commands(true, {}, {}), EVERY, EVERY, "+@all", "~*", "&*")
  }

  function LowerChar(c: char): char {
    if 'A' <= c <= 'Z' then c - 'A' + 'a' else c
  }

  function Lower(s: string): string {
    seq(|s|, i requires 0 <= i < |s| => LowerChar(s[i]))
  }

  /** What a rule that starts with + or - does to the commands; None is an error. */
  function CommandRule(cats: Categories, c: Commands, r: string): Option<Commands> {
    if r == "+@all" then Some(Commands(true, {}, {}))
    else if r == "-@all" then Some(Commands(false, {}, {}))
    else if "+@" <= r then
      match cats(r[2..]) {
        case None => None
        case Some(cmds) =>
          Some(if c.all then c.(disallowed := c.disallowed - cmds) else c.(allowed := c.allowed + cmds))
      }
    else if "-@" <= r then
      match cats(r[2..]) {
        case None => None
        case Some(cmds) =>
          Some(if c.all then c.(disallowed := c.disallowed + cmds) else c.(allowed := c.allowed - cmds))
      }
    else if "+" <= r && |r| > 1 then
      var cmd := Lower(r[1..]);
      Some(Commands(c.all, if c.all then c.allowed else c.allowed + {cmd}, c.disallowed - {cmd}))
    else if "-" <= r && |r| > 1 then
      var cmd := Lower(r[1..]);
      Some(if c.all then c.(disallowed := c.disallowed + {cmd}) else c.(allowed := c.allowed - {cmd}))
    else None
  }

  function AppendDesc(desc: string, rule: string): string {
    if desc == [] then rule else desc + " " + rule
  }

  function WithPattern(p: Patterns, pattern: string): Patterns {
    if pattern == "*" then EVERY
    else Patterns(false, if pattern in p.list then p.list else p.list + [pattern])
  }

  /** The rules that print a set of patterns. */
  function PatternRules(mark: char, p: Patterns): seq<string> {
    if p.all then [[mark, '*']] else Marked(mark, p.list)
  }

  function Marked(mark: char, list: seq<string>): seq<string> {
    seq(|list|, i requires 0 <= i < |list| => [mark] + list[i])
  }

  function WithKeys(u: User, p: Patterns): User {
    u.(keys := p, keysDesc := Join(PatternRules('~', p), ' '))
  }

  function WithChannels(u: User, p: Patterns): User {
    u.(channels := p, channelsDesc := Join(PatternRules('&', p), ' '))
  }

  function WithCommands(u: User, c: Commands, desc: string): User {
    u.(commands := c, commandDesc := desc)
  }

  /** The rules that are whole words; the payload flags are accepted and ignored. */
  datatype Keyword =
    | On | Off | NoPass | ResetPass | ResetKeys | AllKeys | AllChannels | ResetChannels
    | AllCommands | NoCommands | Reset | PayloadFlag

  function KeywordOf(r: string): Option<Keyword> {
    if r == "on" then Some(On)
    else if r == "off" then Some(Off)
    else if r == "nopass" then Some(NoPass)
    else if r == "resetpass" then Some(ResetPass)
    else if r == "resetkeys" then Some(ResetKeys)
    else if r == "allkeys" then Some(AllKeys)
    else if r == "allchannels" then Some(AllChannels)
    else if r == "resetchannels" then Some(ResetChannels)
    else if r == "allcommands" then Some(AllCommands)
    else if r == "nocommands" then Some(NoCommands)
    else if r == "reset" then Some(Reset)
    else if r == "sanitize-payload" || r == "skip-sanitize-payload" then Some(PayloadFlag)
    else None
  }

  function ApplyKeyword(u: User, k: Keyword): User {
    match k
    case On => u.(enabled := true)
    case Off => u.(enabled := false)
    case NoPass => u.(nopass := true, passwords := [])
    case ResetPass => u.(nopass := false, passwords := [])
    case ResetKeys => WithKeys(u, NONE)
    case AllKeys => WithKeys(u, EVERY)
    case AllChannels => WithChannels(u, EVERY)
    case ResetChannels => WithChannels(u, NONE)
    case AllCommands => WithCommands(u, Commands(true, {}, {}), "+@all")
    case NoCommands => WithCommands(u, Commands(false, {}, {}), "-@all")
    case Reset => New(u.name)
    case PayloadFlag => u
  }

  /** A new description starts at +@all and -@all; any other command rule is added to it. */
  function Described(desc: string, r: string): string {
    if r == "+@all" || r == "-@all" then r else AppendDesc(desc, r)
  }

  function AddPassword(u: User, p: string): User {
    u.(nopass := false, passwords := if p in u.passwords then u.passwords else u.passwords + [p])
  }

  predicate Sigil(r: string) {
    r != [] && r[0] in {'>', '<', '~', '&', '+', '-'}
  }

  function ApplySigil(cats: Categories, u: User, sigil: char, r: string): Option<User>
    requires r != []
  {
    var arg := r[1..];
    if sigil == '>' then (if arg == [] then None else Some(AddPassword(u, arg)))
    else if sigil == '<' then Some(u.(passwords := Without(u.passwords, arg)))
    else if sigil == '~' then Some(WithKeys(u, WithPattern(u.keys, arg)))
    else if sigil == '&' then Some(WithChannels(u, WithPattern(u.channels, arg)))
    else
      match CommandRule(cats, u.commands, r)
      case None => None
      case Some(c) => Some(WithCommands(u, c, Described(u.commandDesc, r)))
  }

  /** apply_rule; None is an error, which leaves the user alone. */
  function ApplyRule(cats: Categories, u: User, r: string): Option<User> {
    if r == "" then Some(u)
    else if Sigil(r) then ApplySigil(cats, u, r[0], r)
    else
      match KeywordOf(r)
      case None => None
      case Some(k) => Some(ApplyKeyword(u, k))
  }

  function Without(list: seq<string>, x: string): seq<string> {
    if list == [] then []
    else
      var rest := Without(list[..|list| - 1], x);
      if list[|list| - 1] == x then rest else rest + [list[|list| - 1]]
  }

  /** Rules one after another up to the first error, which is where SETUSER stops. */
  datatype Progress = Progress(user: User, ok: bool)

  function Applied(cats: Categories, u: User, rules: seq<string>): Progress {
    if rules == [] then Progress(u, true)
    else
      var before := Applied(cats, u, rules[..|rules| - 1]);
      if !before.ok then before
      else
        match ApplyRule(cats, before.user, rules[|rules| - 1])
        case None => Progress(before.user, false)
        case Some(v) => Progress(v, true)
  }

  // ----- what every rule keeps ---------------------------------------------------------------------------

  ghost predicate Distinct(list: seq<string>) {
    forall i, j :: 0 <= i < j < |list| ==> list[i] != list[j]
  }

  ghost predicate PatternsOk(p: Patterns) {
    && (p.all ==> p.list == [])
    && Distinct(p.list)
    && forall i :: 0 <= i < |p.list| ==> NoSpace(p.list[i]) && p.list[i] != "*"
  }

  function Replay(cats: Categories, rules: seq<string>): Option<Commands> {
    if rules == [] then Some(NO_COMMANDS)
    else
      match Replay(cats, rules[..|rules| - 1])
      case None => None
      case Some(c) => CommandRule(cats, c, rules[|rules| - 1])
  }

  /** The command state is the replay of the description, and the descriptions say what is stored. */
  ghost predicate Good(cats: Categories, u: User) {
    && Plain(u.name)
    && PasswordsOk(u.nopass, u.passwords)
    && PatternsOk(u.keys) && u.keysDesc == Join(PatternRules('~', u.keys), ' ')
    && PatternsOk(u.channels) && u.channelsDesc == Join(PatternRules('&', u.channels), ' ')
    && CommandsOk(cats, u.commands, u.commandDesc)
  }

  ghost predicate PasswordsOk(nopass: bool, passwords: seq<string>) {
    (nopass ==> passwords == []) && Distinct(passwords) && AllPlain(passwords)
  }

  /** The description that command rules build up. */
  function DescOf(rules: seq<string>): string {
    if rules == [] then [] else Described(DescOf(rules[..|rules| - 1]), rules[|rules| - 1])
  }

  ghost predicate CommandsOk(cats: Categories, c: Commands, desc: string) {
    && DescOf(Words(desc)) == desc
    && Replay(cats, Words(desc)) == Some(c)
  }

  lemma CommandsAppend(cats: Categories, c: Commands, desc: string, r: string, c': Commands)
    requires CommandsOk(cats, c, desc) && Plain(r) && CommandRule(cats, c, r) == Some(c') && r != "+@all" && r != "-@all"
    ensures CommandsOk(cats, c', AppendDesc(desc, r))
    ensures Words(AppendDesc(desc, r)) == Words(desc) + [r]
  {
    WordsOfPlain(r);
    if desc != [] { WordsAfterSpace(desc, r); }
    var words := Words(desc) + [r];
    assert words[..|words| - 1] == Words(desc);
    assert desc != [] ==> Words(desc) != [];
    assert Words(AppendDesc(desc, r)) == words;
  }

  lemma CommandsAll(cats: Categories, on: bool)
    ensures CommandsOk(cats, Commands(on, {}, {}), if on then "+@all" else "-@all")
  {
    var r := if on then "+@all" else "-@all";
    WordsOfPlain(r);
    assert Words(r) == [r] && [r][..0] == [];
  }

  lemma {:induction false} WithoutKeeps(list: seq<string>, x: string)
    ensures forall y :: y in Without(list, x) <==> y in list && y != x
    ensures Distinct(list) ==> Distinct(Without(list, x))
    ensures AllPlain(list) ==> AllPlain(Without(list, x))
  {
    if list != [] {
      WithoutKeeps(list[..|list| - 1], x);
      assert list == list[..|list| - 1] + [list[|list| - 1]];
      assert Distinct(list) ==> list[|list| - 1] !in list[..|list| - 1];
    }
  }

  lemma PatternKeeps(p: Patterns, pattern: string)
    requires PatternsOk(p) && NoSpace(pattern)
    ensures PatternsOk(WithPattern(p, pattern))
  {
  }

  lemma KeywordKeepsGood(cats: Categories, u: User, k: Keyword)
    requires Good(cats, u)
    ensures Good(cats, ApplyKeyword(u, k))
  {
    hide CommandsOk, PatternsOk, Distinct, Plain;
    EmptyGood(cats);
    CommandsAll(cats, true);
    CommandsAll(cats, false);
  }

  lemma SigilKeepsGood(cats: Categories, u: User, r: string)
    requires Good(cats, u) && Plain(r) && Sigil(r) && ApplySigil(cats, u, r[0], r).Some?
    ensures Good(cats, ApplySigil(cats, u, r[0], r).value)
  {
    hide CommandRule, CommandsOk, PatternsOk, PasswordsOk, Join, Described, WithPattern, Without;
    var arg := r[1..];
    assert NoSpace(arg);
    PasswordKeeps(u, arg);
    PatternKeeps(u.keys, arg);
    PatternKeeps(u.channels, arg);
    if CommandRule(cats, u.commands, r).Some? {
      DescribedKeeps(cats, u.commands, u.commandDesc, r);
    }
  }

  lemma PasswordKeeps(u: User, p: string)
    requires PasswordsOk(u.nopass, u.passwords) && NoSpace(p)
    ensures p != [] ==> PasswordsOk(AddPassword(u, p).nopass, AddPassword(u, p).passwords)
    ensures PasswordsOk(u.nopass, Without(u.passwords, p))
  {
    WithoutKeeps(u.passwords, p);
  }

  lemma DescribedKeeps(cats: Categories, c: Commands, desc: string, r: string)
    requires CommandsOk(cats, c, desc) && Plain(r) && CommandRule(cats, c, r).Some?
    ensures CommandsOk(cats, CommandRule(cats, c, r).value, Described(desc, r))
  {
    hide CommandsOk, AppendDesc, Words;
    if r == "+@all" || r == "-@all" {
      CommandsAll(cats, r == "+@all");
    } else {
      CommandsAppend(cats, c, desc, r, CommandRule(cats, c, r).value);
    }
  }

  /** Any rule free of white space keeps a user in good order. */
  lemma RuleKeepsGood(cats: Categories, u: User, r: string)
    requires Good(cats, u) && NoSpace(r) && ApplyRule(cats, u, r).Some?
    ensures Good(cats, ApplyRule(cats, u, r).value)
  {
    hide Good, ApplyKeyword, ApplySigil, KeywordOf;
    if r != "" {
      if Sigil(r) {
        SigilKeepsGood(cats, u, r);
      } else {
        KeywordKeepsGood(cats, u, KeywordOf(r).value);
      }
    }
  }

  lemma {:induction false} RulesKeepGood(cats: Categories, u: User, rules: seq<string>)
    requires Good(cats, u) && forall i :: 0 <= i < |rules| ==> NoSpace(rules[i])
    ensures Good(cats, Applied(cats, u, rules).user)
  {
    hide Good, ApplyRule;
    if rules != [] {
      RulesKeepGood(cats, u, rules[..|rules| - 1]);
      var before := Applied(cats, u, rules[..|rules| - 1]);
      if before.ok && ApplyRule(cats, before.user, rules[|rules| - 1]).Some? {
        RuleKeepsGood(cats, before.user, rules[|rules| - 1]);
      }
    }
  }

  lemma EmptyGood(cats: Categories)
    ensures PatternsOk(NONE) && PatternsOk(EVERY) && CommandsOk(cats, NO_COMMANDS, "") && Distinct([])
  {
  }

  // ----- what a user may run --------------------------------------------------------------------------------

  /** can_execute, on a command in lower case. */
  predicate MayRun(c: Commands, cmd: string) {
    if c.all && c.disallowed == {} then true
    else if cmd in c.disallowed then false
    else if c.all then true
    else cmd in c.allowed
  }

  /** The commands a rule is about. */
  predicate Names(cats: Categories, r: string, cmd: string) {
    if r == "+@all" || r == "-@all" then true
    else if "+@" <= r || "-@" <= r then cats(r[2..]).Some? && cmd in cats(r[2..]).value
    else |r| > 1 && cmd == Lower(r[1..])
  }

  /** Only the list that the mode reads is ever in use. */
  predicate OneList(c: Commands) {
    if c.all then c.allowed == {} else c.disallowed == {}
  }

  /** A rule decides exactly the commands it names. */
  lemma RuleDecides(cats: Categories, c: Commands, r: string, cmd: string)
    requires OneList(c) && CommandRule(cats, c, r).Some?
    ensures var c' := CommandRule(cats, c, r).value;
      OneList(c') && MayRun(c', cmd) == if Names(cats, r, cmd) then r[0] == '+' else MayRun(c, cmd)
  {
  }

  /** Reading a list of rules from its end: the last one that names the command decides, and without
      one it is refused. */
  predicate Decision(cats: Categories, rules: seq<string>, cmd: string) {
    if rules == [] then false
    else
      var last := rules[|rules| - 1];
      if last != [] && Names(cats, last, cmd) then last[0] == '+' else Decision(cats, rules[..|rules| - 1], cmd)
  }

  lemma {:induction false} LastRuleWins(cats: Categories, rules: seq<string>, cmd: string)
    requires Replay(cats, rules).Some?
    ensures var c := Replay(cats, rules).value; OneList(c) && MayRun(c, cmd) == Decision(cats, rules, cmd)
  {
    hide CommandRule, MayRun, Names;
    if rules == [] {
      assert !MayRun(NO_COMMANDS, cmd) by { NothingAllowed(cmd); }
    } else {
      var init, last := rules[..|rules| - 1], rules[|rules| - 1];
      LastRuleWins(cats, init, cmd);
      RuleDecides(cats, Replay(cats, init).value, last, cmd);
      RuleNotEmpty(cats, Replay(cats, init).value, last);
    }
  }

  lemma NothingAllowed(cmd: string)
    ensures !MayRun(NO_COMMANDS, cmd)
  {
  }

  lemma RuleNotEmpty(cats: Categories, c: Commands, r: string)
    requires CommandRule(cats, c, r).Some?
    ensures r != [] && (r[0] == '+' || r[0] == '-')
  {
  }

  /** What is listed is what is enforced: a user may run a command exactly when the last rule of the
      listed description that names it grants it. */
  lemma ListedIsEnforced(cats: Categories, u: User, cmd: string)
    requires Good(cats, u)
    ensures MayRun(u.commands, cmd) == Decision(cats, Words(u.commandDesc), cmd)
  {
    hide MayRun, Decision, Words;
    LastRuleWins(cats, Words(u.commandDesc), cmd);
  }

  // ----- printing and reading back -------------------------------------------------------------------------

  function PasswordRules(u: User): seq<string> {
    if u.nopass then ["nopass"] else Marked('>', u.passwords)
  }

  function CommandPart(u: User): string {
    if u.commandDesc == [] then (if u.commands.all then "+@all" else "-@all") else u.commandDesc
  }

  function PatternPart(mark: char, p: Patterns, desc: string): seq<string> {
    if desc == [] then (if p.all then [[mark, '*']] else []) else [desc]
  }

  /** to_list_entry. */
  function Entry(u: User): string {
    Join(["user " + u.name, if u.enabled then "on" else "off"] + PasswordRules(u) +
         PatternPart('~', u.keys, u.keysDesc) + PatternPart('&', u.channels, u.channelsDesc) + [CommandPart(u)], ' ')
  }

  /** The rules an entry spells out. */
  function Rules(u: User): seq<string> {
    [if u.enabled then "on" else "off"] + PasswordRules(u) +
    PatternRules('~', u.keys) + PatternRules('&', u.channels) + Words(CommandPart(u))
  }

  lemma {:induction false} AppliedConcat(cats: Categories, u: User, a: seq<string>, b: seq<string>)
    requires Applied(cats, u, a).ok
    ensures Applied(cats, u, a + b) == Applied(cats, Applied(cats, u, a).user, b)
  {
    hide ApplyRule;
    if b == [] {
      assert a + b == a;
    } else {
      AppliedConcat(cats, u, a, b[..|b| - 1]);
      assert (a + b)[..|a + b| - 1] == a + b[..|b| - 1];
    }
  }

  lemma AppliedOne(cats: Categories, u: User, r: string)
    ensures ApplyRule(cats, u, r).Some? ==> Applied(cats, u, [r]) == Progress(ApplyRule(cats, u, r).value, true)
  {
    hide ApplyRule;
    assert [r][..0] == [] && Applied(cats, u, []) == Progress(u, true);
  }

  lemma MarkedLast(mark: char, list: seq<string>)
    requires list != []
    ensures Marked(mark, list)[..|list| - 1] == Marked(mark, list[..|list| - 1])
    ensures Marked(mark, list)[|list| - 1] == [mark] + list[|list| - 1]
    ensures list[..|list| - 1] + [list[|list| - 1]] == list
  {
  }

  lemma SigilApplied(cats: Categories, u: User, mark: char, arg: string)
    requires mark in {'>', '~', '&'}
    ensures mark == '>' && arg != [] ==> ApplyRule(cats, u, [mark] + arg) == Some(AddPassword(u, arg))
    ensures mark == '~' ==> ApplyRule(cats, u, [mark] + arg) == Some(WithKeys(u, WithPattern(u.keys, arg)))
    ensures mark == '&' ==> ApplyRule(cats, u, [mark] + arg) == Some(WithChannels(u, WithPattern(u.channels, arg)))
  {
    assert ([mark] + arg)[1..] == arg;
  }

  lemma {:induction false} PasswordsReload(cats: Categories, u: User, list: seq<string>)
    requires Distinct(list) && AllPlain(list) && !u.nopass && u.passwords == []
    ensures Applied(cats, u, Marked('>', list)) == Progress(u.(passwords := list), true)
  {
    hide ApplyRule, Marked;
    if list != [] {
      var init, last := list[..|list| - 1], list[|list| - 1];
      PasswordsReload(cats, u, init);
      MarkedLast('>', list);
      SigilApplied(cats, u.(passwords := init), '>', last);
      assert Marked('>', list) != [] && |Marked('>', list)| == |list| by { MarkedSize('>', list); }
    } else {
      MarkedSize('>', list);
    }
  }

  lemma MarkedSize(mark: char, list: seq<string>)
    ensures |Marked(mark, list)| == |list|
  {
  }

  lemma PatternsInit(list: seq<string>)
    requires list != [] && PatternsOk(Patterns(false, list))
    ensures PatternsOk(Patterns(false, list[..|list| - 1]))
    ensures WithPattern(Patterns(false, list[..|list| - 1]), list[|list| - 1]) == Patterns(false, list)
  {
    assert list[..|list| - 1] + [list[|list| - 1]] == list;
  }

  lemma {:induction false} KeysReload(cats: Categories, u: User, list: seq<string>)
    requires PatternsOk(Patterns(false, list)) && u.keys == NONE && u.keysDesc == ""
    ensures Applied(cats, u, Marked('~', list)) == Progress(WithKeys(u, Patterns(false, list)), true)
  {
    hide ApplyRule, Marked, PatternsOk, WithPattern;
    MarkedSize('~', list);
    if list == [] {
      assert WithKeys(u, NONE) == u by { MarkedSize('~', []); }
    } else {
      var init, last := list[..|list| - 1], list[|list| - 1];
      PatternsInit(list);
      KeysReload(cats, u, init);
      MarkedLast('~', list);
      SigilApplied(cats, WithKeys(u, Patterns(false, init)), '~', last);
    }
  }

  lemma {:induction false} ChannelsReload(cats: Categories, u: User, list: seq<string>)
    requires PatternsOk(Patterns(false, list)) && u.channels == NONE && u.channelsDesc == ""
    ensures Applied(cats, u, Marked('&', list)) == Progress(WithChannels(u, Patterns(false, list)), true)
  {
    hide ApplyRule, Marked, PatternsOk, WithPattern;
    MarkedSize('&', list);
    if list == [] {
      assert WithChannels(u, NONE) == u by { MarkedSize('&', []); }
    } else {
      var init, last := list[..|list| - 1], list[|list| - 1];
      PatternsInit(list);
      ChannelsReload(cats, u, init);
      MarkedLast('&', list);
      SigilApplied(cats, WithChannels(u, Patterns(false, init)), '&', last);
    }
  }

  lemma CommandApplied(cats: Categories, u: User, r: string)
    requires CommandRule(cats, u.commands, r).Some?
    ensures ApplyRule(cats, u, r) == Some(WithCommands(u, CommandRule(cats, u.commands, r).value, Described(u.commandDesc, r)))
  {
    assert r != [] && (r[0] == '+' || r[0] == '-');
  }

  lemma {:induction false} CommandsReload(cats: Categories, u: User, rules: seq<string>)
    requires u.commands == NO_COMMANDS && u.commandDesc == "" && Replay(cats, rules).Some?
    ensures Applied(cats, u, rules) == Progress(WithCommands(u, Replay(cats, rules).value, DescOf(rules)), true)
  {
    hide ApplyRule, CommandRule, Described;
    if rules != [] {
      var init := rules[..|rules| - 1];
      CommandsReload(cats, u, init);
      CommandApplied(cats, WithCommands(u, Replay(cats, init).value, DescOf(init)), rules[|rules| - 1]);
    }
  }

  /** Whole pattern sets, and the empty one. */
  lemma PatternsReload(cats: Categories, u: User, p: Patterns)
    requires PatternsOk(p)
    ensures u.keys == NONE && u.keysDesc == "" ==> Applied(cats, u, PatternRules('~', p)) == Progress(WithKeys(u, p), true)
    ensures u.channels == NONE && u.channelsDesc == "" ==> Applied(cats, u, PatternRules('&', p)) == Progress(WithChannels(u, p), true)
  {
    hide ApplyRule, Applied, Marked, Join;
    if p.all {
      SigilApplied(cats, u, '~', "*");
      SigilApplied(cats, u, '&', "*");
      AppliedOne(cats, u, ['~', '*']);
      AppliedOne(cats, u, ['&', '*']);
      assert ['~'] + "*" == ['~', '*'] && ['&'] + "*" == ['&', '*'];
    } else {
      if u.keys == NONE && u.keysDesc == "" { KeysReload(cats, u, p.list); }
      if u.channels == NONE && u.channelsDesc == "" { ChannelsReload(cats, u, p.list); }
    }
  }

  /** The user an entry brings back: the same, with a description of the commands even for a user that
      had none. */
  function Reloaded(u: User): User {
    u.(commandDesc := CommandPart(u))
  }

  lemma FirstRulesReload(cats: Categories, u: User)
    requires Good(cats, u)
    ensures Applied(cats, New(u.name), [if u.enabled then "on" else "off"] + PasswordRules(u)) ==
      Progress(New(u.name).(enabled := u.enabled, nopass := u.nopass, passwords := u.passwords), true)
  {
    hide Applied, Marked;
    var first := if u.enabled then "on" else "off";
    var u1 := New(u.name).(enabled := u.enabled);
    assert ApplyRule(cats, New(u.name), first) == Some(u1);
    AppliedOne(cats, New(u.name), first);
    AppliedConcat(cats, New(u.name), [first], PasswordRules(u));
    if u.nopass {
      assert ApplyRule(cats, u1, "nopass") == Some(u1.(nopass := true));
      AppliedOne(cats, u1, "nopass");
    } else {
      PasswordsReload(cats, u1, u.passwords);
    }
  }

  /** The rules of an entry, applied to a new user, bring the user back. */
  lemma RulesReload(cats: Categories, u: User)
    requires Good(cats, u)
    ensures Applied(cats, New(u.name), Rules(u)) == Progress(Reloaded(u), true)
  {
    hide Applied, ApplyRule, Join, Words, PatternRules, PasswordRules, PatternsOk;
    var u0 := New(u.name);
    var u2 := u0.(enabled := u.enabled, nopass := u.nopass, passwords := u.passwords);
    var u3 := WithKeys(u2, u.keys);
    var u4 := WithChannels(u3, u.channels);
    var r2 := [if u.enabled then "on" else "off"] + PasswordRules(u);
    var r3 := r2 + PatternRules('~', u.keys);
    var r4 := r3 + PatternRules('&', u.channels);
    FirstRulesReload(cats, u);
    PatternsReload(cats, u2, u.keys);
    AppliedConcat(cats, u0, r2, PatternRules('~', u.keys));
    PatternsReload(cats, u3, u.channels);
    AppliedConcat(cats, u0, r3, PatternRules('&', u.channels));
    CommandPartOk(cats, u);
    CommandsReload(cats, u4, Words(CommandPart(u)));
    AppliedConcat(cats, u0, r4, Words(CommandPart(u)));
  }

  lemma CommandPartOk(cats: Categories, u: User)
    requires Good(cats, u)
    ensures CommandsOk(cats, u.commands, CommandPart(u))
  {
    hide CommandRule;
    if u.commandDesc == [] {
      assert Words([]) == [];
      CommandsAll(cats, false);
    }
  }

  // ----- the entry as text ----------------------------------------------------------------------------------

  lemma PatternRulesPlain(mark: char, p: Patterns)
    requires PatternsOk(p) && !IsSpace(mark)
    ensures AllPlain(PatternRules(mark, p))
  {
    var rules := PatternRules(mark, p);
    forall i | 0 <= i < |rules| ensures Plain(rules[i]) {
    }
  }

  lemma PatternPartWords(mark: char, p: Patterns, desc: string)
    requires PatternsOk(p) && !IsSpace(mark) && desc == Join(PatternRules(mark, p), ' ')
    ensures AllWords(PatternPart(mark, p, desc)) == PatternRules(mark, p)
    ensures forall i :: 0 <= i < |PatternPart(mark, p, desc)| ==> OneLine(PatternPart(mark, p, desc)[i])
  {
    hide Join, Words, WordCut, PatternsOk;
    var rules := PatternRules(mark, p);
    PatternRulesPlain(mark, p);
    if rules != [] {
      JoinNotEmpty(rules);
      WordsOfPlainJoin(rules);
      forall i | 0 <= i < |rules| ensures OneLine(rules[i]) { PlainIsOneLine(rules[i]); }
      JoinIsOneLine(rules);
      assert [desc][..0] == [] && AllWords([]) == [];
    } else {
      assert desc == [] by { EmptyJoin(); }
    }
  }

  lemma EmptyJoin()
    ensures Join([], ' ') == []
  {
  }

  lemma PasswordRulesPlain(u: User)
    requires PasswordsOk(u.nopass, u.passwords)
    ensures AllPlain(PasswordRules(u))
  {
    var rules := PasswordRules(u);
    forall i | 0 <= i < |rules| ensures Plain(rules[i]) {
    }
  }

  lemma {:induction false} DescOneLine(rules: seq<string>)
    requires AllPlain(rules)
    ensures OneLine(DescOf(rules))
  {
    if rules != [] {
      DescOneLine(rules[..|rules| - 1]);
      PlainIsOneLine(rules[|rules| - 1]);
    }
  }

  lemma EntryWords(cats: Categories, u: User)
    requires Good(cats, u)
    ensures Words(Entry(u)) == ["user", u.name] + Rules(u) && OneLine(Entry(u))
  {
    hide Join, Words, WordCut, AllWords, PatternsOk, PasswordsOk, CommandsOk, PatternRules, PatternPart, PasswordRules, CommandPart;
    var first := ["user " + u.name, if u.enabled then "on" else "off"];
    var keys, channels := PatternPart('~', u.keys, u.keysDesc), PatternPart('&', u.channels, u.channelsDesc);
    var a := first + PasswordRules(u);
    FirstWords(u);
    PasswordRulesPlain(u);
    AllWordsOfPlain(PasswordRules(u));
    AllWordsConcat(first, PasswordRules(u));
    PatternPartWords('~', u.keys, u.keysDesc);
    AllWordsConcat(a, keys);
    PatternPartWords('&', u.channels, u.channelsDesc);
    AllWordsConcat(a + keys, channels);
    LastWords(cats, u);
    AllWordsConcat(a + keys + channels, [CommandPart(u)]);
    WordsOfJoin(a + keys + channels + [CommandPart(u)]);
    forall i | 0 <= i < |PasswordRules(u)| ensures OneLine(PasswordRules(u)[i]) { PlainIsOneLine(PasswordRules(u)[i]); }
    JoinIsOneLine(a + keys + channels + [CommandPart(u)]);
  }

  lemma FirstWords(u: User)
    requires Plain(u.name)
    ensures var first := ["user " + u.name, if u.enabled then "on" else "off"];
      && AllWords(first) == ["user", u.name, if u.enabled then "on" else "off"]
      && OneLine(first[0]) && OneLine(first[1])
  {
    hide WordCut;
    var on := if u.enabled then "on" else "off";
    var name := "user " + u.name;
    assert name == "user" + " " + u.name;
    WordsAfterSpace("user", u.name);
    WordsOfPlain("user");
    WordsOfPlain(u.name);
    WordsOfPlain(on);
    PlainIsOneLine(u.name);
    assert [name, on][..1] == [name] && [name][..0] == [] && AllWords([]) == [];
    assert AllWords([name]) == Words(name);
  }

  lemma LastWords(cats: Categories, u: User)
    requires Good(cats, u)
    ensures AllWords([CommandPart(u)]) == Words(CommandPart(u)) && OneLine(CommandPart(u))
  {
    CommandPartOk(cats, u);
    WordsArePlain(CommandPart(u));
    DescOneLine(Words(CommandPart(u)));
    assert [CommandPart(u)][..0] == [] && AllWords([]) == [];
  }
}
