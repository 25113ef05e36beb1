/** What a list of SETUSER rules of src/acl.rs lets a user do: for everything a rule can decide, the last
    rule that decides it settles it. */
module AclRules {
  import opened Basics
  import opened GlobMatchers
  import opened AclText
  import opened AclUsers
  import opened AclStores

  // ----- what a user may do ------------------------------------------------------------------------------

  /** check_password. */
  predicate LogsIn(u: User, password: string) {
    u.enabled && (u.nopass || password in u.passwords)
  }

  /** can_access_key and can_access_channel. */
  predicate MayUse(p: Patterns, name: string) {
    p.all || exists i :: 0 <= i < |p.list| && AclRun(p.list[i], name, 0, 0, None, 0)
  }

  // ----- what a rule says ----------------------------------------------------------------------------------

  /** Whether a rule is about a flag, and which way. */
  datatype Say = Yes | No | Nothing

  function EnabledSay(r: string): Say {
    match r
    case "on" => Yes
    case "off" => No
    case "reset" => No
    case _ => Nothing
  }

  function NoPassSay(r: string): Say {
    match r
    case "nopass" => Yes
    case "resetpass" => No
    case "reset" => No
    case _ => if ">" <= r then No else Nothing
  }

  function PasswordSay(password: string, r: string): Say {
    match r
    case "nopass" => No
    case "resetpass" => No
    case "reset" => No
    case _ => if r == ">" + password then Yes else if r == "<" + password then No else Nothing
  }

  function AllKeysSay(r: string): Say {
    match r
    case "allkeys" => Yes
    case "~*" => Yes
    case "resetkeys" => No
    case "reset" => No
    case _ => if "~" <= r then No else Nothing
  }

  function KeySay(pattern: string, r: string): Say {
    match r
    case "allkeys" => No
    case "~*" => No
    case "resetkeys" => No
    case "reset" => No
    case _ => if r == "~" + pattern then Yes else Nothing
  }

  function AllChannelsSay(r: string): Say {
    match r
    case "allchannels" => Yes
    case "&*" => Yes
    case "resetchannels" => No
    case "reset" => No
    case _ => if "&" <= r then No else Nothing
  }

  function ChannelSay(pattern: string, r: string): Say {
    match r
    case "allchannels" => No
    case "&*" => No
    case "resetchannels" => No
    case "reset" => No
    case _ => if r == "&" + pattern then Yes else Nothing
  }

  /** A category or command rule is about the commands it names. */
  function CommandSay(cats: Categories, cmd: string, r: string): Say {
    match r
    case "allcommands" => Yes
    case "+@all" => Yes
    case "nocommands" => No
    case "-@all" => No
    case "reset" => No
    case _ =>
      if "+@" <= r then (if cats(r[2..]).Some? && cmd in cats(r[2..]).value then Yes else Nothing)
      else if "-@" <= r then (if cats(r[2..]).Some? && cmd in cats(r[2..]).value then No else Nothing)
      else if "+" <= r && AsciiLower(r[1..], cmd) then Yes
      else if "-" <= r && AsciiLower(r[1..], cmd) then No
      else Nothing
  }

  /** `t` is `s` with its ASCII capitals made small. */
  predicate AsciiLower(s: string, t: string) {
    && |t| == |s|
    && forall i :: 0 <= i < |s| ==> t[i] as int == if 65 <= s[i] as int <= 90 then s[i] as int + 32 else s[i] as int
  }

  /** Reading a list of rules from its end: the last that says something, or how it was before. */
  predicate LastSay(rules: seq<string>, say: string -> Say, before: bool) {
    if rules == [] then before
    else
      match say(rules[|rules| - 1])
      case Yes => true
      case No => false
      case Nothing => LastSay(rules[..|rules| - 1], say, before)
  }

  // ----- one rule ----------------------------------------------------------------------------------------------

  function Settled(say: Say, before: bool): bool {
    match say
    case Yes => true
    case No => false
    case Nothing => before
  }

  lemma LowerIff(s: string, t: string)
    ensures AsciiLower(s, t) <==> t == Lower(s)
  {
    if AsciiLower(s, t) {
      forall i | 0 <= i < |s| ensures t[i] == Lower(s)[i] {
        assert (t[i] as int) as char == t[i];
      }
    }
  }

  /** The whole-word rules. */
  lemma WordSays(r: string, k: Keyword, password: string)
    requires KeywordOf(r) == Some(k)
    ensures !Sigil(r) && r != ""
    ensures EnabledSay(r) == if k.On? then Yes else if k.Off? || k.Reset? then No else Nothing
    ensures NoPassSay(r) == if k.NoPass? then Yes else if k.ResetPass? || k.Reset? then No else Nothing
    ensures PasswordSay(password, r) == if k.NoPass? || k.ResetPass? || k.Reset? then No else Nothing
  {
    WordIsPlain(r);
  }

  lemma WordSaysPatterns(r: string, k: Keyword, pattern: string)
    requires KeywordOf(r) == Some(k)
    ensures AllKeysSay(r) == if k.AllKeys? then Yes else if k.ResetKeys? || k.Reset? then No else Nothing
    ensures KeySay(pattern, r) == if k.AllKeys? || k.ResetKeys? || k.Reset? then No else Nothing
    ensures AllChannelsSay(r) == if k.AllChannels? then Yes else if k.ResetChannels? || k.Reset? then No else Nothing
    ensures ChannelSay(pattern, r) == if k.AllChannels? || k.ResetChannels? || k.Reset? then No else Nothing
  {
    WordIsPlain(r);
  }

  lemma WordIsPlain(r: string)
    requires KeywordOf(r).Some?
    ensures r != "" && 'a' <= r[0] <= 'z'
  {
  }

  lemma WordSaysCommands(cats: Categories, cmd: string, r: string, k: Keyword)
    requires KeywordOf(r) == Some(k)
    ensures CommandSay(cats, cmd, r) == if k.AllCommands? then Yes else if k.NoCommands? || k.Reset? then No else Nothing
  {
    hide AsciiLower;
    WordIsPlain(r);
  }

  /** The rules behind a mark. */
  lemma MarkSays(r: string, password: string)
    requires Sigil(r)
    ensures EnabledSay(r) == Nothing
    ensures NoPassSay(r) == if r[0] == '>' then No else Nothing
    ensures PasswordSay(password, r) ==
      if r[0] == '>' && r[1..] == password then Yes else if r[0] == '<' && r[1..] == password then No else Nothing
  {
    assert r == [r[0]] + r[1..];
    assert r[0] != 'o' && r[0] != 'n' && r[0] != 'r';
  }

  lemma MarkSaysPatterns(r: string, pattern: string)
    requires Sigil(r) && pattern != "*"
    ensures AllKeysSay(r) == if r[0] == '~' then (if r[1..] == "*" then Yes else No) else Nothing
    ensures KeySay(pattern, r) ==
      if r[0] == '~' && r[1..] == "*" then No else if r[0] == '~' && r[1..] == pattern then Yes else Nothing
    ensures AllChannelsSay(r) == if r[0] == '&' then (if r[1..] == "*" then Yes else No) else Nothing
    ensures ChannelSay(pattern, r) ==
      if r[0] == '&' && r[1..] == "*" then No else if r[0] == '&' && r[1..] == pattern then Yes else Nothing
  {
    assert r == [r[0]] + r[1..];
    assert r[0] != 'a' && r[0] != 'r';
    assert "~*" == "~" + "*" && "&*" == "&" + "*";
  }

  lemma MarkSaysCommands(cats: Categories, cmd: string, r: string)
    requires Sigil(r)
    ensures r[0] != '+' && r[0] != '-' ==> CommandSay(cats, cmd, r) == Nothing
    ensures (r[0] == '+' || r[0] == '-') && |r| > 1 ==>
      CommandSay(cats, cmd, r) == if Names(cats, r, cmd) then (if r[0] == '+' then Yes else No) else Nothing
  {
    hide AsciiLower, Lower;
    assert r[0] != 'a' && r[0] != 'n' && r[0] != 'r';
    LowerIff(r[1..], cmd);
  }

  lemma RuleEnables(cats: Categories, u: User, r: string)
    requires ApplyRule(cats, u, r).Some?
    ensures ApplyRule(cats, u, r).value.enabled == Settled(EnabledSay(r), u.enabled)
  {
    hide CommandRule, Join, WithPattern, Without, KeywordOf, EnabledSay, NoPassSay, PasswordSay;
    if r == "" {
      assert EnabledSay(r) == Nothing by { EmptySays("", ""); }
    } else if Sigil(r) {
      MarkSays(r, "");
    } else {
      WordSays(r, KeywordOf(r).value, "");
    }
  }

  lemma EmptySays(password: string, pattern: string)
    ensures EnabledSay("") == NoPassSay("") == PasswordSay(password, "") == Nothing
    ensures AllKeysSay("") == KeySay(pattern, "") == AllChannelsSay("") == ChannelSay(pattern, "") == Nothing
  {
  }

  lemma RulePasswords(cats: Categories, u: User, r: string, password: string)
    requires ApplyRule(cats, u, r).Some?
    ensures var v := ApplyRule(cats, u, r).value;
      && v.nopass == Settled(NoPassSay(r), u.nopass)
      && (password in v.passwords <==> Settled(PasswordSay(password, r), password in u.passwords))
  {
    hide CommandRule, Join, WithPattern, Without, KeywordOf, EnabledSay, NoPassSay, PasswordSay;
    if r == "" {
      EmptySays(password, "");
    } else if Sigil(r) {
      MarkSays(r, password);
      WithoutKeeps(u.passwords, r[1..]);
    } else {
      WordSays(r, KeywordOf(r).value, password);
    }
  }

  lemma RulePatterns(cats: Categories, u: User, r: string, pattern: string)
    requires ApplyRule(cats, u, r).Some? && pattern != "*"
    ensures var v := ApplyRule(cats, u, r).value;
      && v.keys.all == Settled(AllKeysSay(r), u.keys.all)
      && (pattern in v.keys.list <==> Settled(KeySay(pattern, r), pattern in u.keys.list))
      && v.channels.all == Settled(AllChannelsSay(r), u.channels.all)
      && (pattern in v.channels.list <==> Settled(ChannelSay(pattern, r), pattern in u.channels.list))
  {
    hide CommandRule, Join, Without, KeywordOf, AllKeysSay, KeySay, AllChannelsSay, ChannelSay;
    if r == "" {
      EmptySays("", pattern);
    } else if Sigil(r) {
      MarkSaysPatterns(r, pattern);
    } else {
      WordSaysPatterns(r, KeywordOf(r).value, pattern);
    }
  }

  lemma RuleCommands(cats: Categories, u: User, r: string, cmd: string)
    requires ApplyRule(cats, u, r).Some? && OneList(u.commands)
    ensures var v := ApplyRule(cats, u, r).value;
      OneList(v.commands) && MayRun(v.commands, cmd) == Settled(CommandSay(cats, cmd, r), MayRun(u.commands, cmd))
  {
    hide Join, WithPattern, Without, CommandSay, KeywordOf, CommandRule, Names;
    if r == "" {
      NoCommandSaid(cats, cmd);
    } else if Sigil(r) {
      MarkSaysCommands(cats, cmd, r);
      if r[0] == '+' || r[0] == '-' {
        RuleDecides(cats, u.commands, r, cmd);
        LongEnough(cats, u.commands, r);
      }
    } else {
      WordSaysCommands(cats, cmd, r, KeywordOf(r).value);
    }
  }

  lemma NoCommandSaid(cats: Categories, cmd: string)
    ensures CommandSay(cats, cmd, "") == Nothing
  {
  }

  lemma LongEnough(cats: Categories, c: Commands, r: string)
    requires CommandRule(cats, c, r).Some?
    ensures |r| > 1
  {
  }

  // ----- lists of rules --------------------------------------------------------------------------------------------

  /** After any list of accepted rules: what a user may do is what the last rule about it says. */
  lemma {:induction false} LastRuleSettles(cats: Categories, u: User, rules: seq<string>, cmd: string, password: string, pattern: string)
    requires Applied(cats, u, rules).ok && OneList(u.commands) && pattern != "*"
    ensures var v := Applied(cats, u, rules).user;
      && OneList(v.commands)
      && MayRun(v.commands, cmd) == LastSay(rules, (r: string) => CommandSay(cats, cmd, r), MayRun(u.commands, cmd))
      && v.enabled == LastSay(rules, EnabledSay, u.enabled)
      && v.nopass == LastSay(rules, NoPassSay, u.nopass)
      && (password in v.passwords <==> LastSay(rules, (r: string) => PasswordSay(password, r), password in u.passwords))
      && v.keys.all == LastSay(rules, AllKeysSay, u.keys.all)
      && (pattern in v.keys.list <==> LastSay(rules, (r: string) => KeySay(pattern, r), pattern in u.keys.list))
      && v.channels.all == LastSay(rules, AllChannelsSay, u.channels.all)
      && (pattern in v.channels.list <==> LastSay(rules, (r: string) => ChannelSay(pattern, r), pattern in u.channels.list))
  {
    hide ApplyRule, MayRun, OneList, CommandSay, EnabledSay, NoPassSay, PasswordSay, AllKeysSay, KeySay, AllChannelsSay, ChannelSay;
    if rules != [] {
      var front, last := rules[..|rules| - 1], rules[|rules| - 1];
      LastRuleSettles(cats, u, front, cmd, password, pattern);
      var w := Applied(cats, u, front).user;
      RuleCommands(cats, w, last, cmd);
      RuleEnables(cats, w, last);
      RulePasswords(cats, w, last, password);
      RulePatterns(cats, w, last, pattern);
    }
  }

  const WORDS := {
    "on", "off", "nopass", "resetpass", "resetkeys", "allkeys", "allchannels", "resetchannels",
    "allcommands", "nocommands", "reset", "sanitize-payload", "skip-sanitize-payload"
  }

  /** Which rules are accepted, whoever the user is. */
  lemma AcceptedIff(cats: Categories, u: User, r: string)
    ensures ApplyRule(cats, u, r).Some? <==>
      || r == "" || r in WORDS || r == "+@all" || r == "-@all"
      || r[0] == '<' || r[0] == '~' || r[0] == '&' || (r[0] == '>' && |r| > 1)
      || ((r[0] == '+' || r[0] == '-') && |r| > 1 && (r[1] == '@' ==> cats(r[2..]).Some?))
  {
    hide Join, WithPattern, Without, Lower;
    if r != "" && !Sigil(r) {
      KnownWords(r);
      assert r[0] != '<' && r[0] != '~' && r[0] != '&' && r[0] != '>' && r[0] != '+' && r[0] != '-';
    } else if r != "" {
      assert KeywordOf(r).Some? ==> 'a' <= r[0] <= 'z' by { if KeywordOf(r).Some? { WordIsPlain(r); } }
      KnownWords(r);
      if r[0] == '+' || r[0] == '-' { CommandAccepted(cats, u.commands, r); }
    }
  }

  lemma KnownWords(r: string)
    ensures KeywordOf(r).Some? <==> r in WORDS
  {
  }

  lemma CommandAccepted(cats: Categories, c: Commands, r: string)
    requires r != "" && (r[0] == '+' || r[0] == '-')
    ensures CommandRule(cats, c, r).Some? <==>
      r == "+@all" || r == "-@all" || (|r| > 1 && (r[1] == '@' ==> cats(r[2..]).Some?))
  {
    hide Lower;
  }

  // ----- users after a run -----------------------------------------------------------------------------------------

  lemma {:induction false} RulesKeepOneList(cats: Categories, u: User, rules: seq<string>)
    requires OneList(u.commands)
    ensures OneList(Applied(cats, u, rules).user.commands)
  {
    hide ApplyRule, OneList, MayRun, CommandSay;
    if rules != [] {
      var front, last := rules[..|rules| - 1], rules[|rules| - 1];
      RulesKeepOneList(cats, u, front);
      var before := Applied(cats, u, front);
      if before.ok && ApplyRule(cats, before.user, last).Some? { RuleCommands(cats, before.user, last, ""); }
    }
  }

  ghost predicate OneListed(t: Table) {
    forall n :: n in t ==> OneList(t[n].commands)
  }

  lemma {:induction false} LinesOneListed(cats: Categories, lines: seq<string>)
    requires LoadLines(cats, lines).Some?
    ensures OneListed(LoadLines(cats, lines).value)
  {
    hide Words, OneList, Applied, Lower;
    if lines != [] {
      LinesOneListed(cats, lines[..|lines| - 1]);
      var tokens := Words(lines[|lines| - 1]);
      WordsArePlain(lines[|lines| - 1]);
      if |tokens| >= 2 {
        assert OneList(New(tokens[1]).commands) by { NewOneListed(tokens[1], ""); }
        RulesKeepOneList(cats, New(tokens[1]), tokens[2..]);
      }
    }
  }

  lemma NewOneListed(name: string, auth: string)
    ensures OneList(New(name).commands) && OneList(Superuser(auth).commands)
  {
  }

  lemma {:induction false} RunOneListed(cats: Categories, auth: string, ops: seq<Op>)
    ensures OneListed(TableAfter(cats, auth, ops))
  {
    hide OneList, Applied, LoadLines, Lines, Deleted;
    NewOneListed("", auth);
    if ops != [] {
      var t, op := TableAfter(cats, auth, ops[..|ops| - 1]), ops[|ops| - 1];
      RunOneListed(cats, auth, ops[..|ops| - 1]);
      match op
      case Set(name, rules) =>
        NewOneListed(name, auth);
        RulesKeepOneList(cats, TableUser(t, name), rules);
      case Delete(names) => DeletedUsers(t, names);
      case Load(text) => if LoadText(cats, text).Some? { LinesOneListed(cats, Lines(text)); }
    }
  }

  /** After any run, a SETUSER whose rules are all accepted leaves a user who may run a command, log in
      with a password and use a key or channel exactly as the last rules about these say; for a new user
      nothing is allowed before. */
  lemma SetUserSettles(cats: Categories, auth: string, ops: seq<Op>, name: string, rules: seq<string>, cmd: string, password: string)
    requires name != "" && Applied(cats, TableUser(TableAfter(cats, auth, ops), name), rules).ok
    ensures var t := TableAfter(cats, auth, ops);
      var t', u := NextTable(cats, t, Set(name, rules)), TableUser(t, name);
      && name in t'
      && MayRun(t'[name].commands, cmd) == LastSay(rules, (r: string) => CommandSay(cats, cmd, r), MayRun(u.commands, cmd))
      && (LogsIn(t'[name], password) <==>
        && LastSay(rules, EnabledSay, u.enabled)
        && (|| LastSay(rules, NoPassSay, u.nopass)
            || LastSay(rules, (r: string) => PasswordSay(password, r), password in u.passwords)))
    ensures name !in TableAfter(cats, auth, ops) ==>
      var u := TableUser(TableAfter(cats, auth, ops), name);
      !MayRun(u.commands, cmd) && !LogsIn(u, password) && u.keys == u.channels == Patterns(false, [])
  {
    hide Applied, OneList, MayRun, CommandSay, PasswordSay, LastSay, TableAfter;
    var t := TableAfter(cats, auth, ops);
    RunOneListed(cats, auth, ops);
    NewOneListed(name, auth);
    LastRuleSettles(cats, TableUser(t, name), rules, cmd, password, "");
    NothingAllowed(cmd);
  }

  /** And it may use a key, likewise a channel, when the last rules about all of them or about some pattern
      that matches say so. */
  lemma SetUserPatterns(cats: Categories, auth: string, ops: seq<Op>, name: string, rules: seq<string>, key: string)
    requires name != "" && Applied(cats, TableUser(TableAfter(cats, auth, ops), name), rules).ok
    ensures var t := TableAfter(cats, auth, ops);
      var t', u := NextTable(cats, t, Set(name, rules)), TableUser(t, name);
      && (MayUse(t'[name].keys, key) <==>
        || LastSay(rules, AllKeysSay, u.keys.all)
        || exists p :: p != "*" && AclRun(p, key, 0, 0, None, 0) && LastSay(rules, (r: string) => KeySay(p, r), p in u.keys.list))
      && (MayUse(t'[name].channels, key) <==>
        || LastSay(rules, AllChannelsSay, u.channels.all)
        || exists p :: p != "*" && AclRun(p, key, 0, 0, None, 0) && LastSay(rules, (r: string) => ChannelSay(p, r), p in u.channels.list))
  {
    hide Applied, OneList, MayRun, KeySay, ChannelSay, AclRun, LastSay, TableAfter, Stored;
    var t := TableAfter(cats, auth, ops);
    var u, v := TableUser(t, name), NextTable(cats, t, Set(name, rules))[name];
    RunOneListed(cats, auth, ops);
    NewOneListed(name, auth);
    forall p: string | p != "*"
      ensures p in v.keys.list <==> LastSay(rules, (r: string) => KeySay(p, r), p in u.keys.list)
      ensures p in v.channels.list <==> LastSay(rules, (r: string) => ChannelSay(p, r), p in u.channels.list)
    {
      LastRuleSettles(cats, u, rules, "", "", p);
    }
    LastRuleSettles(cats, u, rules, "", "", "");
    RunIsStored(cats, auth, ops);
    NewIsStored(name, "");
    RulesKeepStored(cats, u, rules);
    StarNotListed(v);
    Usable(v.keys, key);
    Usable(v.channels, key);
  }

  lemma StarNotListed(u: User)
    requires Stored(u)
    ensures "*" !in u.keys.list && "*" !in u.channels.list
  {
  }

  lemma Usable(p: Patterns, name: string)
    ensures MayUse(p, name) <==> p.all || exists x :: x in p.list && AclRun(x, name, 0, 0, None, 0)
  {
    hide AclRun;
    if i :| 0 <= i < |p.list| && AclRun(p.list[i], name, 0, 0, None, 0) {
      assert p.list[i] in p.list;
    }
    if x :| x in p.list && AclRun(x, name, 0, 0, None, 0) {
      var i :| 0 <= i < |p.list| && p.list[i] == x;
    }
  }

  /** A server starts with one user who may do everything, and who needs the configured password if there
      is one. */
  lemma FirstTable(cats: Categories, auth: string, cmd: string, password: string, name: string)
    ensures var t := TableAfter(cats, auth, []);
      && t.Keys == {"default"} && t["default"].name == "default"
      && MayRun(t["default"].commands, cmd) && MayUse(t["default"].keys, name) && MayUse(t["default"].channels, name)
      && (LogsIn(t["default"], password) <==> auth == "" || password == auth)
  {
  }
}
