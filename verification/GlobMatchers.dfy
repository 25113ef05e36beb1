/** The three iterative glob matchers. A character is one byte in src/pubsub.rs and src/acl.rs,
    and one Unicode scalar in src/hashmap.rs. */
module GlobMatchers {
  import opened Basics
  import opened Glob
  import opened GlobPatterns

  ghost predicate AllStars(tokens: seq<Token>) {
    forall i :: 0 <= i < |tokens| ==> tokens[i].Star?
  }

  // ----- pub/sub patterns: stars, wildcards, classes, escapes -------------------------------------

  /** match_char_class. */
  method MatchCharClass(p: string, start: nat, c: char) returns (matched: bool, next: nat)
    requires start < |p| && p[start] == '['
    ensures var (token, after) := TokenAt(p, start);
      matched == Accepts(token, c) && (matched ==> next == after)
  {
    var idx := start + 1;
    var negated := false;
    matched := false;
    if idx < |p| && p[idx] == '^' {
      negated := true;
      idx := idx + 1;
    }
    if idx >= |p| {
      return false, idx;
    }
    ghost var body := ClassBody(p, idx);
    while idx < |p| && p[idx] != ']'
      invariant start < idx <= |p|
      invariant body.None? <==> ClassBody(p, idx).None?
      invariant body.Some? ==> body.value.1 == ClassBody(p, idx).value.1
      invariant body.Some? ==> (InRanges(c, body.value.0) <==> matched || InRanges(c, ClassBody(p, idx).value.0))
      decreases |p| - idx
    {
      if idx + 2 < |p| && p[idx + 1] == '-' && p[idx + 2] != ']' {
        if body.Some? { RangesHead(c, p[idx], p[idx + 2], ClassBody(p, idx + 3).value.0); }
        if p[idx] <= c <= p[idx + 2] {
          matched := true;
        }
        idx := idx + 3;
      } else {
        if body.Some? { RangesHead(c, p[idx], p[idx], ClassBody(p, idx + 1).value.0); }
        if p[idx] == c {
          matched := true;
        }
        idx := idx + 1;
      }
    }
    if idx < |p| && p[idx] == ']' {
      idx := idx + 1;
    } else {
      return false, start + 1;
    }
    if negated {
      matched := !matched;
    }
    next := idx;
  }

  ghost function PubSubCheckpoint(p: string, star: Option<nat>, starText: nat): Checkpoint
    requires star.Some? ==> star.value < |p|
  {
    if star.None? then Nowhere else At(Tokens(p, star.value + 1), starText)
  }

  method SkipStars(p: string, pi0: nat) returns (atEnd: bool)
    requires pi0 <= |p|
    ensures atEnd <==> AllStars(Tokens(p, pi0))
  {
    var pi := pi0;
    while pi < |p| && p[pi] == '*'
      invariant pi <= |p| && (AllStars(Tokens(p, pi0)) <==> AllStars(Tokens(p, pi)))
    {
      TokensStep(p, pi);
      assert Tokens(p, pi) == [Star] + Tokens(p, pi + 1);
      pi := pi + 1;
    }
    if pi < |p| { assert !Tokens(p, pi)[0].Star?; }
    return pi == |p|;
  }

  /** The arms of the pub/sub loop that consume one character. */
  method MatchOne(p: string, pi: nat, c: char) returns (matched: bool, next: nat)
    requires pi < |p| && p[pi] != '*'
    ensures matched == Accepts(TokenAt(p, pi).0, c)
    ensures matched ==> next == TokenAt(p, pi).1
  {
    if p[pi] == '?' {
      return true, pi + 1;
    } else if p[pi] == '[' {
      matched, next := MatchCharClass(p, pi, c);
    } else if p[pi] == '\\' {
      return pi + 1 < |p| && p[pi + 1] == c, pi + 2;
    } else {
      return p[pi] == c, pi + 1;
    }
  }

  lemma TokensStuck(p: string, pi: nat, c: char)
    requires pi <= |p|
    requires pi < |p| ==> p[pi] != '*' && !Accepts(TokenAt(p, pi).0, c)
    ensures Stuck(Tokens(p, pi), c)
  {
  }

  /** The bookkeeping of the pub/sub loop, at its variables. */
  ghost predicate PubSubTracks(p: string, text: string, pi: nat, ti: nat, star: Option<nat>, starText: nat)
    requires pi <= |p| && (star.Some? ==> star.value < |p|)
  {
    Tracking(Tokens(p, 0), text, Tokens(p, pi), ti, PubSubCheckpoint(p, star, starText))
  }

  lemma PubSubStarts(p: string, text: string)
    ensures PubSubTracks(p, text, 0, 0, None, 0)
  {
    hide Tracking, Tokens;
    TrackStart(Tokens(p, 0), text);
  }

  lemma PubSubStar(p: string, text: string, pi: nat, ti: nat, star: Option<nat>, starText: nat)
    requires pi < |p| && p[pi] == '*' && (star.Some? ==> star.value < |p|)
    requires PubSubTracks(p, text, pi, ti, star, starText)
    ensures PubSubTracks(p, text, pi + 1, ti, Some(pi), ti)
  {
    hide Tracking;
    TokensStep(p, pi);
    TrackStar(Tokens(p, 0), text, Tokens(p, pi), ti, PubSubCheckpoint(p, star, starText));
  }

  lemma PubSubOne(p: string, text: string, pi: nat, ti: nat, star: Option<nat>, starText: nat)
    requires pi < |p| && ti < |text| && p[pi] != '*' && (star.Some? ==> star.value < |p|)
    requires Accepts(TokenAt(p, pi).0, text[ti]) && PubSubTracks(p, text, pi, ti, star, starText)
    ensures PubSubTracks(p, text, TokenAt(p, pi).1, ti + 1, star, starText)
  {
    hide Tracking;
    TokensStep(p, pi);
    TrackOne(Tokens(p, 0), text, Tokens(p, pi), ti, PubSubCheckpoint(p, star, starText));
  }

  lemma PubSubBack(p: string, text: string, pi: nat, ti: nat, star: Option<nat>, starText: nat)
    requires pi <= |p| && ti < |text| && (star.Some? ==> star.value < |p|)
    requires pi < |p| ==> p[pi] != '*' && !Accepts(TokenAt(p, pi).0, text[ti])
    requires PubSubTracks(p, text, pi, ti, star, starText)
    ensures star.None? ==> !Matches(Tokens(p, 0), text)
    ensures star.Some? ==> PubSubTracks(p, text, star.value + 1, starText + 1, star, starText + 1)
  {
    hide Tracking, Matches;
    TokensStuck(p, pi, text[ti]);
    TrackBack(Tokens(p, 0), text, Tokens(p, pi), ti, PubSubCheckpoint(p, star, starText));
  }

  lemma PubSubEnds(p: string, text: string, pi: nat, star: Option<nat>, starText: nat)
    requires pi <= |p| && (star.Some? ==> star.value < |p|) && PubSubTracks(p, text, pi, |text|, star, starText)
    ensures Matches(Tokens(p, 0), text) <==> AllStars(Tokens(p, pi))
  {
    hide Tracking, Matches;
    TrackEnd(Tokens(p, 0), text, Tokens(p, pi), PubSubCheckpoint(p, star, starText));
  }

  /** matches_iter of the pub/sub matcher: true exactly when the declarative relation holds,
      for every pattern and every text. The measure goes up with the last star, then with the
      text index it is retried at, then with the pattern index. */
  method PubSubMatches(p: string, text: string) returns (result: bool)
    ensures result <==> Matches(Tokens(p, 0), text)
    ensures result <==> exists pieces :: Spells(pieces, p) && Fits(pieces, text)
  {
    hide Matches, Tokens, AllStars, Accepts, PubSubTracks, Spells, Fits;
    PatternMeans(p, text);
    var pi: nat, ti: nat := 0, 0;
    var star: Option<nat>, starText: nat := None, 0;
    PubSubStarts(p, text);
    while ti < |text|
      invariant pi <= |p| && ti <= |text| && (star.Some? ==> star.value < pi && starText <= ti)
      invariant PubSubTracks(p, text, pi, ti, star, starText)
      decreases if star.None? then |p| + 1 else |p| - star.value, |text| - starText, |p| - pi
    {
      if pi < |p| {
        if p[pi] == '*' {
          PubSubStar(p, text, pi, ti, star, starText);
          star, starText, pi := Some(pi), ti, pi + 1;
          continue;
        }
        var matched, next := MatchOne(p, pi, text[ti]);
        if matched {
          PubSubOne(p, text, pi, ti, star, starText);
          pi, ti := next, ti + 1;
          continue;
        }
      }
      PubSubBack(p, text, pi, ti, star, starText);
      if star.Some? {
        pi, starText := star.value + 1, starText + 1;
        ti := starText;
      } else {
        return false;
      }
    }
    PubSubEnds(p, text, pi, star, starText);
    result := SkipStars(p, pi);
  }

  // ----- key patterns: stars and wildcards only -----------------------------------------------------

  ghost function SimpleFrom(p: string, i: nat): seq<Token>
    requires i <= |p|
  {
    Simple(p)[i..]
  }

  lemma SimpleStep(p: string, i: nat)
    requires i < |p|
    ensures SimpleFrom(p, i) != [] && SimpleFrom(p, i)[0] == SimpleToken(p[i])
    ensures SimpleFrom(p, i)[1..] == SimpleFrom(p, i + 1)
  {
  }

  lemma SimpleStuck(p: string, i: nat, c: char)
    requires i <= |p|
    requires i < |p| ==> p[i] != '*' && p[i] != '?' && p[i] != c
    ensures Stuck(SimpleFrom(p, i), c)
  {
  }

  predicate OnlyStars(p: string, i: nat) {
    forall k :: i <= k < |p| ==> p[k] == '*'
  }

  lemma SimpleAllStars(p: string, i: nat)
    requires i <= |p|
    ensures AllStars(SimpleFrom(p, i)) <==> OnlyStars(p, i)
  {
    assert forall k :: i <= k < |p| ==> SimpleFrom(p, i)[k - i] == SimpleToken(p[k]);
  }

  ghost function SimpleCheckpoint(p: string, star: Option<nat>, starText: nat): Checkpoint
    requires star.Some? ==> star.value < |p|
  {
    if star.None? then Nowhere else At(SimpleFrom(p, star.value + 1), starText)
  }

  method SkipSimpleStars(p: string, pi0: nat) returns (atEnd: bool)
    requires pi0 <= |p|
    ensures atEnd <==> OnlyStars(p, pi0)
  {
    var pi := pi0;
    while pi < |p| && p[pi] == '*'
      invariant pi0 <= pi <= |p| && forall i :: pi0 <= i < pi ==> p[i] == '*'
    {
      pi := pi + 1;
    }
    return pi == |p|;
  }

  /** The bookkeeping of the key loop, at its variables. */
  ghost predicate KeyTracks(p: string, text: string, pi: nat, ti: nat, star: Option<nat>, starText: nat)
    requires pi <= |p| && (star.Some? ==> star.value < |p|)
  {
    Tracking(SimpleFrom(p, 0), text, SimpleFrom(p, pi), ti, SimpleCheckpoint(p, star, starText))
  }

  lemma KeyStarts(p: string, text: string)
    ensures KeyTracks(p, text, 0, 0, None, 0)
  {
    hide Tracking, SimpleFrom;
    TrackStart(SimpleFrom(p, 0), text);
  }

  lemma KeyStar(p: string, text: string, pi: nat, ti: nat, star: Option<nat>, starText: nat)
    requires pi < |p| && p[pi] == '*' && (star.Some? ==> star.value < |p|)
    requires KeyTracks(p, text, pi, ti, star, starText)
    ensures KeyTracks(p, text, pi + 1, ti, Some(pi), ti)
  {
    hide Tracking, SimpleFrom;
    SimpleStep(p, pi);
    TrackStar(SimpleFrom(p, 0), text, SimpleFrom(p, pi), ti, SimpleCheckpoint(p, star, starText));
  }

  lemma KeyOne(p: string, text: string, pi: nat, ti: nat, star: Option<nat>, starText: nat)
    requires pi < |p| && ti < |text| && p[pi] != '*' && (p[pi] == '?' || p[pi] == text[ti])
    requires (star.Some? ==> star.value < |p|) && KeyTracks(p, text, pi, ti, star, starText)
    ensures KeyTracks(p, text, pi + 1, ti + 1, star, starText)
  {
    hide Tracking, SimpleFrom;
    SimpleStep(p, pi);
    TrackOne(SimpleFrom(p, 0), text, SimpleFrom(p, pi), ti, SimpleCheckpoint(p, star, starText));
  }

  lemma KeyBack(p: string, text: string, pi: nat, ti: nat, star: Option<nat>, starText: nat)
    requires pi <= |p| && ti < |text| && (star.Some? ==> star.value < |p|)
    requires pi < |p| ==> p[pi] != '*' && p[pi] != '?' && p[pi] != text[ti]
    requires KeyTracks(p, text, pi, ti, star, starText)
    ensures star.None? ==> !Matches(SimpleFrom(p, 0), text)
    ensures star.Some? ==> KeyTracks(p, text, star.value + 1, starText + 1, star, starText + 1)
  {
    hide Tracking, SimpleFrom, Matches;
    SimpleStuck(p, pi, text[ti]);
    TrackBack(SimpleFrom(p, 0), text, SimpleFrom(p, pi), ti, SimpleCheckpoint(p, star, starText));
  }

  lemma KeyEnds(p: string, text: string, pi: nat, star: Option<nat>, starText: nat)
    requires pi <= |p| && (star.Some? ==> star.value < |p|) && KeyTracks(p, text, pi, |text|, star, starText)
    ensures Matches(SimpleFrom(p, 0), text) <==> OnlyStars(p, pi)
  {
    hide Tracking, SimpleFrom, Matches, OnlyStars;
    TrackEnd(SimpleFrom(p, 0), text, SimpleFrom(p, pi), SimpleCheckpoint(p, star, starText));
    SimpleAllStars(p, pi);
  }

  lemma LoneStar(text: string)
    ensures Matches(Simple("*"), text)
  {
    assert text[|text|..] == [] && Simple("*")[1..] == [];
  }

  /** pattern_match of the key matcher, with its shortcut for a lone star. */
  method KeyMatches(p: string, text: string) returns (result: bool)
    ensures result <==> Matches(Simple(p), text)
    ensures result <==> exists cuts :: Lines(p, text, cuts)
  {
    hide Lines;
    SimpleMeans(p, text);
    WholePattern(p);
    if p == "*" {
      LoneStar(text);
      return true;
    }
    result := KeyLoop(p, text);
  }

  method KeyLoop(p: string, text: string) returns (result: bool)
    ensures result <==> Matches(SimpleFrom(p, 0), text)
  {
    hide Matches, SimpleFrom, OnlyStars, KeyTracks;
    var pi: nat, ti: nat := 0, 0;
    var star: Option<nat>, starText: nat := None, 0;
    KeyStarts(p, text);
    while ti < |text|
      invariant pi <= |p| && ti <= |text| && (star.Some? ==> star.value < pi && starText <= ti)
      invariant KeyTracks(p, text, pi, ti, star, starText)
      decreases if star.None? then |p| + 1 else |p| - star.value, |text| - starText, |p| - pi
    {
      if pi < |p| {
        if p[pi] == '*' {
          KeyStar(p, text, pi, ti, star, starText);
          star, starText, pi := Some(pi), ti, pi + 1;
          continue;
        }
        if p[pi] == '?' || p[pi] == text[ti] {
          KeyOne(p, text, pi, ti, star, starText);
          pi, ti := pi + 1, ti + 1;
          continue;
        }
      }
      KeyBack(p, text, pi, ti, star, starText);
      if star.Some? {
        pi, starText := star.value + 1, starText + 1;
        ti := starText;
      } else {
        return false;
      }
    }
    KeyEnds(p, text, pi, star, starText);
    result := SkipSimpleStars(p, pi);
  }

  lemma WholePattern(p: string)
    ensures SimpleFrom(p, 0) == Simple(p)
  {
  }

  // ----- ACL patterns: the same syntax, with the literal comparison tried first ---------------------

  /** The rest of a run of the ACL matcher from a given state. */
  predicate AclRun(p: string, text: string, pi: nat, ti: nat, star: Option<nat>, starText: nat)
    requires pi <= |p| && ti <= |text| && starText <= ti && (star.Some? ==> star.value < pi)
    decreases if star.None? then |p| + 1 else |p| - star.value, |text| - starText, |p| - pi
  {
    if ti == |text| then OnlyStars(p, pi)
    else if pi < |p| && (p[pi] == '?' || p[pi] == text[ti]) then AclRun(p, text, pi + 1, ti + 1, star, starText)
    else if pi < |p| && p[pi] == '*' then AclRun(p, text, pi + 1, ti, Some(pi), ti)
    else if star.Some? then AclRun(p, text, star.value + 1, starText + 1, star, starText + 1)
    else false
  }

  /** glob_match_bytes. */
  method AclMatches(p: string, text: string) returns (result: bool)
    ensures result == AclRun(p, text, 0, 0, None, 0)
    ensures result ==> Matches(Simple(p), text)
    ensures '*' !in text ==> (result <==> Matches(Simple(p), text))
    ensures result ==> exists cuts :: Lines(p, text, cuts)
    ensures '*' !in text ==> (result <==> exists cuts :: Lines(p, text, cuts))
  {
    hide Matches, SimpleFrom, Simple, OnlyStars, KeyTracks, Lines;
    SimpleMeans(p, text);
    WholePattern(p);
    KeyStarts(p, text);
    AclRunAccepts(p, text);
    if '*' !in text { AclRunMatches(p, text, 0, 0, None, 0); }
    var pi: nat, ti: nat := 0, 0;
    var star: Option<nat>, starText: nat := None, 0;
    while ti < |text|
      invariant pi <= |p| && starText <= ti <= |text| && (star.Some? ==> star.value < pi)
      invariant AclRun(p, text, pi, ti, star, starText) == AclRun(p, text, 0, 0, None, 0)
      decreases if star.None? then |p| + 1 else |p| - star.value, |text| - starText, |p| - pi
    {
      if pi < |p| && (p[pi] == '?' || p[pi] == text[ti]) {
        pi, ti := pi + 1, ti + 1;
      } else if pi < |p| && p[pi] == '*' {
        star, starText, pi := Some(pi), ti, pi + 1;
      } else if star.Some? {
        pi, starText := star.value + 1, starText + 1;
        ti := starText;
      } else {
        return false;
      }
    }
    result := SkipSimpleStars(p, pi);
  }

  lemma {:induction false} AclRunMatches(p: string, text: string, pi: nat, ti: nat, star: Option<nat>, starText: nat)
    requires pi <= |p| && ti <= |text| && starText <= ti && (star.Some? ==> star.value < pi)
    requires '*' !in text && KeyTracks(p, text, pi, ti, star, starText)
    ensures AclRun(p, text, pi, ti, star, starText) <==> Matches(SimpleFrom(p, 0), text)
    decreases if star.None? then |p| + 1 else |p| - star.value, |text| - starText, |p| - pi
  {
    hide Matches, SimpleFrom, OnlyStars, KeyTracks;
    if ti == |text| {
      KeyEnds(p, text, pi, star, starText);
    } else if pi < |p| && (p[pi] == '?' || p[pi] == text[ti]) {
      assert text[ti] in text;
      KeyOne(p, text, pi, ti, star, starText);
      AclRunMatches(p, text, pi + 1, ti + 1, star, starText);
    } else if pi < |p| && p[pi] == '*' {
      KeyStar(p, text, pi, ti, star, starText);
      AclRunMatches(p, text, pi + 1, ti, Some(pi), ti);
    } else {
      KeyBack(p, text, pi, ti, star, starText);
      if star.Some? {
        AclRunMatches(p, text, star.value + 1, starText + 1, star, starText + 1);
      }
    }
  }

  /** A match of the rest of the pattern here makes a match of the whole. */
  ghost predicate Leads(p: string, text: string, pi: nat, ti: nat)
    requires pi <= |p| && ti <= |text|
  {
    Matches(SimpleFrom(p, pi), text[ti..]) ==> Matches(SimpleFrom(p, 0), text)
  }

  lemma LeadsOne(p: string, text: string, pi: nat, ti: nat)
    requires pi < |p| && ti < |text| && (p[pi] == '?' || p[pi] == text[ti]) && Leads(p, text, pi, ti)
    ensures Leads(p, text, pi + 1, ti + 1)
  {
    hide SimpleFrom;
    SimpleStep(p, pi);
    assert text[ti..][1..] == text[ti + 1..];
  }

  ghost predicate LeadsAfter(p: string, text: string, pi: nat, start: nat)
    requires pi <= |p|
  {
    forall k :: start <= k <= |text| ==> Leads(p, text, pi, k)
  }

  lemma LeadsStar(p: string, text: string, pi: nat, ti: nat)
    requires pi < |p| && ti <= |text| && p[pi] == '*' && Leads(p, text, pi, ti)
    ensures LeadsAfter(p, text, pi + 1, ti)
  {
    hide SimpleFrom;
    SimpleStep(p, pi);
    forall k: nat | ti <= k <= |text| ensures text[ti..][k - ti..] == text[k..] {
    }
  }

  lemma LeadsEnd(p: string, text: string, pi: nat)
    requires pi <= |p| && Leads(p, text, pi, |text|) && OnlyStars(p, pi)
    ensures Matches(SimpleFrom(p, 0), text)
  {
    hide SimpleFrom;
    SimpleAllStars(p, pi);
    assert text[|text|..] == [];
    MatchesEmpty(SimpleFrom(p, pi));
  }

  lemma {:induction false} AclRunLeads(p: string, text: string, pi: nat, ti: nat, star: Option<nat>, starText: nat)
    requires pi <= |p| && ti <= |text| && starText <= ti && (star.Some? ==> star.value < pi)
    requires Leads(p, text, pi, ti)
    requires star.Some? ==> LeadsAfter(p, text, star.value + 1, starText)
    ensures AclRun(p, text, pi, ti, star, starText) ==> Matches(SimpleFrom(p, 0), text)
    decreases if star.None? then |p| + 1 else |p| - star.value, |text| - starText, |p| - pi
  {
    hide Matches, SimpleFrom, OnlyStars, Leads;
    if ti == |text| {
      if OnlyStars(p, pi) { LeadsEnd(p, text, pi); }
    } else if pi < |p| && (p[pi] == '?' || p[pi] == text[ti]) {
      LeadsOne(p, text, pi, ti);
      AclRunLeads(p, text, pi + 1, ti + 1, star, starText);
    } else if pi < |p| && p[pi] == '*' {
      LeadsStar(p, text, pi, ti);
      AclRunLeads(p, text, pi + 1, ti, Some(pi), ti);
    } else if star.Some? {
      AclRunLeads(p, text, star.value + 1, starText + 1, star, starText + 1);
    }
  }

  /** With or without a star in the text, the ACL matcher accepts nothing that does not match. */
  lemma AclRunAccepts(p: string, text: string)
    ensures AclRun(p, text, 0, 0, None, 0) ==> Matches(Simple(p), text)
  {
    hide Matches, Simple;
    WholePattern(p);
    assert text[0..] == text;
    AclRunLeads(p, text, 0, 0, None, 0);
  }

  ghost function Wildcards(n: nat): (r: string)
    ensures |r| == n && forall i :: 0 <= i < n ==> r[i] == '?'
  {
    seq(n, _ => '?')
  }

  lemma {:induction false} WildcardsRun(p: string, text: string, n: nat)
    requires n <= |p| && n <= |text| && Wildcards(n) <= p
    ensures AclRun(p, text, 0, 0, None, 0) == AclRun(p, text, n, n, None, 0)
    decreases n
  {
    if n > 0 {
      assert Wildcards(n - 1) == Wildcards(n)[..n - 1];
      WildcardsRun(p, text, n - 1);
      assert p[n - 1] == Wildcards(n)[n - 1];
    }
  }

  lemma {:induction false} WildcardsMatch(n: nat, rest: string, text: string)
    requires n <= |text| && Matches(Simple(rest), text[n..])
    ensures Matches(Simple(Wildcards(n) + rest), text)
  {
    if n == 0 {
      assert Wildcards(0) + rest == rest && text[0..] == text;
    } else {
      assert text[1..][n - 1..] == text[n..];
      WildcardsMatch(n - 1, rest, text[1..]);
      var p := Wildcards(n) + rest;
      assert Simple(p)[1..] == Simple(Wildcards(n - 1) + rest);
    }
  }

  /** A pattern on which the ACL matcher goes wrong, for any text with a star in it: it takes
      the pattern's star for the text's, and has no checkpoint to come back to. */
  lemma StarInText(text: string, n: nat)
    requires n < |text| && text[n] == '*'
    ensures
      var p := Wildcards(n) + (if n + 1 < |text| then "*" else "*?");
      Matches(Simple(p), text) && !AclRun(p, text, 0, 0, None, 0)
  {
    var tail := if n + 1 < |text| then "*" else "*?";
    var p := Wildcards(n) + tail;
    WildcardsRun(p, text, n);
    assert p[n] == '*';
    var tokens := Simple(tail);
    if n + 1 < |text| {
      assert tokens[1..] == [] && text[n..][|text| - n..] == [];
      assert Matches(tokens, text[n..]);
    } else {
      assert p[n + 1] == '?';
      assert text[n..][0..] == text[n..] && text[n..][1..] == [];
      assert tokens[1..] == [AnyOne] && tokens[1..][1..] == [];
      assert Matches(tokens[1..], text[n..][0..]);
    }
    WildcardsMatch(n, tail, text);
  }

  /** The ACL matcher agrees with the key matcher's relation on every pattern exactly for the
      texts that contain no star. */
  lemma AclAgreesIff(text: string)
    ensures (forall p :: AclRun(p, text, 0, 0, None, 0) <==> Matches(Simple(p), text)) <==> '*' !in text
  {
    if '*' in text {
      var n :| 0 <= n < |text| && text[n] == '*';
      StarInText(text, n);
    } else {
      forall p: string ensures AclRun(p, text, 0, 0, None, 0) <==> Matches(Simple(p), text) {
        WholePattern(p);
        TrackStart(SimpleFrom(p, 0), text);
        AclRunMatches(p, text, 0, 0, None, 0);
      }
    }
  }
}
