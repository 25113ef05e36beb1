/** Glob patterns as token sequences, with the matching relation that the iterative matchers of
    src/pubsub.rs, src/hashmap.rs and src/acl.rs implement by backtracking to the last star. */
module Glob {

  datatype Token =
    | Star
    | AnyOne
    | Exactly(c: char)
    | Class(negated: bool, ranges: seq<(char, char)>)
    | Never

  predicate InRanges(c: char, ranges: seq<(char, char)>) {
    exists i :: 0 <= i < |ranges| && ranges[i].0 <= c <= ranges[i].1
  }

  /** Whether a token other than a star accepts one character. */
  predicate Accepts(token: Token, c: char) {
    match token
    case Star => false
    case AnyOne => true
    case Exactly(d) => c == d
    case Class(negated, ranges) => InRanges(c, ranges) != negated
    case Never => false
  }

  /** The declarative relation: a star stands for any stretch of text, every other token for
      one character it accepts. */
  ghost predicate Matches(tokens: seq<Token>, text: string) {
    if tokens == [] then text == []
    else if tokens[0].Star? then exists k :: 0 <= k <= |text| && Matches(tokens[1..], text[k..])
    else text != [] && Accepts(tokens[0], text[0]) && Matches(tokens[1..], text[1..])
  }

  ghost predicate NoStar(tokens: seq<Token>) {
    forall i :: 0 <= i < |tokens| ==> !tokens[i].Star?
  }

  lemma StarWidens(tokens: seq<Token>, text: string, i: nat, j: nat)
    requires tokens != [] && tokens[0].Star? && i <= j <= |text| && Matches(tokens, text[j..])
    ensures Matches(tokens, text[i..])
  {
    var k :| 0 <= k <= |text[j..]| && Matches(tokens[1..], text[j..][k..]);
    assert text[j..][k..] == text[i..][j - i + k..];
  }

  lemma {:induction false} FixedWidth(tokens: seq<Token>, n: nat, text: string)
    requires n <= |tokens| && NoStar(tokens[..n]) && Matches(tokens, text)
    ensures n <= |text| && Matches(tokens[n..], text[n..])
    decreases n
  {
    if n == 0 {
      assert tokens[0..] == tokens && text[0..] == text;
    } else {
      assert tokens[..n][0] == tokens[0];
      assert tokens[1..][..n - 1] == tokens[..n][1..];
      FixedWidth(tokens[1..], n - 1, text[1..]);
      assert tokens[1..][n - 1..] == tokens[n..] && text[1..][n - 1..] == text[n..];
    }
  }

  lemma {:induction false} MatchesEmpty(tokens: seq<Token>)
    ensures Matches(tokens, []) <==> forall i :: 0 <= i < |tokens| ==> tokens[i].Star?
  {
    if tokens != [] {
      MatchesEmpty(tokens[1..]);
      if tokens[0].Star? {
        assert ""[0..] == "";
        assert Matches(tokens, []) <==> Matches(tokens[1..], []);
        assert forall i :: 0 < i < |tokens| ==> tokens[i] == tokens[1..][i - 1];
      }
    }
  }

  // ----- the backtracking state -----------------------------------------------------------------

  /** `after` is what follows the last star, first tried at text index `start`. */
  datatype Checkpoint = Nowhere | At(after: seq<Token>, start: nat)

  /** A match that lets the last star swallow more than it has so far. */
  ghost predicate Retry(cp: Checkpoint, text: string) {
    cp.At? && exists k :: cp.start < k <= |text| && Matches(cp.after, text[k..])
  }

  /** What every turn of the matching loop keeps: the whole pattern matches exactly when the
      rest matches here, or matches after the last star swallows more. Between the checkpoint
      and here lie only one-character tokens. */
  ghost predicate Tracking(all: seq<Token>, text: string, rest: seq<Token>, ti: nat, cp: Checkpoint) {
    && ti <= |text|
    && (Matches(all, text) <==> Matches(rest, text[ti..]) || Retry(cp, text))
    && (cp.At? ==>
      && cp.start <= ti && ti - cp.start <= |cp.after|
      && rest == cp.after[ti - cp.start..] && NoStar(cp.after[..ti - cp.start]))
  }

  lemma TrackStart(all: seq<Token>, text: string)
    ensures Tracking(all, text, all, 0, Nowhere)
  {
    assert text[0..] == text;
  }

  lemma TrackOne(all: seq<Token>, text: string, rest: seq<Token>, ti: nat, cp: Checkpoint)
    requires Tracking(all, text, rest, ti, cp) && ti < |text|
    requires rest != [] && !rest[0].Star? && Accepts(rest[0], text[ti])
    ensures Tracking(all, text, rest[1..], ti + 1, cp)
  {
    assert text[ti..][1..] == text[ti + 1..];
    if cp.At? {
      assert cp.after[..ti + 1 - cp.start] == cp.after[..ti - cp.start] + [rest[0]];
    }
  }

  /** A new star makes the older one's alternatives redundant. */
  lemma TrackStar(all: seq<Token>, text: string, rest: seq<Token>, ti: nat, cp: Checkpoint)
    requires Tracking(all, text, rest, ti, cp)
    requires rest != [] && rest[0].Star?
    ensures Tracking(all, text, rest[1..], ti, At(rest[1..], ti))
  {
    if Retry(cp, text) {
      var k :| cp.start < k <= |text| && Matches(cp.after, text[k..]);
      var n := ti - cp.start;
      FixedWidth(cp.after, n, text[k..]);
      assert text[k..][n..] == text[k + n..];
      StarWidens(rest, text, ti, k + n);
    }
    if Matches(rest, text[ti..]) {
      var k :| 0 <= k <= |text[ti..]| && Matches(rest[1..], text[ti..][k..]);
      assert text[ti..][k..] == text[ti + k..];
      if k > 0 { assert Retry(At(rest[1..], ti), text); }
    }
    if Matches(rest[1..], text[ti..]) {
      assert text[ti..][0..] == text[ti..];
      assert Matches(rest, text[ti..]);
    }
    if Retry(At(rest[1..], ti), text) {
      var k :| ti < k <= |text| && Matches(rest[1..], text[k..]);
      assert text[ti..][k - ti..] == text[k..];
      assert Matches(rest, text[ti..]);
    }
  }

  ghost predicate Stuck(rest: seq<Token>, c: char) {
    rest == [] || (!rest[0].Star? && !Accepts(rest[0], c))
  }

  lemma TrackBack(all: seq<Token>, text: string, rest: seq<Token>, ti: nat, cp: Checkpoint)
    requires Tracking(all, text, rest, ti, cp) && ti < |text| && Stuck(rest, text[ti])
    ensures cp.Nowhere? ==> !Matches(all, text)
    ensures cp.At? ==> Tracking(all, text, cp.after, cp.start + 1, At(cp.after, cp.start + 1))
  {
    assert text[ti..][0] == text[ti];
    if cp.At? {
      assert cp.after[0..] == cp.after;
      assert Retry(cp, text) <==> Matches(cp.after, text[cp.start + 1..]) || Retry(At(cp.after, cp.start + 1), text);
    }
  }

  lemma TrackEnd(all: seq<Token>, text: string, rest: seq<Token>, cp: Checkpoint)
    requires Tracking(all, text, rest, |text|, cp)
    ensures Matches(all, text) <==> forall i :: 0 <= i < |rest| ==> rest[i].Star?
  {
    assert text[|text|..] == [];
    MatchesEmpty(rest);
    if Retry(cp, text) {
      var k :| cp.start < k <= |text| && Matches(cp.after, text[k..]);
      FixedWidth(cp.after, |text| - cp.start, text[k..]);
      assert false;
    }
  }
}
