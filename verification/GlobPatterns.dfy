/** Glob patterns as they are written, and what they say without a matcher: a pattern is a row of
    pieces, and it fits a text that can be cut into one stretch per piece. */
module GlobPatterns {
  import opened Basics
  import opened Glob

  // ----- reading a pattern --------------------------------------------------------------------------

  /** The members of a class body from index `i`, and the index past the closing bracket; None
      when the bracket never closes. A dash between two members makes a range, unless it is
      the last thing before the bracket. */
  function ClassBody(p: string, i: nat): (r: Option<(seq<(char, char)>, nat)>)
    requires i <= |p|
    ensures r.Some? ==> i < r.value.1 <= |p|
    decreases |p| - i
  {
    if i == |p| then None
    else if p[i] == ']' then Some(([], i + 1))
    else if i + 2 < |p| && p[i + 1] == '-' && p[i + 2] != ']' then
      var rest := ClassBody(p, i + 3);
      if rest.None? then None else Some(([(p[i], p[i + 2])] + rest.value.0, rest.value.1))
    else
      var rest := ClassBody(p, i + 1);
      if rest.None? then None else Some(([(p[i], p[i])] + rest.value.0, rest.value.1))
  }

  /** The token at index `i` and the index after it. */
  function TokenAt(p: string, i: nat): (r: (Token, nat))
    requires i < |p|
    ensures i < r.1 <= |p|
  {
    if p[i] == '*' then (Star, i + 1)
    else if p[i] == '?' then (AnyOne, i + 1)
    else if p[i] == '[' then
      var negated := i + 1 < |p| && p[i + 1] == '^';
      var body := ClassBody(p, if negated then i + 2 else i + 1);
      if body.None? then (Never, i + 1) else (Class(negated, body.value.0), body.value.1)
    else if p[i] == '\\' then
      if i + 1 < |p| then (Exactly(p[i + 1]), i + 2) else (Never, i + 1)
    else (Exactly(p[i]), i + 1)
  }

  /** The tokens from index `i`; nothing matches beyond an unclosed class or a final backslash. */
  ghost function Tokens(p: string, i: nat): seq<Token>
    requires i <= |p|
    decreases |p| - i
  {
    if i == |p| then []
    else
      var (token, next) := TokenAt(p, i);
      if token.Never? then [Never] else [token] + Tokens(p, next)
  }

  lemma TokensStep(p: string, i: nat)
    requires i < |p| && !TokenAt(p, i).0.Never?
    ensures Tokens(p, i) != [] && Tokens(p, i)[0] == TokenAt(p, i).0
    ensures Tokens(p, i)[1..] == Tokens(p, TokenAt(p, i).1)
  {
  }

  // ----- writing one --------------------------------------------------------------------------------

  datatype Member = One(c: char) | Span(lo: char, hi: char)

  datatype Piece =
    | Stretch
    | Wild
    | Plain(c: char)
    | Escaped(c: char)
    | OneOf(negated: bool, members: seq<Member>)

  predicate Within(c: char, m: Member) {
    match m
    case One(d) => c == d
    case Span(lo, hi) => lo <= c <= hi
  }

  /** A piece stands for the text from `a` to `b`. */
  ghost predicate Stands(piece: Piece, text: string, a: nat, b: nat)
    requires a <= |text| && b <= |text|
  {
    match piece
    case Stretch => a <= b
    case Wild => b == a + 1
    case Plain(c) => b == a + 1 && text[a] == c
    case Escaped(c) => b == a + 1 && text[a] == c
    case OneOf(negated, members) => b == a + 1 && (negated <==> forall m :: m in members ==> !Within(text[a], m))
  }

  ghost predicate AlignedFrom(pieces: seq<Piece>, text: string, at: nat, cuts: seq<nat>) {
    && |cuts| == |pieces| + 1 && cuts[0] == at && cuts[|pieces|] == |text|
    && (forall i :: 0 <= i < |cuts| ==> cuts[i] <= |text|)
    && forall i :: 0 <= i < |pieces| ==> Stands(pieces[i], text, cuts[i], cuts[i + 1])
  }

  ghost predicate Aligned(pieces: seq<Piece>, text: string, cuts: seq<nat>) {
    AlignedFrom(pieces, text, 0, cuts)
  }

  function First(m: Member): char {
    match m case One(c) => c case Span(lo, _) => lo
  }

  function WriteMember(m: Member): string {
    match m case One(c) => [c] case Span(lo, hi) => [lo, '-', hi]
  }

  function WriteMembers(members: seq<Member>): string {
    if members == [] then "" else WriteMember(members[0]) + WriteMembers(members[1..])
  }

  function WritePiece(piece: Piece): string {
    match piece
    case Stretch => "*"
    case Wild => "?"
    case Plain(c) => [c]
    case Escaped(c) => ['\\', c]
    case OneOf(negated, members) => (if negated then "[^" else "[") + WriteMembers(members) + "]"
  }

  function Write(pieces: seq<Piece>): string {
    if pieces == [] then "" else WritePiece(pieces[0]) + Write(pieces[1..])
  }

  /** Members that read back as written: no bracket, and no dash after a lone member except as
      the last thing in the class. */
  ghost predicate ReadableMembers(members: seq<Member>) {
    members == [] ||
    (&& ']' !in WriteMember(members[0])
     && (members[0].One? && |members| > 1 && First(members[1]) == '-' ==> members[1..] == [One('-')])
     && ReadableMembers(members[1..]))
  }

  ghost predicate Readable(piece: Piece) {
    match piece
    case Plain(c) => c != '*' && c != '?' && c != '[' && c != '\\'
    case OneOf(negated, members) => ReadableMembers(members) && (members == [] || negated || First(members[0]) != '^')
    case _ => true
  }

  ghost predicate Spells(pieces: seq<Piece>, p: string) {
    (forall i :: 0 <= i < |pieces| ==> Readable(pieces[i])) && Write(pieces) == p
  }

  // ----- a written pattern reads back as its pieces -------------------------------------------------

  ghost function RangeOf(m: Member): (char, char) {
    match m case One(c) => (c, c) case Span(lo, hi) => (lo, hi)
  }

  ghost function RangesOf(members: seq<Member>): seq<(char, char)> {
    if members == [] then [] else [RangeOf(members[0])] + RangesOf(members[1..])
  }

  ghost function TokenOf(piece: Piece): Token {
    match piece
    case Stretch => Star
    case Wild => AnyOne
    case Plain(c) => Exactly(c)
    case Escaped(c) => Exactly(c)
    case OneOf(negated, members) => Class(negated, RangesOf(members))
  }

  ghost function TokensOf(pieces: seq<Piece>): seq<Token> {
    if pieces == [] then [] else [TokenOf(pieces[0])] + TokensOf(pieces[1..])
  }

  lemma Tail(p: string, i: nat, head: string, rest: string)
    requires i <= |p| && p[i..] == head + rest
    ensures i + |head| <= |p| && p[i + |head|..] == rest && p[i..i + |head|] == head
    ensures forall k :: 0 <= k < |head| ==> p[i + k] == head[k]
    ensures |rest| > 0 ==> i + |head| < |p| && p[i + |head|] == rest[0]
    ensures |rest| > 1 ==> i + |head| + 1 < |p| && p[i + |head| + 1] == rest[1]
  {
    assert forall k :: 0 <= k < |head| ==> p[i..][k] == p[i + k];
    assert p[i..][|head|..] == rest;
  }

  lemma Beyond(p: string, i: nat, head: string, rest: string)
    requires i <= |p| && p[i..] == head + rest
    ensures i + |head| <= |p| && p[i + |head|..] == rest
  {
    Tail(p, i, head, rest);
  }

  lemma SpanReads(p: string, i: nat, ranges: seq<(char, char)>, end: nat)
    requires i + 2 < |p| && p[i] != ']' && p[i + 1] == '-' && p[i + 2] != ']'
    requires ClassBody(p, i + 3) == Some((ranges, end))
    ensures ClassBody(p, i) == Some(([(p[i], p[i + 2])] + ranges, end))
  {
  }

  lemma OneReads(p: string, i: nat, ranges: seq<(char, char)>, end: nat)
    requires i + 1 < |p| && p[i] != ']' && !(i + 2 < |p| && p[i + 1] == '-' && p[i + 2] != ']')
    requires ClassBody(p, i + 1) == Some((ranges, end))
    ensures ClassBody(p, i) == Some(([(p[i], p[i])] + ranges, end))
  {
  }

  /** One member at the front of a class body. */
  lemma MemberReads(p: string, i: nat, m: Member, others: seq<Member>, rest: string, ranges: seq<(char, char)>, end: nat)
    requires i <= |p| && p[i..] == WriteMember(m) + (WriteMembers(others) + ("]" + rest)) && i + |WriteMember(m)| <= |p|
    requires ']' !in WriteMember(m) && (m.One? && others != [] && First(others[0]) == '-' ==> others == [One('-')])
    requires ClassBody(p, i + |WriteMember(m)|) == Some((ranges, end))
    ensures ClassBody(p, i) == Some(([RangeOf(m)] + ranges, end))
  {
    hide ClassBody, WriteMembers;
    Tail(p, i, WriteMember(m), WriteMembers(others) + ("]" + rest));
    assert WriteMember(m)[0] != ']';
    if m.Span? {
      assert WriteMember(m)[2] != ']';
      SpanReads(p, i, ranges, end);
    } else {
      NextMember(others, rest);
      OneReads(p, i, ranges, end);
    }
  }

  lemma WriteMembersHead(members: seq<Member>, rest: string)
    requires members != []
    ensures WriteMembers(members) + rest == WriteMember(members[0]) + (WriteMembers(members[1..]) + rest)
  {
  }

  lemma {:induction false} BodyReads(p: string, i: nat, members: seq<Member>, rest: string)
    requires i <= |p| && p[i..] == WriteMembers(members) + ("]" + rest) && ReadableMembers(members)
    ensures ClassBody(p, i) == Some((RangesOf(members), i + |WriteMembers(members)| + 1))
    decreases |members|
  {
    if members == [] {
      assert p[i..][0] == ']';
    } else {
      hide ClassBody, WriteMember, First, RangeOf;
      WriteMembersHead(members, "]" + rest);
      Beyond(p, i, WriteMember(members[0]), WriteMembers(members[1..]) + ("]" + rest));
      BodyReads(p, i + |WriteMember(members[0])|, members[1..], rest);
      MemberReads(p, i, members[0], members[1..], rest, RangesOf(members[1..]), i + |WriteMembers(members)| + 1);
    }
  }

  /** What comes after a lone member does not make it a range. */
  lemma NextMember(members: seq<Member>, rest: string)
    ensures (WriteMembers(members) + ("]" + rest))[0] == if members == [] then ']' else First(members[0])
    ensures members == [One('-')] ==> (WriteMembers(members) + ("]" + rest))[1] == ']'
  {
    if members == [One('-')] {
      assert members[1..] == [];
    }
  }

  lemma Regroup(a: string, b: string, c: string, d: string)
    ensures a + b + c + d == a + (b + (c + d))
  {
  }

  lemma ClassToken(p: string, i: nat, negated: bool, ranges: seq<(char, char)>, end: nat)
    requires i + 1 < |p| && p[i] == '[' && (negated <==> p[i + 1] == '^')
    requires ClassBody(p, if negated then i + 2 else i + 1) == Some((ranges, end))
    ensures TokenAt(p, i) == (Class(negated, ranges), end)
  {
  }

  lemma ClassReads(p: string, i: nat, negated: bool, members: seq<Member>, rest: string)
    requires i <= |p| && p[i..] == WritePiece(OneOf(negated, members)) + rest && Readable(OneOf(negated, members))
    ensures i < |p| && TokenAt(p, i) == (Class(negated, RangesOf(members)), i + |WritePiece(OneOf(negated, members))|)
  {
    hide ClassBody, WriteMembers, ReadableMembers, First, RangesOf, TokenAt;
    var start := if negated then "[^" else "[";
    var body := WriteMembers(members);
    Regroup(start, body, "]", rest);
    Tail(p, i, start, body + ("]" + rest));
    BodyReads(p, i + |start|, members, rest);
    NextMember(members, rest);
    ClassToken(p, i, negated, RangesOf(members), i + |start| + |body| + 1);
  }

  lemma PieceReads(p: string, i: nat, piece: Piece, rest: string)
    requires i <= |p| && p[i..] == WritePiece(piece) + rest && Readable(piece)
    ensures i < |p| && TokenAt(p, i) == (TokenOf(piece), i + |WritePiece(piece)|)
  {
    hide ClassBody, WriteMembers, ReadableMembers, RangesOf;
    if piece.OneOf? {
      ClassReads(p, i, piece.negated, piece.members, rest);
    } else {
      Tail(p, i, WritePiece(piece), rest);
    }
  }

  lemma SpellsRest(pieces: seq<Piece>, s: string)
    requires pieces != [] && Spells(pieces, s)
    ensures s == WritePiece(pieces[0]) + Write(pieces[1..])
    ensures Readable(pieces[0]) && Spells(pieces[1..], Write(pieces[1..]))
  {
  }

  lemma NothingReads(p: string, i: nat)
    requires i <= |p| && Spells([], p[i..])
    ensures Tokens(p, i) == TokensOf([])
  {
  }

  lemma {:induction false} PatternReads(p: string, i: nat, pieces: seq<Piece>)
    requires i <= |p| && Spells(pieces, p[i..])
    ensures Tokens(p, i) == TokensOf(pieces)
    decreases |pieces|
  {
    hide *;
    if pieces == [] {
      NothingReads(p, i);
    } else {
      SpellsRest(pieces, p[i..]);
      var head, rest := WritePiece(pieces[0]), Write(pieces[1..]);
      Beyond(p, i, head, rest);
      PieceReads(p, i, pieces[0], rest);
      PatternReads(p, i + |head|, pieces[1..]);
      TokenReads(p, i, pieces, i + |head|);
    }
  }

  lemma TokenReads(p: string, i: nat, pieces: seq<Piece>, next: nat)
    requires pieces != [] && i < |p| && TokenAt(p, i) == (TokenOf(pieces[0]), next)
    requires Tokens(p, next) == TokensOf(pieces[1..])
    ensures Tokens(p, i) == TokensOf(pieces)
  {
  }

  // ----- and every pattern that can match is written that way ---------------------------------------

  lemma {:induction false} BodyWritten(p: string, i: nat) returns (members: seq<Member>)
    requires i <= |p| && ClassBody(p, i).Some?
    ensures ReadableMembers(members) && p[i..ClassBody(p, i).value.1] == WriteMembers(members) + "]"
    decreases |p| - i
  {
    var end := ClassBody(p, i).value.1;
    if p[i] == ']' {
      members := [];
    } else if i + 2 < |p| && p[i + 1] == '-' && p[i + 2] != ']' {
      var rest := BodyWritten(p, i + 3);
      members := [Span(p[i], p[i + 2])] + rest;
      assert p[i..end] == [p[i], '-', p[i + 2]] + p[i + 3..end];
      MembersWritten(Span(p[i], p[i + 2]), rest);
    } else {
      var rest := BodyWritten(p, i + 1);
      members := [One(p[i])] + rest;
      assert p[i..end] == [p[i]] + p[i + 1..end];
      if rest != [] && First(rest[0]) == '-' {
        assert p[i + 1..end][0] == p[i + 1];
        LoneDash(p, i, end, rest);
      }
      MembersWritten(One(p[i]), rest);
    }
  }

  lemma MembersWritten(m: Member, rest: seq<Member>)
    requires ReadableMembers(rest) && ']' !in WriteMember(m)
    requires m.One? && rest != [] && First(rest[0]) == '-' ==> rest == [One('-')]
    ensures ReadableMembers([m] + rest) && WriteMembers([m] + rest) + "]" == WriteMember(m) + (WriteMembers(rest) + "]")
  {
    assert ([m] + rest)[1..] == rest;
  }

  /** A dash that makes no range is the last thing in its class. */
  lemma LoneDash(p: string, i: nat, end: nat, rest: seq<Member>)
    requires i + 1 < end <= |p| && !(i + 2 < |p| && p[i + 1] == '-' && p[i + 2] != ']')
    requires ClassBody(p, i + 1).Some? && ClassBody(p, i + 1).value.1 == end
    requires rest != [] && First(rest[0]) == '-' && p[i + 1..end] == WriteMembers(rest) + "]"
    ensures rest == [One('-')]
  {
    var written := WriteMembers(rest);
    assert written[0] == '-' && p[i + 1] == p[i + 1..end][0] == '-';
    assert end <= i + 3;
    assert |written| == 1 && written == WriteMember(rest[0]) + WriteMembers(rest[1..]);
  }

  lemma ClassWritten(p: string, i: nat) returns (piece: Piece)
    requires i < |p| && p[i] == '[' && !TokenAt(p, i).0.Never?
    ensures Readable(piece) && p[i..TokenAt(p, i).1] == WritePiece(piece)
  {
    hide ReadableMembers, WriteMembers;
    var negated := i + 1 < |p| && p[i + 1] == '^';
    var body := if negated then i + 2 else i + 1;
    var end := ClassBody(p, body).value.1;
    var members := BodyWritten(p, body);
    piece := OneOf(negated, members);
    assert p[i..end] == p[i..body] + p[body..end];
    assert p[i..body] == if negated then "[^" else "[";
    if members != [] {
      NextMember(members, "");
      assert WriteMembers(members) + ("]" + "") == p[body..end];
      assert p[body..end][0] == p[body];
    }
  }

  lemma PieceWritten(p: string, i: nat) returns (piece: Piece)
    requires i < |p| && !TokenAt(p, i).0.Never?
    ensures Readable(piece) && p[i..TokenAt(p, i).1] == WritePiece(piece)
  {
    hide ClassBody, ReadableMembers, WriteMembers;
    if p[i] == '[' {
      piece := ClassWritten(p, i);
    } else {
      piece := if p[i] == '*' then Stretch else if p[i] == '?' then Wild else if p[i] == '\\' then Escaped(p[i + 1]) else Plain(p[i]);
    }
  }

  lemma {:induction false} PatternWritten(p: string, i: nat) returns (pieces: seq<Piece>)
    requires i <= |p| && Never !in Tokens(p, i)
    ensures Spells(pieces, p[i..])
    decreases |p| - i
  {
    hide TokenAt, WritePiece, Readable;
    pieces := [];
    if i < |p| {
      assert Tokens(p, i)[0] in Tokens(p, i);
      TokensStep(p, i);
      var next := TokenAt(p, i).1;
      assert forall t :: t in Tokens(p, next) ==> t in Tokens(p, i)[1..];
      var piece := PieceWritten(p, i);
      var rest := PatternWritten(p, next);
      pieces := [piece] + rest;
      assert p[i..] == p[i..next] + p[next..];
    }
  }

  lemma {:induction false} NeverMatches(tokens: seq<Token>, text: string)
    requires Matches(tokens, text)
    ensures Never !in tokens
    decreases |tokens|
  {
    if tokens != [] {
      assert tokens == [tokens[0]] + tokens[1..];
      if tokens[0].Star? {
        var k :| 0 <= k <= |text| && Matches(tokens[1..], text[k..]);
        NeverMatches(tokens[1..], text[k..]);
      } else {
        NeverMatches(tokens[1..], text[1..]);
      }
    }
  }

  lemma RangesHead(c: char, lo: char, hi: char, ranges: seq<(char, char)>)
    ensures InRanges(c, [(lo, hi)] + ranges) <==> lo <= c <= hi || InRanges(c, ranges)
  {
    var all := [(lo, hi)] + ranges;
    if lo <= c <= hi { assert all[0].0 <= c <= all[0].1; }
    if InRanges(c, ranges) {
      var i :| 0 <= i < |ranges| && ranges[i].0 <= c <= ranges[i].1;
      assert all[i + 1] == ranges[i];
    }
  }

  // ----- the relation is an alignment ---------------------------------------------------------------

  lemma {:induction false} InRangesOf(c: char, members: seq<Member>)
    ensures InRanges(c, RangesOf(members)) <==> exists m :: m in members && Within(c, m)
    decreases |members|
  {
    if members != [] {
      InRangesOf(c, members[1..]);
      RangesHead(c, RangeOf(members[0]).0, RangeOf(members[0]).1, RangesOf(members[1..]));
      assert Within(c, members[0]) <==> RangeOf(members[0]).0 <= c <= RangeOf(members[0]).1;
      assert forall m :: m in members <==> m == members[0] || m in members[1..];
    }
  }

  lemma StandsIff(piece: Piece, text: string, a: nat)
    requires a < |text| && !piece.Stretch?
    ensures Stands(piece, text, a, a + 1) <==> Accepts(TokenOf(piece), text[a])
  {
    if piece.OneOf? { InRangesOf(text[a], piece.members); }
  }

  lemma AlignedBehind(pieces: seq<Piece>, text: string, at: nat, rest: seq<nat>)
    requires pieces != [] && at <= |text| && |rest| > 0 && AlignedFrom(pieces[1..], text, rest[0], rest)
    requires Stands(pieces[0], text, at, rest[0])
    ensures AlignedFrom(pieces, text, at, [at] + rest)
  {
    var cuts := [at] + rest;
    forall i | 0 <= i < |pieces| ensures Stands(pieces[i], text, cuts[i], cuts[i + 1]) {
      if i > 0 { assert Stands(pieces[1..][i - 1], text, rest[i - 1], rest[i]); }
    }
  }

  lemma MatchedHead(pieces: seq<Piece>, text: string, at: nat) returns (next: nat)
    requires pieces != [] && at <= |text| && Matches(TokensOf(pieces), text[at..])
    ensures next <= |text| && Stands(pieces[0], text, at, next) && Matches(TokensOf(pieces[1..]), text[next..])
  {
    assert TokensOf(pieces)[1..] == TokensOf(pieces[1..]);
    next := at + 1;
    if pieces[0].Stretch? {
      var k :| 0 <= k <= |text[at..]| && Matches(TokensOf(pieces)[1..], text[at..][k..]);
      next := at + k;
    } else {
      StandsIff(pieces[0], text, at);
    }
    assert text[at..][next - at..] == text[next..];
  }

  lemma {:induction false} AlignsWhenMatched(pieces: seq<Piece>, text: string, at: nat) returns (cuts: seq<nat>)
    requires at <= |text| && Matches(TokensOf(pieces), text[at..])
    ensures AlignedFrom(pieces, text, at, cuts)
    decreases |pieces|
  {
    cuts := [at];
    if pieces != [] {
      hide Matches, TokensOf, Stands;
      var next := MatchedHead(pieces, text, at);
      var rest := AlignsWhenMatched(pieces[1..], text, next);
      cuts := [at] + rest;
      AlignedBehind(pieces, text, at, rest);
    }
  }

  lemma {:induction false} MatchesWhenAligned(pieces: seq<Piece>, text: string, at: nat, cuts: seq<nat>)
    requires at <= |text| && AlignedFrom(pieces, text, at, cuts)
    ensures Matches(TokensOf(pieces), text[at..])
    decreases |pieces|
  {
    if pieces != [] {
      var next := cuts[1];
      assert Stands(pieces[0], text, cuts[0], cuts[1]);
      forall i | 0 <= i < |pieces[1..]| ensures Stands(pieces[1..][i], text, cuts[1..][i], cuts[1..][i + 1]) {
        assert Stands(pieces[i + 1], text, cuts[i + 1], cuts[i + 2]);
      }
      MatchesWhenAligned(pieces[1..], text, next, cuts[1..]);
      assert text[at..][next - at..] == text[next..];
      assert TokensOf(pieces)[1..] == TokensOf(pieces[1..]);
      if !pieces[0].Stretch? { StandsIff(pieces[0], text, at); }
    }
  }

  ghost predicate Fits(pieces: seq<Piece>, text: string) {
    exists cuts :: Aligned(pieces, text, cuts)
  }

  lemma FitsIff(pieces: seq<Piece>, text: string)
    ensures Matches(TokensOf(pieces), text) <==> Fits(pieces, text)
  {
    assert text[0..] == text;
    if Matches(TokensOf(pieces), text) {
      var cuts := AlignsWhenMatched(pieces, text, 0);
      assert Aligned(pieces, text, cuts);
    }
    if Fits(pieces, text) {
      var cuts :| Aligned(pieces, text, cuts);
      MatchesWhenAligned(pieces, text, 0, cuts);
    }
  }

  /** For every pattern and text: the relation holds exactly when the pattern is the writing of a
      row of pieces and the text can be cut into stretches that the pieces stand for. */
  lemma PatternMeans(p: string, text: string)
    ensures Matches(Tokens(p, 0), text) <==> exists pieces :: Spells(pieces, p) && Fits(pieces, text)
  {
    assert p[0..] == p;
    if Matches(Tokens(p, 0), text) {
      NeverMatches(Tokens(p, 0), text);
      var pieces := PatternWritten(p, 0);
      PatternReads(p, 0, pieces);
      FitsIff(pieces, text);
      assert Spells(pieces, p) && Fits(pieces, text);
    }
    if pieces :| Spells(pieces, p) && Fits(pieces, text) {
      PatternReads(p, 0, pieces);
      FitsIff(pieces, text);
    }
  }

  // ----- patterns of stars and wildcards only -------------------------------------------------------

  function SimpleToken(c: char): Token {
    if c == '*' then Star else if c == '?' then AnyOne else Exactly(c)
  }

  ghost function Simple(p: string): (r: seq<Token>)
    ensures |r| == |p| && forall i :: 0 <= i < |p| ==> r[i] == SimpleToken(p[i])
  {
    seq(|p|, i requires 0 <= i < |p| => SimpleToken(p[i]))
  }

  /** The text cut into one stretch per pattern character: any stretch for a star, one character
      for a question mark, and that character itself for any other. */
  ghost predicate Lines(p: string, text: string, cuts: seq<nat>) {
    && |cuts| == |p| + 1 && cuts[0] == 0 && cuts[|p|] == |text|
    && (forall i :: 0 <= i < |cuts| ==> cuts[i] <= |text|)
    && forall i :: 0 <= i < |p| ==>
         if p[i] == '*' then cuts[i] <= cuts[i + 1]
         else cuts[i + 1] == cuts[i] + 1 && (p[i] == '?' || p[i] == text[cuts[i]])
  }

  ghost function SimplePieces(p: string): (r: seq<Piece>)
    ensures |r| == |p|
    ensures forall i :: 0 <= i < |p| ==> r[i] == if p[i] == '*' then Stretch else if p[i] == '?' then Wild else Plain(p[i])
  {
    seq(|p|, i requires 0 <= i < |p| => if p[i] == '*' then Stretch else if p[i] == '?' then Wild else Plain(p[i]))
  }

  lemma {:induction false} TokensOfAt(pieces: seq<Piece>)
    ensures |TokensOf(pieces)| == |pieces| && forall i :: 0 <= i < |pieces| ==> TokensOf(pieces)[i] == TokenOf(pieces[i])
    decreases |pieces|
  {
    if pieces != [] { TokensOfAt(pieces[1..]); }
  }

  lemma LinesIff(p: string, text: string, cuts: seq<nat>)
    ensures Lines(p, text, cuts) <==> Aligned(SimplePieces(p), text, cuts)
  {
    var pieces := SimplePieces(p);
    assert |pieces| == |p|;
    if Aligned(pieces, text, cuts) {
      forall i | 0 <= i < |p|
        ensures if p[i] == '*' then cuts[i] <= cuts[i + 1] else cuts[i + 1] == cuts[i] + 1 && (p[i] == '?' || p[i] == text[cuts[i]])
      {
        assert Stands(pieces[i], text, cuts[i], cuts[i + 1]);
      }
    }
  }

  lemma SimpleMeans(p: string, text: string)
    ensures Matches(Simple(p), text) <==> exists cuts :: Lines(p, text, cuts)
  {
    TokensOfAt(SimplePieces(p));
    assert TokensOf(SimplePieces(p)) == Simple(p);
    FitsIff(SimplePieces(p), text);
    forall cuts ensures Lines(p, text, cuts) <==> Aligned(SimplePieces(p), text, cuts) {
      LinesIff(p, text, cuts);
    }
  }
}
