/** Words, lines and joining, as the ACL file format of src/acl.rs uses them. */
module AclText {

  /** Unicode white space. */
  predicate IsSpace(c: char) {
    var n := c as int;
    9 <= n <= 13 || n == 0x20 || n == 0x85 || n == 0xA0 || n == 0x1680 || 0x2000 <= n <= 0x200A
    || n == 0x2028 || n == 0x2029 || n == 0x202F || n == 0x205F || n == 0x3000
  }

  predicate NoSpace(s: string) {
    forall i :: 0 <= i < |s| ==> !IsSpace(s[i])
  }

  /** A word: not empty and free of white space. */
  predicate Plain(s: string) { s != [] && NoSpace(s) }

  ghost predicate AllPlain(ws: seq<string>) {
    forall i :: 0 <= i < |ws| ==> Plain(ws[i])
  }

  /** The pieces closed so far and the one still open. */
  datatype Cut = Cut(done: seq<string>, open: string)

  function Closed(c: Cut): seq<string> {
    if c.open == [] then c.done else c.done + [c.open]
  }

  function WordCut(s: string): Cut {
    if s == [] then Cut([], [])
    else
      var c := WordCut(s[..|s| - 1]);
      var x := s[|s| - 1];
      if IsSpace(x) then Cut(Closed(c), []) else Cut(c.done, c.open + [x])
  }

  /** split_whitespace. */
  function Words(s: string): seq<string> { Closed(WordCut(s)) }

  lemma {:induction false} WordCutAfterSpace(a: string, c: char, b: string)
    requires IsSpace(c)
    ensures WordCut(a + [c] + b) == Cut(Words(a) + WordCut(b).done, WordCut(b).open)
  {
    var s := a + [c] + b;
    if b == [] {
      assert s[..|s| - 1] == a;
    } else {
      WordCutAfterSpace(a, c, b[..|b| - 1]);
      assert s[..|s| - 1] == a + [c] + b[..|b| - 1];
      var cut := WordCut(b[..|b| - 1]);
      assert Words(a) + cut.done + [cut.open] == Words(a) + (cut.done + [cut.open]);
    }
  }

  lemma WordsAfterSpace(a: string, b: string)
    ensures Words(a + " " + b) == Words(a) + Words(b)
  {
    WordCutAfterSpace(a, ' ', b);
    var cut := WordCut(b);
    assert Words(a) + cut.done + [cut.open] == Words(a) + (cut.done + [cut.open]);
  }

  lemma {:induction false} WordsOfPlain(w: string)
    requires NoSpace(w)
    ensures WordCut(w) == Cut([], w)
    ensures w != [] ==> Words(w) == [w]
  {
    if w != [] {
      WordsOfPlain(w[..|w| - 1]);
      assert w[..|w| - 1] + [w[|w| - 1]] == w;
    }
  }

  lemma {:induction false} WordsArePlain(s: string)
    ensures AllPlain(WordCut(s).done) && NoSpace(WordCut(s).open) && AllPlain(Words(s))
  {
    if s != [] { WordsArePlain(s[..|s| - 1]); }
  }

  function Join(parts: seq<string>, sep: char): string {
    if parts == [] then []
    else if |parts| == 1 then parts[0]
    else Join(parts[..|parts| - 1], sep) + [sep] + parts[|parts| - 1]
  }

  function AllWords(parts: seq<string>): seq<string> {
    if parts == [] then [] else AllWords(parts[..|parts| - 1]) + Words(parts[|parts| - 1])
  }

  lemma {:induction false} WordsOfJoin(parts: seq<string>)
    ensures Words(Join(parts, ' ')) == AllWords(parts)
  {
    if |parts| == 1 {
      assert parts[..0] == [] && AllWords([]) == [];
    } else if parts != [] {
      WordsOfJoin(parts[..|parts| - 1]);
      WordsAfterSpace(Join(parts[..|parts| - 1], ' '), parts[|parts| - 1]);
    }
  }

  lemma {:induction false} AllWordsOfPlain(ws: seq<string>)
    requires AllPlain(ws)
    ensures AllWords(ws) == ws
  {
    hide Words, WordCut, NoSpace;
    if ws != [] {
      AllWordsOfPlain(ws[..|ws| - 1]);
      WordsOfPlain(ws[|ws| - 1]);
    }
  }

  lemma {:induction false} AllWordsConcat(a: seq<string>, b: seq<string>)
    ensures AllWords(a + b) == AllWords(a) + AllWords(b)
  {
    if b == [] {
      assert a + b == a;
    } else {
      AllWordsConcat(a, b[..|b| - 1]);
      assert (a + b)[..|a + b| - 1] == a + b[..|b| - 1];
      assert AllWords(a) + AllWords(b[..|b| - 1]) + Words(b[|b| - 1]) == AllWords(a) + (AllWords(b[..|b| - 1]) + Words(b[|b| - 1]));
    }
  }

  lemma WordsOfPlainJoin(ws: seq<string>)
    requires AllPlain(ws)
    ensures Words(Join(ws, ' ')) == ws
  {
    WordsOfJoin(ws);
    AllWordsOfPlain(ws);
  }

  // ----- lines -------------------------------------------------------------------------------------------

  predicate OneLine(s: string) { '\n' !in s }

  function LineCut(s: string): Cut {
    if s == [] then Cut([], [])
    else
      var c := LineCut(s[..|s| - 1]);
      var x := s[|s| - 1];
      if x == '\n' then Cut(c.done + [c.open], []) else Cut(c.done, c.open + [x])
  }

  function Lines(s: string): seq<string> { Closed(LineCut(s)) }

  lemma {:induction false} LineCutAppend(a: string, line: string)
    requires OneLine(line)
    ensures LineCut(a + line) == Cut(LineCut(a).done, LineCut(a).open + line)
  {
    if line == [] {
      assert a + line == a;
    } else {
      LineCutAppend(a, line[..|line| - 1]);
      assert (a + line)[..|a + line| - 1] == a + line[..|line| - 1];
      assert line[..|line| - 1] + [line[|line| - 1]] == line;
    }
  }

  lemma PlainIsOneLine(s: string)
    requires NoSpace(s)
    ensures OneLine(s)
  {
  }

  lemma {:induction false} JoinIsOneLine(parts: seq<string>)
    requires forall i :: 0 <= i < |parts| ==> OneLine(parts[i])
    ensures OneLine(Join(parts, ' '))
  {
    if |parts| > 1 { JoinIsOneLine(parts[..|parts| - 1]); }
  }

  lemma {:induction false} JoinNotEmpty(parts: seq<string>)
    requires parts != [] && AllPlain(parts)
    ensures Join(parts, ' ') != []
  {
  }

  /** Lines joined and ended by a newline are read back one by one. */
  lemma {:induction false} LinesOfJoin(lines: seq<string>)
    requires lines != [] && forall i :: 0 <= i < |lines| ==> OneLine(lines[i])
    ensures LineCut(Join(lines, '\n') + "\n") == Cut(lines, []) && Lines(Join(lines, '\n') + "\n") == lines
  {
    var last := lines[|lines| - 1];
    var text := Join(lines, '\n');
    assert (text + "\n")[..|text|] == text && [] + last == last;
    if |lines| == 1 {
      LineCutAppend([], last);
    } else {
      var before := Join(lines[..|lines| - 1], '\n') + "\n";
      LinesOfJoin(lines[..|lines| - 1]);
      LineCutAppend(before, last);
      assert text == before + last;
      assert lines[..|lines| - 1] + [last] == lines;
    }
  }
}
