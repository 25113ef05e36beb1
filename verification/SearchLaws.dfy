/** What queries answer, in terms of the documents alone: one law for each kind of filter, and which
    documents a run of operations leaves. */
module SearchLaws {
  import opened Basics
  import opened Postings
  import opened ScoreOrder
  import opened SearchSchema
  import opened SearchIndexes

  // ----- single conditions --------------------------------------------------------------------------------

  /** At most, as IEEE compares: nothing is below or above NaN. */
  predicate AtMost(a: Score, b: Score) {
    match (a, b)
    case (NaN, _) => false
    case (_, NaN) => false
    case (NegInf, _) => true
    case (_, PosInf) => true
    case (Finite(x), Finite(y)) => x <= y
    case _ => false
  }

  /** The number a field shows: its own, or the one its text parses to. */
  predicate Shows(lex: Lexicon, field: DocumentField, v: Score) {
    field == Numeric(v) || (field.Text? && lex.parse(field.text) == Some(v))
  }

  lemma RangeIff(v: Score, min: Score, max: Score)
    ensures InRange(v, min, max) <==> AtMost(min, v) && AtMost(v, max)
  {
  }

  lemma RangeLaw(lex: Lexicon, defs: seq<FieldDef>, live: set<Name>, data: Data, f: Name, min: Score, max: Score, d: DocId)
    ensures d in Scan(lex, defs, live, data, NumericRange(f, min, max)) <==>
      && d in data && f in data[d] && FieldDef(f, NumericField) in defs
      && exists v :: Shows(lex, data[d][f], v) && AtMost(min, v) && AtMost(v, max)
  {
    hide InRange, AtMost;
    forall v ensures InRange(v, min, max) <==> AtMost(min, v) && AtMost(v, max) {
      RangeIff(v, min, max);
    }
    if d in data && f in data[d] {
      assert forall v :: Shows(lex, data[d][f], v) <==> Number(lex, data[d][f]) == Some(v);
    }
  }

  /** A tag of a field: listed, or between separators of a definition of the field. */
  predicate Carries(lex: Lexicon, field: DocumentField, separator: string, tag: Term) {
    (field.Tags? && tag in field.tags) || (field.Text? && tag in lex.split(field.text, separator))
  }

  lemma {:induction false} TagsOfIff(lex: Lexicon, defs: seq<FieldDef>, fields: Fields, f: Name, tag: Term)
    ensures tag in TagsOf(lex, defs, fields, f) <==>
      f in fields && exists separator :: FieldDef(f, TagField(separator)) in defs && Carries(lex, fields[f], separator, tag)
    decreases |defs|
  {
    if defs != [] && f in fields {
      var init, last := defs[..|defs| - 1], defs[|defs| - 1];
      TagsOfIff(lex, init, fields, f, tag);
      assert defs == init + [last];
      if last.name == f && last.kind.TagField? {
        assert last == FieldDef(f, TagField(last.kind.separator));
        assert tag in TagList(lex, fields[f], last.kind.separator) <==> Carries(lex, fields[f], last.kind.separator, tag);
      }
    }
  }

  lemma TagLaw(lex: Lexicon, defs: seq<FieldDef>, live: set<Name>, data: Data, f: Name, tag: Term, d: DocId)
    ensures d in Scan(lex, defs, live, data, TagFilter(f, tag)) <==>
      && d in data && f in data[d]
      && exists separator :: FieldDef(f, TagField(separator)) in defs && Carries(lex, data[d][f], separator, tag)
  {
    hide TagsOf, Carries;
    if d in data { TagsOfIff(lex, defs, data[d], f, tag); }
  }

  /** One term: its lower-cased form is among the tokens of the document's text in that field. */
  predicate Contains(lex: Lexicon, defs: seq<FieldDef>, fields: Fields, f: Name, term: string) {
    FieldDef(f, TextField) in defs && f in fields && fields[f].Text? && lex.lower(term) in lex.tokenize(fields[f].text)
  }

  lemma TextLaw(lex: Lexicon, defs: seq<FieldDef>, live: set<Name>, data: Data, f: Name, terms: seq<string>, d: DocId)
    ensures d in Scan(lex, defs, live, data, TextFilter(f, terms, And)) <==>
      d in data && terms != [] && forall i :: 0 <= i < |terms| ==> Contains(lex, defs, data[d], f, terms[i])
    ensures d in Scan(lex, defs, live, data, TextFilter(f, terms, Or)) <==>
      d in data && exists i :: 0 <= i < |terms| && Contains(lex, defs, data[d], f, terms[i])
    ensures d in Scan(lex, defs, live, data, TextFilter(f, terms, Not)) <==>
      d in data && f in live && forall i :: 0 <= i < |terms| ==> !Contains(lex, defs, data[d], f, terms[i])
  {
    if d in data {
      assert forall i :: 0 <= i < |terms| ==> (Contains(lex, defs, data[d], f, terms[i]) <==> Mentions(lex, defs, data[d], f, terms[i]));
    }
  }

  // ----- combinations -------------------------------------------------------------------------------------

  /** Conjunction intersects, disjunction unites, and negation takes the others away from the first. */
  lemma CompoundLaw(lex: Lexicon, defs: seq<FieldDef>, live: set<Name>, data: Data, fs: seq<Filter>, d: DocId)
    ensures d in Scan(lex, defs, live, data, Compound(And, fs)) <==>
      fs != [] && forall i :: 0 <= i < |fs| ==> d in Scan(lex, defs, live, data, fs[i])
    ensures d in Scan(lex, defs, live, data, Compound(Or, fs)) <==>
      exists i :: 0 <= i < |fs| && d in Scan(lex, defs, live, data, fs[i])
    ensures d in Scan(lex, defs, live, data, Compound(Not, fs)) <==>
      && fs != [] && d in Scan(lex, defs, live, data, fs[0])
      && forall i :: 1 <= i < |fs| ==> d !in Scan(lex, defs, live, data, fs[i])
  {
    assert fs != [] ==> (d in Scan(lex, defs, live, data, fs[0]) ==> d in data);
  }

  // ----- what a run leaves --------------------------------------------------------------------------------

  predicate Ends(op: Op, doc: DocId) {
    op.Clear? || op.doc == doc
  }

  /** The last word on a document is that it was indexed with these fields. */
  ghost predicate LastIndexed(ops: seq<Op>, doc: DocId, fields: Fields) {
    exists i :: 0 <= i < |ops| && ops[i] == Index(doc, fields) && forall k :: i < k < |ops| ==> !Ends(ops[k], doc)
  }

  lemma {:induction false} DataLaw(ops: seq<Op>, doc: DocId, fields: Fields)
    ensures doc in DataAfter(ops) && DataAfter(ops)[doc] == fields <==> LastIndexed(ops, doc, fields)
    decreases |ops|
  {
    if ops != [] {
      var init, last := ops[..|ops| - 1], ops[|ops| - 1];
      DataLaw(init, doc, fields);
      assert forall k :: 0 <= k < |init| ==> init[k] == ops[k];
      if LastIndexed(init, doc, fields) && !Ends(last, doc) {
        var i :| 0 <= i < |init| && init[i] == Index(doc, fields) && forall k :: i < k < |init| ==> !Ends(init[k], doc);
        assert ops[i] == Index(doc, fields);
      }
      if LastIndexed(ops, doc, fields) && last != Index(doc, fields) {
        var i :| 0 <= i < |ops| && ops[i] == Index(doc, fields) && forall k :: i < k < |ops| ==> !Ends(ops[k], doc);
        assert init[i] == Index(doc, fields);
      }
    }
  }

  /** Some document indexed since the last clear had text in a text field of that name. */
  ghost predicate HadText(defs: seq<FieldDef>, ops: seq<Op>, f: Name) {
    exists i :: 0 <= i < |ops| && ops[i].Index? && FieldDef(f, TextField) in defs && f in ops[i].fields && ops[i].fields[f].Text?
      && forall k :: i < k < |ops| ==> !ops[k].Clear?
  }

  lemma {:induction false} LiveLaw(lex: Lexicon, defs: seq<FieldDef>, ops: seq<Op>, f: Name)
    ensures f in LiveAfter(lex, defs, ops) <==> HadText(defs, ops, f)
    decreases |ops|
  {
    if ops != [] {
      var init, last := ops[..|ops| - 1], ops[|ops| - 1];
      LiveLaw(lex, defs, init, f);
      assert forall k :: 0 <= k < |init| ==> init[k] == ops[k];
      if HadText(defs, init, f) && !last.Clear? {
        var i :| 0 <= i < |init| && init[i].Index? && FieldDef(f, TextField) in defs && f in init[i].fields
          && init[i].fields[f].Text? && forall k :: i < k < |init| ==> !init[k].Clear?;
        assert ops[i].Index?;
      }
    }
  }
}
