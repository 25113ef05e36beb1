/** SearchIndex of src/search_index.rs and the filter evaluation of src/query_engine.rs. */
module SearchIndexes {
  import opened Basics
  import opened Postings
  import opened ScoreOrder
  import opened SearchSchema
  import opened SearchFields

  datatype Operator = And | Or | Not

  datatype Filter =
    | TextFilter(field: Name, terms: seq<string>, op: Operator)
    | NumericRange(field: Name, min: Score, max: Score)
    | TagFilter(field: Name, tag: Term)
    | Compound(op: Operator, filters: seq<Filter>)

  /** IEEE comparison: NaN is never inside, nor a bound of, a range. */
  predicate InRange(v: Score, min: Score, max: Score) {
    !v.NaN? && !min.NaN? && !max.NaN? && !ScoreLess(v, min) && !ScoreLess(max, v)
  }

  // ----- what a filter means, read off one document's own fields ------------------------------------

  predicate Mentions(lex: Lexicon, defs: seq<FieldDef>, fields: Fields, f: Name, term: string) {
    var text := TextOf(lex, defs, fields, f);
    text.Some? && lex.lower(term) in text.value
  }

  /** `live` is the set of text fields that have an index: a negated text filter on any other field
      accepts nothing. */
  predicate Accepts(lex: Lexicon, defs: seq<FieldDef>, live: set<Name>, fields: Fields, filter: Filter) {
    match filter
    case TextFilter(f, terms, And) =>
      terms != [] && forall i :: 0 <= i < |terms| ==> Mentions(lex, defs, fields, f, terms[i])
    case TextFilter(f, terms, Or) =>
      exists i :: 0 <= i < |terms| && Mentions(lex, defs, fields, f, terms[i])
    case TextFilter(f, terms, Not) =>
      f in live && forall i :: 0 <= i < |terms| ==> !Mentions(lex, defs, fields, f, terms[i])
    case NumericRange(f, min, max) =>
      var v := NumberOf(lex, defs, fields, f);
      v.Some? && InRange(v.value, min, max)
    case TagFilter(f, tag) => tag in TagsOf(lex, defs, fields, f)
    case Compound(And, fs) => fs != [] && forall i :: 0 <= i < |fs| ==> Accepts(lex, defs, live, fields, fs[i])
    case Compound(Or, fs) => exists i :: 0 <= i < |fs| && Accepts(lex, defs, live, fields, fs[i])
    case Compound(Not, fs) =>
      && fs != []
      && Accepts(lex, defs, live, fields, fs[0])
      && forall i :: 1 <= i < |fs| ==> !Accepts(lex, defs, live, fields, fs[i])
  }

  function Scan(lex: Lexicon, defs: seq<FieldDef>, live: set<Name>, data: Data, filter: Filter): set<DocId> {
    set d | d in data && Accepts(lex, defs, live, data[d], filter)
  }

  /** The filter with every field taken to have an index: the documents a reader of the query expects. */
  function Expected(lex: Lexicon, defs: seq<FieldDef>, data: Data, filter: Filter): set<DocId> {
    Scan(lex, defs, NegatedFields(filter), data, filter)
  }

  /** The fields under a negated text filter. */
  function NegatedFields(filter: Filter): set<Name> {
    match filter
    case TextFilter(f, _, Not) => {f}
    case Compound(_, fs) => set i, f | 0 <= i < |fs| && f in NegatedFields(fs[i]) :: f
    case _ => {}
  }

  lemma {:induction false} LiveIrrelevant(lex: Lexicon, defs: seq<FieldDef>, a: set<Name>, b: set<Name>, fields: Fields, filter: Filter)
    requires a * NegatedFields(filter) == b * NegatedFields(filter)
    ensures Accepts(lex, defs, a, fields, filter) == Accepts(lex, defs, b, fields, filter)
    decreases filter
  {
    match filter
    case Compound(_, fs) =>
      forall i | 0 <= i < |fs| ensures Accepts(lex, defs, a, fields, fs[i]) == Accepts(lex, defs, b, fields, fs[i]) {
        assert NegatedFields(fs[i]) <= NegatedFields(filter);
        assert a * NegatedFields(fs[i]) == a * NegatedFields(filter) * NegatedFields(fs[i]);
        assert b * NegatedFields(fs[i]) == b * NegatedFields(filter) * NegatedFields(fs[i]);
        LiveIrrelevant(lex, defs, a, b, fields, fs[i]);
      }
    case TextFilter(f, _, op) =>
      assert op.Not? ==> f in NegatedFields(filter) && (f in a <==> f in a * NegatedFields(filter)) && (f in b <==> f in b * NegatedFields(filter));
    case _ =>
  }

  /** Queries answer as expected when every negated text field has an index. */
  lemma ExpectedWhenLive(lex: Lexicon, defs: seq<FieldDef>, live: set<Name>, data: Data, filter: Filter)
    requires NegatedFields(filter) <= live
    ensures Scan(lex, defs, live, data, filter) == Expected(lex, defs, data, filter)
  {
    assert live * NegatedFields(filter) == NegatedFields(filter) * NegatedFields(filter);
    forall d | d in data
      ensures Accepts(lex, defs, live, data[d], filter) == Accepts(lex, defs, NegatedFields(filter), data[d], filter)
    {
      LiveIrrelevant(lex, defs, live, NegatedFields(filter), data[d], filter);
    }
  }

  lemma NoIndexNoText(lex: Lexicon, defs: seq<FieldDef>, m: TextIndices, data: Data, f: Name)
    requires TextsInStep(lex, defs, m, data) && f !in m
    ensures forall d :: d in data ==> TextOf(lex, defs, data[d], f).None?
  {
    var all := AllTexts(lex, defs, data, f);
    assert Mirrors(TextIx(m, f), all);
    assert all.Keys == TextIx(m, f).docLens.Keys == {};
    forall d | d in data ensures TextOf(lex, defs, data[d], f).None? {
      assert d !in all;
    }
  }

  lemma NoIndexNoMatch(lex: Lexicon, defs: seq<FieldDef>, m: TextIndices, data: Data, f: Name, terms: seq<string>, op: Operator)
    requires TextsInStep(lex, defs, m, data) && f !in m
    ensures Scan(lex, defs, m.Keys, data, TextFilter(f, terms, op)) == {}
  {
    NoIndexNoText(lex, defs, m, data, f);
    assert terms != [] ==> forall d :: d in data ==> !Mentions(lex, defs, data[d], f, terms[0]);
    match op
    case And =>
    case Or =>
    case Not =>
  }

  /** A negated text filter answers as expected iff its field has an index or there are no documents:
      without an index no document has text in the field, so all of them were expected. */
  lemma NegationIff(lex: Lexicon, defs: seq<FieldDef>, m: TextIndices, data: Data, f: Name, terms: seq<string>)
    requires TextsInStep(lex, defs, m, data)
    ensures var q := TextFilter(f, terms, Not);
      Scan(lex, defs, m.Keys, data, q) == Expected(lex, defs, data, q) <==> f in m || data == map[]
  {
    var q := TextFilter(f, terms, Not);
    if f in m {
      ExpectedWhenLive(lex, defs, m.Keys, data, q);
    } else {
      NoIndexNoMatch(lex, defs, m, data, f, terms, Not);
      NoIndexNoText(lex, defs, m, data, f);
      assert Expected(lex, defs, data, q) == data.Keys;
      assert data != map[] ==> exists d :: d in data;
    }
  }

  function Combined(op: Operator, a: set<DocId>, b: set<DocId>): set<DocId> {
    match op
    case And => a * b
    case Or => a + b
    case Not => a - b
  }

  lemma CompoundStep(lex: Lexicon, defs: seq<FieldDef>, live: set<Name>, data: Data, op: Operator, filters: seq<Filter>, i: nat)
    requires 1 <= i < |filters|
    ensures Scan(lex, defs, live, data, Compound(op, filters[..i + 1])) ==
      Combined(op, Scan(lex, defs, live, data, Compound(op, filters[..i])), Scan(lex, defs, live, data, filters[i]))
  {
    var fs, fs' := filters[..i], filters[..i + 1];
    assert fs' == fs + [filters[i]];
    forall d | d in data
      ensures Accepts(lex, defs, live, data[d], Compound(op, fs')) ==
        match op {
          case And => Accepts(lex, defs, live, data[d], Compound(op, fs)) && Accepts(lex, defs, live, data[d], filters[i])
          case Or => Accepts(lex, defs, live, data[d], Compound(op, fs)) || Accepts(lex, defs, live, data[d], filters[i])
          case Not => Accepts(lex, defs, live, data[d], Compound(op, fs)) && !Accepts(lex, defs, live, data[d], filters[i])
        }
    {
      assert fs'[i] == filters[i] && fs'[0] == fs[0];
      assert forall k :: 0 <= k < i ==> fs'[k] == fs[k];
    }
  }

  function Lowered(lex: Lexicon, terms: seq<string>): seq<Term> {
    seq(|terms|, i requires 0 <= i < |terms| => lex.lower(terms[i]))
  }

  lemma AndScan(lex: Lexicon, defs: seq<FieldDef>, live: set<Name>, data: Data, f: Name, terms: seq<string>)
    ensures var all, lowered := AllTexts(lex, defs, data, f), Lowered(lex, terms);
      Scan(lex, defs, live, data, TextFilter(f, terms, And)) ==
      set d | d in all && lowered != [] && forall i :: 0 <= i < |lowered| ==> lowered[i] in all[d]
  {
    var all, lowered := AllTexts(lex, defs, data, f), Lowered(lex, terms);
    forall d | d in data
      ensures Accepts(lex, defs, live, data[d], TextFilter(f, terms, And)) <==>
        d in all && lowered != [] && forall i :: 0 <= i < |lowered| ==> lowered[i] in all[d]
    {
      assert terms != [] ==> (Mentions(lex, defs, data[d], f, terms[0]) ==> d in all);
      assert forall i :: 0 <= i < |terms| && d in all ==> (Mentions(lex, defs, data[d], f, terms[i]) <==> lowered[i] in all[d]);
    }
  }

  lemma OrScan(lex: Lexicon, defs: seq<FieldDef>, live: set<Name>, data: Data, f: Name, terms: seq<string>)
    ensures var all, lowered := AllTexts(lex, defs, data, f), Lowered(lex, terms);
      Scan(lex, defs, live, data, TextFilter(f, terms, Or)) ==
      set d | d in all && exists i :: 0 <= i < |lowered| && lowered[i] in all[d]
  {
    var all, lowered := AllTexts(lex, defs, data, f), Lowered(lex, terms);
    forall d | d in data
      ensures Accepts(lex, defs, live, data[d], TextFilter(f, terms, Or)) <==>
        d in all && exists i :: 0 <= i < |lowered| && lowered[i] in all[d]
    {
      assert forall i :: 0 <= i < |terms| ==> (Mentions(lex, defs, data[d], f, terms[i]) <==> d in all && lowered[i] in all[d]);
    }
  }

  class SearchIndex {
    const lex: Lexicon
    const defs: seq<FieldDef>
    var texts: TextIndices
    var numbers: NumberIndices
    var tags: TagIndices
    var documents: set<DocId>
    var data: Data

    ghost predicate Valid() reads this {
      && documents == data.Keys
      && TextsInStep(lex, defs, texts, data)
      && NumbersInStep(lex, defs, numbers, data)
      && TagsInStep(lex, defs, tags, data)
    }

    constructor (lex: Lexicon, defs: seq<FieldDef>)
      ensures Valid() && data == map[] && texts == map[] && this.lex == lex && this.defs == defs
    {
      this.lex, this.defs := lex, defs;
      texts, numbers, tags, documents, data := map[], map[], map[], {}, map[];
    }

    method IndexDocument(doc: DocId, fields: Fields)
      requires Valid()
      modifies this
      ensures Valid() && data == old(data)[doc := fields]
      ensures forall f :: f in texts <==> f in old(texts) || TextOf(lex, defs, fields, f).Some?
    {
      hide TextsInStep, NumbersInStep, TagsInStep, TextsPartly, NumbersPartly, TagsPartly, TextOf, NumberOf, TagsOf, Number, TagList;
      if doc in documents {
        RemoveDocument(doc);
      }
      ghost var before := data;
      PartlyNone(lex, defs, texts, numbers, tags, before, doc, fields);
      documents, data := documents + {doc}, data[doc := fields];
      forall f { SoFarEmpty(lex, fields, f); }
      for i := 0 to |defs|
        invariant documents == data.Keys && data == before[doc := fields]
        invariant forall f :: f in texts <==> f in old(texts) || TextOf(lex, defs[..i], fields, f).Some?
        invariant TextsPartly(lex, defs, texts, before, doc, fields, defs[..i])
        invariant NumbersPartly(lex, defs, numbers, before, doc, fields, defs[..i])
        invariant TagsPartly(lex, defs, tags, before, doc, fields, defs[..i])
      {
        assert defs[..i + 1] == defs[..i] + [defs[i]];
        forall f { SoFarNext(lex, defs[..i], defs[i], fields, f); }
        texts := AddText(lex, defs, texts, before, doc, fields, defs[..i], defs[i]);
        numbers := AddNumber(lex, defs, numbers, before, doc, fields, defs[..i], defs[i]);
        tags := AddTagField(lex, defs, tags, before, doc, fields, defs[..i], defs[i]);
      }
      assert defs[..|defs|] == defs;
      PartlyAll(lex, defs, texts, numbers, tags, before, doc, fields);
      assert data == old(data)[doc := fields];
    }

    method RemoveDocument(doc: DocId)
      requires Valid()
      modifies this
      ensures Valid() && data == old(data) - {doc}
      ensures texts.Keys == old(texts.Keys)
    {
      hide TextsInStep, NumbersInStep, TagsInStep;
      TextsWithoutInStep(lex, defs, texts, data, doc);
      NumbersWithoutInStep(lex, defs, numbers, data, doc);
      TagsWithoutInStep(lex, defs, tags, data, doc);
      documents, data := documents - {doc}, data - {doc};
      texts, numbers, tags := TextsWithout(texts, doc), NumbersWithout(numbers, doc), TagsWithout(tags, doc);
    }

    method ClearDocuments()
      modifies this
      ensures Valid() && data == map[] && texts == map[]
    {
      texts, numbers, tags, documents, data := map[], map[], map[], {}, map[];
    }

    method TextMatches(f: Name, terms: seq<string>, op: Operator) returns (out: set<DocId>)
      requires Valid()
      ensures out == Scan(lex, defs, texts.Keys, data, TextFilter(f, terms, op))
    {
      ghost var all := AllTexts(lex, defs, data, f);
      assert Mirrors(TextIx(texts, f), all);
      if f !in texts {
        NoIndexNoMatch(lex, defs, texts, data, f, terms, op);
        return {};
      }
      var lowered := Lowered(lex, terms);
      match op {
        case And =>
          out := SearchAnd(texts[f], lowered, all);
          AndScan(lex, defs, texts.Keys, data, f, terms);
        case Or =>
          out := SearchOr(texts[f], lowered, all);
          OrScan(lex, defs, texts.Keys, data, f, terms);
        case Not =>
          var matches := SearchOr(texts[f], lowered, all);
          OrScan(lex, defs, texts.Keys, data, f, terms);
          out := documents - matches;
      }
    }

    method ApplyFilter(filter: Filter) returns (out: set<DocId>)
      requires Valid()
      ensures out == Scan(lex, defs, texts.Keys, data, filter)
      decreases filter
    {
      match filter
      case TextFilter(f, terms, op) =>
        out := TextMatches(f, terms, op);
      case NumericRange(f, min, max) =>
        var values := NumberIx(numbers, f);
        out := set d | d in values && InRange(values[d], min, max);
      case TagFilter(f, tag) =>
        out := SearchTag(TagIx(tags, f), tag);
      case Compound(op, filters) =>
        if filters == [] {
          return {};
        }
        out := ApplyFilter(filters[0]);
        for i := 1 to |filters|
          invariant out == Scan(lex, defs, texts.Keys, data, Compound(op, filters[..i]))
        {
          var more := ApplyFilter(filters[i]);
          CompoundStep(lex, defs, texts.Keys, data, op, filters, i);
          out := Combined(op, out, more);
        }
    }
  }

  // ----- whole runs ----------------------------------------------------------------------------------

  datatype Op = Index(doc: DocId, fields: Fields) | Remove(doc: DocId) | Clear

  /** The documents after a run. */
  function DataAfter(ops: seq<Op>): Data {
    if ops == [] then map[]
    else
      var before := DataAfter(ops[..|ops| - 1]);
      match ops[|ops| - 1]
      case Index(doc, fields) => before[doc := fields]
      case Remove(doc) => before - {doc}
      case Clear => map[]
  }

  /** The text fields with an index after a run: those some document had text in since the last clear. */
  function LiveAfter(lex: Lexicon, defs: seq<FieldDef>, ops: seq<Op>): set<Name> {
    if ops == [] then {}
    else
      var before := LiveAfter(lex, defs, ops[..|ops| - 1]);
      match ops[|ops| - 1]
      case Index(_, fields) => before + set f | f in fields && TextOf(lex, defs, fields, f).Some?
      case Remove(_) => before
      case Clear => {}
  }

  /** After any run of indexing, re-indexing, removing and clearing, a query answers with exactly the
      documents whose own fields it accepts. */
  method Query(lex: Lexicon, defs: seq<FieldDef>, ops: seq<Op>, filter: Filter) returns (out: set<DocId>)
    ensures out == Scan(lex, defs, LiveAfter(lex, defs, ops), DataAfter(ops), filter)
    ensures NegatedFields(filter) <= LiveAfter(lex, defs, ops) ==> out == Expected(lex, defs, DataAfter(ops), filter)
  {
    hide Scan, NegatedFields, TextOf, TextsInStep, NumbersInStep, TagsInStep;
    var index := new SearchIndex(lex, defs);
    for i := 0 to |ops|
      invariant fresh(index) && index.Valid() && index.lex == lex && index.defs == defs
      invariant index.data == DataAfter(ops[..i])
      invariant index.texts.Keys == LiveAfter(lex, defs, ops[..i])
    {
      assert ops[..i + 1][..i] == ops[..i];
      match ops[i]
      case Index(doc, fields) =>
        index.IndexDocument(doc, fields);
        TextNamesField(lex, defs, fields);
      case Remove(doc) => index.RemoveDocument(doc);
      case Clear => index.ClearDocuments();
    }
    assert ops[..|ops|] == ops;
    out := index.ApplyFilter(filter);
    if NegatedFields(filter) <= index.texts.Keys {
      ExpectedWhenLive(lex, defs, index.texts.Keys, index.data, filter);
    }
  }

  /** One document without the field: negating a text filter on it finds nothing, where the document
      was expected. */
  lemma NegationMisses(lex: Lexicon, f: Name, doc: DocId, terms: seq<string>)
    ensures var defs, ops, q := [FieldDef(f, TextField)], [Index(doc, map[])], TextFilter(f, terms, Not);
      && Scan(lex, defs, LiveAfter(lex, defs, ops), DataAfter(ops), q) == {}
      && Expected(lex, defs, DataAfter(ops), q) == {doc}
  {
    var ops := [Index(doc, map[])];
    assert ops[..0] == [] && DataAfter([]) == map[];
    assert DataAfter(ops) == map[doc := map[]];
    assert LiveAfter(lex, [FieldDef(f, TextField)], ops) == {};
  }

  lemma TextNamesField(lex: Lexicon, defs: seq<FieldDef>, fields: Fields)
    ensures forall f :: TextOf(lex, defs, fields, f).Some? ==> f in fields
  {
  }
}
