/** The field indices of a search index, kept in step with the documents' fields. */
module SearchFields {
  import opened Basics
  import opened Postings
  import opened ScoreOrder
  import opened SearchSchema

  type TextIndices = map<Name, InvertedIndex>
  type NumberIndices = map<Name, map<DocId, Score>>
  type TagIndices = map<Name, TagIndex>

  // A field without an index counts as one with an empty index.
  function TextIx(m: TextIndices, f: Name): InvertedIndex { if f in m then m[f] else NO_TEXT }
  function NumberIx(m: NumberIndices, f: Name): map<DocId, Score> { if f in m then m[f] else map[] }
  function TagIx(m: TagIndices, f: Name): TagIndex { if f in m then m[f] else map[] }

  ghost predicate TextsInStep(lex: Lexicon, defs: seq<FieldDef>, m: TextIndices, data: Data) {
    forall f :: Mirrors(TextIx(m, f), AllTexts(lex, defs, data, f))
  }

  ghost predicate NumbersInStep(lex: Lexicon, defs: seq<FieldDef>, m: NumberIndices, data: Data) {
    forall f :: NumberIx(m, f) == AllNumbers(lex, defs, data, f)
  }

  ghost predicate TagsInStep(lex: Lexicon, defs: seq<FieldDef>, m: TagIndices, data: Data) {
    forall f :: TagMirrors(TagIx(m, f), AllTags(lex, defs, data, f))
  }

  ghost predicate TextsPartly(lex: Lexicon, defs: seq<FieldDef>, m: TextIndices, data: Data, doc: DocId, fields: Fields, part: seq<FieldDef>) {
    forall f :: Mirrors(TextIx(m, f), TextsSoFar(lex, defs, data, doc, fields, part, f))
  }

  ghost predicate NumbersPartly(lex: Lexicon, defs: seq<FieldDef>, m: NumberIndices, data: Data, doc: DocId, fields: Fields, part: seq<FieldDef>) {
    forall f :: NumberIx(m, f) == NumbersSoFar(lex, defs, data, doc, fields, part, f)
  }

  ghost predicate TagsPartly(lex: Lexicon, defs: seq<FieldDef>, m: TagIndices, data: Data, doc: DocId, fields: Fields, part: seq<FieldDef>) {
    forall f :: TagMirrors(TagIx(m, f), TagsSoFar(lex, defs, data, doc, fields, part, f))
  }

  lemma PartlyNone(lex: Lexicon, defs: seq<FieldDef>, t: TextIndices, n: NumberIndices, g: TagIndices, data: Data, doc: DocId, fields: Fields)
    requires doc !in data
    requires TextsInStep(lex, defs, t, data) && NumbersInStep(lex, defs, n, data) && TagsInStep(lex, defs, g, data)
    ensures TextsPartly(lex, defs, t, data, doc, fields, [])
    ensures NumbersPartly(lex, defs, n, data, doc, fields, [])
    ensures TagsPartly(lex, defs, g, data, doc, fields, [])
  {
    hide Mirrors, TagMirrors, TextsSoFar, NumbersSoFar, TagsSoFar, AllTexts, AllNumbers, AllTags;
    forall f
      ensures Mirrors(TextIx(t, f), TextsSoFar(lex, defs, data, doc, fields, [], f))
      ensures NumberIx(n, f) == NumbersSoFar(lex, defs, data, doc, fields, [], f)
      ensures TagMirrors(TagIx(g, f), TagsSoFar(lex, defs, data, doc, fields, [], f))
    {
      SoFarNone(lex, defs, data, doc, fields, f);
      NoTags(lex, defs, TagIx(g, f), data, doc, f);
    }
  }

  lemma NoTags(lex: Lexicon, defs: seq<FieldDef>, ix: TagIndex, data: Data, doc: DocId, f: Name)
    requires doc !in data && TagMirrors(ix, AllTags(lex, defs, data, f))
    ensures TagMirrors(ix, AllTags(lex, defs, data, f)[doc := []])
  {
    var tagged := AllTags(lex, defs, data, f);
    assert forall t, d :: Tagged(tagged[doc := []], t, d) <==> Tagged(tagged, t, d);
  }

  lemma PartlyAll(lex: Lexicon, defs: seq<FieldDef>, t: TextIndices, n: NumberIndices, g: TagIndices, data: Data, doc: DocId, fields: Fields)
    requires doc !in data
    requires TextsPartly(lex, defs, t, data, doc, fields, defs)
    requires NumbersPartly(lex, defs, n, data, doc, fields, defs)
    requires TagsPartly(lex, defs, g, data, doc, fields, defs)
    ensures TextsInStep(lex, defs, t, data[doc := fields])
    ensures NumbersInStep(lex, defs, n, data[doc := fields])
    ensures TagsInStep(lex, defs, g, data[doc := fields])
  {
    hide Mirrors, TagMirrors, TextsSoFar, NumbersSoFar, TagsSoFar, AllTexts, AllNumbers, AllTags;
    var after := data[doc := fields];
    forall f
      ensures Mirrors(TextIx(t, f), AllTexts(lex, defs, after, f))
      ensures NumberIx(n, f) == AllNumbers(lex, defs, after, f)
      ensures TagMirrors(TagIx(g, f), AllTags(lex, defs, after, f))
    {
      TextsSoFarAll(lex, defs, data, doc, fields, f);
      NumbersSoFarAll(lex, defs, data, doc, fields, f);
      TagsSoFarAll(lex, defs, data, doc, fields, f);
    }
  }

  /** The text branch of index_document, at one definition. */
  method AddText(lex: Lexicon, defs: seq<FieldDef>, m: TextIndices, ghost data: Data, doc: DocId, fields: Fields,
                 ghost part: seq<FieldDef>, def: FieldDef) returns (m': TextIndices)
    requires doc !in data && TextsPartly(lex, defs, m, data, doc, fields, part)
    ensures TextsPartly(lex, defs, m', data, doc, fields, part + [def])
    ensures forall f :: f in m' <==> f in m || (def == FieldDef(f, TextField) && f in fields && fields[f].Text?)
  {
    hide Mirrors, AllTexts, TextOf;
    m' := m;
    ghost var texts := TextsSoFar(lex, defs, data, doc, fields, part, def.name);
    if def.kind.TextField? && def.name in fields && fields[def.name].Text? {
      var tokens := lex.tokenize(fields[def.name].text);
      SameText(lex, defs, data, doc, fields, part, def.name);
      var ix := AddDocument(TextIx(m, def.name), doc, tokens, texts);
      m' := m[def.name := ix];
    }
    forall f ensures Mirrors(TextIx(m', f), TextsSoFar(lex, defs, data, doc, fields, part + [def], f)) {
      SoFarNext(lex, part, def, fields, f);
      assert Mirrors(TextIx(m, f), TextsSoFar(lex, defs, data, doc, fields, part, f));
    }
  }

  lemma SameText(lex: Lexicon, defs: seq<FieldDef>, data: Data, doc: DocId, fields: Fields, part: seq<FieldDef>, f: Name)
    requires doc !in data && f in fields && fields[f].Text?
    ensures var texts := TextsSoFar(lex, defs, data, doc, fields, part, f);
      && (doc in texts ==> texts[doc] == lex.tokenize(fields[f].text))
      && texts[doc := lex.tokenize(fields[f].text)] == AllTexts(lex, defs, data, f)[doc := lex.tokenize(fields[f].text)]
  {
  }

  /** The numeric branch: a number, or text that parses as one. */
  method AddNumber(lex: Lexicon, defs: seq<FieldDef>, m: NumberIndices, ghost data: Data, doc: DocId, fields: Fields,
                   ghost part: seq<FieldDef>, def: FieldDef) returns (m': NumberIndices)
    requires doc !in data && NumbersPartly(lex, defs, m, data, doc, fields, part)
    ensures NumbersPartly(lex, defs, m', data, doc, fields, part + [def])
  {
    hide AllNumbers;
    m' := m;
    if def.kind.NumericField? && def.name in fields {
      var value := Number(lex, fields[def.name]);
      if value.Some? {
        m' := m[def.name := NumberIx(m, def.name)[doc := value.value]];
      }
    }
    forall f ensures NumberIx(m', f) == NumbersSoFar(lex, defs, data, doc, fields, part + [def], f) {
      SoFarNext(lex, part, def, fields, f);
      assert NumberIx(m, f) == NumbersSoFar(lex, defs, data, doc, fields, part, f);
    }
  }

  /** The tag branch: a list of tags, or text split at the separator; no index is made for no tags. */
  method AddTagField(lex: Lexicon, defs: seq<FieldDef>, m: TagIndices, ghost data: Data, doc: DocId, fields: Fields,
                     ghost part: seq<FieldDef>, def: FieldDef) returns (m': TagIndices)
    requires doc !in data && TagsPartly(lex, defs, m, data, doc, fields, part)
    ensures TagsPartly(lex, defs, m', data, doc, fields, part + [def])
  {
    hide TagMirrors, AllTags, TagsOf;
    m' := m;
    ghost var tagged := TagsSoFar(lex, defs, data, doc, fields, part, def.name);
    if def.kind.TagField? && def.name in fields {
      var tags := TagList(lex, fields[def.name], def.kind.separator);
      assert tags == [] ==> tagged[doc] + tags == tagged[doc];
      if tags != [] {
        var ix := AddTags(TagIx(m, def.name), doc, tags, tagged);
        m' := m[def.name := ix];
      }
    }
    forall f ensures TagMirrors(TagIx(m', f), TagsSoFar(lex, defs, data, doc, fields, part + [def], f)) {
      SoFarNext(lex, part, def, fields, f);
      assert TagMirrors(TagIx(m, f), TagsSoFar(lex, defs, data, doc, fields, part, f));
      assert tagged[doc := TagsOf(lex, part + [def], fields, def.name)] ==
        TagsSoFar(lex, defs, data, doc, fields, part + [def], def.name);
    }
  }

  function TextsWithout(m: TextIndices, doc: DocId): TextIndices {
    map f | f in m :: RemovedDocument(m[f], doc)
  }

  function NumbersWithout(m: NumberIndices, doc: DocId): NumberIndices {
    map f | f in m :: m[f] - {doc}
  }

  function TagsWithout(m: TagIndices, doc: DocId): TagIndices {
    map f | f in m :: RemovedTags(m[f], doc)
  }

  lemma TextsWithoutInStep(lex: Lexicon, defs: seq<FieldDef>, m: TextIndices, data: Data, doc: DocId)
    requires TextsInStep(lex, defs, m, data)
    ensures TextsInStep(lex, defs, TextsWithout(m, doc), data - {doc})
  {
    hide Mirrors, TextOf;
    forall f ensures Mirrors(TextIx(TextsWithout(m, doc), f), AllTexts(lex, defs, data - {doc}, f)) {
      RemovedMirrors(TextIx(m, f), doc, AllTexts(lex, defs, data, f));
      assert AllTexts(lex, defs, data, f) - {doc} == AllTexts(lex, defs, data - {doc}, f);
      assert RemovedDocument(NO_TEXT, doc) == NO_TEXT;
    }
  }

  lemma NumbersWithoutInStep(lex: Lexicon, defs: seq<FieldDef>, m: NumberIndices, data: Data, doc: DocId)
    requires NumbersInStep(lex, defs, m, data)
    ensures NumbersInStep(lex, defs, NumbersWithout(m, doc), data - {doc})
  {
    hide NumberOf;
    forall f ensures NumberIx(NumbersWithout(m, doc), f) == AllNumbers(lex, defs, data - {doc}, f) {
      assert NumberIx(m, f) - {doc} == AllNumbers(lex, defs, data - {doc}, f);
    }
  }

  lemma TagsWithoutInStep(lex: Lexicon, defs: seq<FieldDef>, m: TagIndices, data: Data, doc: DocId)
    requires TagsInStep(lex, defs, m, data)
    ensures TagsInStep(lex, defs, TagsWithout(m, doc), data - {doc})
  {
    hide TagMirrors, TagsOf;
    forall f ensures TagMirrors(TagIx(TagsWithout(m, doc), f), AllTags(lex, defs, data - {doc}, f)) {
      RemovedTagMirrors(TagIx(m, f), doc, AllTags(lex, defs, data, f));
      assert AllTags(lex, defs, data, f) - {doc} == AllTags(lex, defs, data - {doc}, f);
      assert RemovedTags(map[], doc) == map[];
    }
  }

  /** However they were arrived at, indices in step with the same documents are equal field by field:
      they are the ones a rebuild would produce. */
  lemma InStepUnique(lex: Lexicon, defs: seq<FieldDef>, t: TextIndices, t': TextIndices, g: TagIndices, g': TagIndices, data: Data, f: Name)
    requires TextsInStep(lex, defs, t, data) && TextsInStep(lex, defs, t', data)
    requires TagsInStep(lex, defs, g, data) && TagsInStep(lex, defs, g', data)
    ensures TextIx(t, f) == TextIx(t', f) && TagIx(g, f) == TagIx(g', f)
  {
    MirrorUnique(TextIx(t, f), TextIx(t', f), AllTexts(lex, defs, data, f));
    TagMirrorUnique(TagIx(g, f), TagIx(g', f), AllTags(lex, defs, data, f));
  }
}
