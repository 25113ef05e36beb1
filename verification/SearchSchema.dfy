/** Field definitions, documents, and what each document contributes to each field's index. */
module SearchSchema {
  import opened Basics
  import opened Postings
  import opened ScoreOrder

  type Name = string

  /** `weight`, `dimensions` and the other field options do not decide what is indexed here. */
  datatype FieldType = TextField | NumericField | TagField(separator: string) | OtherField

  datatype FieldDef = FieldDef(name: Name, kind: FieldType)

  datatype DocumentField = Text(text: string) | Numeric(number: Score) | Tags(tags: seq<Term>) | OtherValue

  type Fields = map<Name, DocumentField>
  type Data = map<DocId, Fields>

  /** Library text handling: lower-casing, tokenising, splitting tags at a separator, parsing an f64. */
  datatype Lexicon = Lexicon(lower: string -> string, tokenize: string -> seq<Term>,
                             split: (string, string) -> seq<Term>, parse: string -> Option<Score>)

  predicate HasKind(defs: seq<FieldDef>, f: Name, kind: FieldType) {
    FieldDef(f, kind) in defs
  }

  function TextOf(lex: Lexicon, defs: seq<FieldDef>, fields: Fields, f: Name): Option<seq<Term>> {
    if HasKind(defs, f, TextField) && f in fields && fields[f].Text? then Some(lex.tokenize(fields[f].text)) else None
  }

  function Number(lex: Lexicon, value: DocumentField): Option<Score> {
    match value
    case Numeric(v) => Some(v)
    case Text(s) => lex.parse(s)
    case _ => None
  }

  function NumberOf(lex: Lexicon, defs: seq<FieldDef>, fields: Fields, f: Name): Option<Score> {
    if HasKind(defs, f, NumericField) && f in fields then Number(lex, fields[f]) else None
  }

  function TagList(lex: Lexicon, value: DocumentField, separator: string): seq<Term> {
    match value
    case Tags(tags) => tags
    case Text(s) => lex.split(s, separator)
    case _ => []
  }

  /** Every tag definition of the name adds its tags. */
  function TagsOf(lex: Lexicon, defs: seq<FieldDef>, fields: Fields, f: Name): seq<Term> {
    if defs == [] || f !in fields then []
    else
      var last := defs[|defs| - 1];
      TagsOf(lex, defs[..|defs| - 1], fields, f) +
      if last.name == f && last.kind.TagField? then TagList(lex, fields[f], last.kind.separator) else []
  }

  function With<T>(m: map<DocId, T>, doc: DocId, value: Option<T>): map<DocId, T> {
    if value.Some? then m[doc := value.value] else m
  }

  function AllTexts(lex: Lexicon, defs: seq<FieldDef>, data: Data, f: Name): Texts {
    map d | d in data && TextOf(lex, defs, data[d], f).Some? :: TextOf(lex, defs, data[d], f).value
  }

  function AllNumbers(lex: Lexicon, defs: seq<FieldDef>, data: Data, f: Name): map<DocId, Score> {
    map d | d in data && NumberOf(lex, defs, data[d], f).Some? :: NumberOf(lex, defs, data[d], f).value
  }

  function AllTags(lex: Lexicon, defs: seq<FieldDef>, data: Data, f: Name): Texts {
    map d | d in data :: TagsOf(lex, defs, data[d], f)
  }

  /** What the documents, and `doc` through the definitions `part` only, contribute to one field. */
  function TextsSoFar(lex: Lexicon, defs: seq<FieldDef>, data: Data, doc: DocId, fields: Fields, part: seq<FieldDef>, f: Name): Texts {
    With(AllTexts(lex, defs, data, f), doc, TextOf(lex, part, fields, f))
  }

  function NumbersSoFar(lex: Lexicon, defs: seq<FieldDef>, data: Data, doc: DocId, fields: Fields, part: seq<FieldDef>, f: Name): map<DocId, Score> {
    With(AllNumbers(lex, defs, data, f), doc, NumberOf(lex, part, fields, f))
  }

  function TagsSoFar(lex: Lexicon, defs: seq<FieldDef>, data: Data, doc: DocId, fields: Fields, part: seq<FieldDef>, f: Name): Texts {
    AllTags(lex, defs, data, f)[doc := TagsOf(lex, part, fields, f)]
  }

  lemma TextsSoFarAll(lex: Lexicon, defs: seq<FieldDef>, data: Data, doc: DocId, fields: Fields, f: Name)
    requires doc !in data
    ensures TextsSoFar(lex, defs, data, doc, fields, defs, f) == AllTexts(lex, defs, data[doc := fields], f)
  {
    hide TextOf;
  }

  lemma NumbersSoFarAll(lex: Lexicon, defs: seq<FieldDef>, data: Data, doc: DocId, fields: Fields, f: Name)
    requires doc !in data
    ensures NumbersSoFar(lex, defs, data, doc, fields, defs, f) == AllNumbers(lex, defs, data[doc := fields], f)
  {
    hide NumberOf;
  }

  lemma TagsSoFarAll(lex: Lexicon, defs: seq<FieldDef>, data: Data, doc: DocId, fields: Fields, f: Name)
    requires doc !in data
    ensures TagsSoFar(lex, defs, data, doc, fields, defs, f) == AllTags(lex, defs, data[doc := fields], f)
  {
    hide TagsOf;
  }

  lemma SoFarNone(lex: Lexicon, defs: seq<FieldDef>, data: Data, doc: DocId, fields: Fields, f: Name)
    requires doc !in data
    ensures TextsSoFar(lex, defs, data, doc, fields, [], f) == AllTexts(lex, defs, data, f)
    ensures NumbersSoFar(lex, defs, data, doc, fields, [], f) == AllNumbers(lex, defs, data, f)
    ensures TagsSoFar(lex, defs, data, doc, fields, [], f) == AllTags(lex, defs, data, f)[doc := []]
  {
  }

  lemma SoFarEmpty(lex: Lexicon, fields: Fields, f: Name)
    ensures TextOf(lex, [], fields, f).None?
  {
  }

  /** One more definition changes only the kind of contribution, and the field, it is for. */
  lemma SoFarNext(lex: Lexicon, part: seq<FieldDef>, def: FieldDef, fields: Fields, f: Name)
    ensures TextOf(lex, part + [def], fields, f) ==
      if def == FieldDef(f, TextField) && f in fields && fields[f].Text? then Some(lex.tokenize(fields[f].text))
      else TextOf(lex, part, fields, f)
    ensures NumberOf(lex, part + [def], fields, f) ==
      if def == FieldDef(f, NumericField) && f in fields then Number(lex, fields[f])
      else NumberOf(lex, part, fields, f)
    ensures TagsOf(lex, part + [def], fields, f) ==
      if def.name == f && def.kind.TagField? && f in fields
      then TagsOf(lex, part, fields, f) + TagList(lex, fields[f], def.kind.separator)
      else TagsOf(lex, part, fields, f)
  {
    assert (part + [def])[..|part|] == part;
  }
}
