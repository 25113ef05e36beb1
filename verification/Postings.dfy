/** The single-field indices of src/search_index.rs: term postings with frequencies, and tags. */
module Postings {

  type DocId = string
  type Term = string
  type Table = map<Term, map<DocId, nat>>
  type Texts = map<DocId, seq<Term>>

  datatype InvertedIndex = InvertedIndex(postings: Table, docLens: map<DocId, nat>)

  const NO_TEXT := InvertedIndex(map[], map[])

  function Frequency(p: Table, t: Term, d: DocId): nat {
    if t in p && d in p[t] then p[t][d] else 0
  }

  /** How often a term occurs in a document. */
  function Occurs(texts: Texts, t: Term, d: DocId): nat {
    if d in texts then multiset(texts[d])[t] else 0
  }

  /** No posting of zero, and no term without a document. */
  predicate Tidy(p: Table) {
    forall t :: t in p ==> p[t] != map[] && forall d :: d in p[t] ==> p[t][d] > 0
  }

  /** The index is the one for these token lists. */
  ghost predicate Mirrors(ix: InvertedIndex, texts: Texts) {
    && ix.docLens == (map d | d in texts :: |texts[d]|)
    && Tidy(ix.postings)
    && forall t, d :: Frequency(ix.postings, t, d) == Occurs(texts, t, d)
  }

  lemma TidyUnique(a: Table, b: Table)
    requires Tidy(a) && Tidy(b)
    requires forall t, d :: Frequency(a, t, d) == Frequency(b, t, d)
    ensures a == b
  {
    TermsWithin(a, b);
    TermsWithin(b, a);
    forall t | t in a ensures a[t] == b[t] {
      assert forall d :: d in a[t] ==> Frequency(a, t, d) == Frequency(b, t, d) == a[t][d];
      assert forall d :: d in b[t] ==> Frequency(a, t, d) == Frequency(b, t, d) == b[t][d];
    }
  }

  lemma TermsWithin(a: Table, b: Table)
    requires Tidy(a)
    requires forall t, d :: Frequency(a, t, d) == Frequency(b, t, d)
    ensures a.Keys <= b.Keys
  {
    forall t | t in a ensures t in b {
      var d :| d in a[t];
      assert Frequency(b, t, d) == Frequency(a, t, d) > 0;
    }
  }

  /** There is only one such index, so it is the one a rebuild would produce. */
  lemma MirrorUnique(a: InvertedIndex, b: InvertedIndex, texts: Texts)
    requires Mirrors(a, texts) && Mirrors(b, texts)
    ensures a == b
  {
    forall t, d ensures Frequency(a.postings, t, d) == Frequency(b.postings, t, d) {
      assert Frequency(a.postings, t, d) == Occurs(texts, t, d);
    }
    TidyUnique(a.postings, b.postings);
  }

  /** The counting loop of add_document. */
  method Frequencies(tokens: seq<Term>) returns (tf: map<Term, nat>)
    ensures forall t :: t in tf <==> t in tokens
    ensures forall t :: t in tf ==> tf[t] == multiset(tokens)[t]
  {
    tf := map[];
    for i := 0 to |tokens|
      invariant forall t :: t in tf <==> t in tokens[..i]
      invariant forall t :: t in tf ==> tf[t] == multiset(tokens[..i])[t]
    {
      var t := tokens[i];
      assert tokens[..i + 1] == tokens[..i] + [t];
      tf := tf[t := if t in tf then tf[t] + 1 else 1];
    }
    assert tokens[..|tokens|] == tokens;
  }

  function Posted(p: Table, t: Term, doc: DocId, n: nat): (p': Table)
    ensures forall t', d :: Frequency(p', t', d) == if t' == t && d == doc then n else Frequency(p, t', d)
    ensures Tidy(p) && n > 0 ==> Tidy(p')
  {
    var p' := p[t := (if t in p then p[t] else map[])[doc := n]];
    assert doc in p'[t];
    p'
  }

  /** add_document of the inverted index, on tokens: the document's terms get their counts, and all
      other postings stay, stale ones of an earlier text included. So the index of some token lists
      becomes the index with the new one, unless the document was there with other tokens. */
  method AddDocument(ix: InvertedIndex, doc: DocId, tokens: seq<Term>, ghost texts: Texts) returns (ix': InvertedIndex)
    ensures ix'.docLens == ix.docLens[doc := |tokens|] && (Tidy(ix.postings) ==> Tidy(ix'.postings))
    ensures forall t, d ::
      Frequency(ix'.postings, t, d) == if d == doc && t in tokens then multiset(tokens)[t] else Frequency(ix.postings, t, d)
    ensures Mirrors(ix, texts) && (doc in texts ==> texts[doc] == tokens) ==> Mirrors(ix', texts[doc := tokens])
  {
    hide Tidy, Frequency, Mirrors;
    var tf := Frequencies(tokens);
    var rest, postings := tf.Keys, ix.postings;
    while rest != {}
      invariant rest <= tf.Keys && (Tidy(ix.postings) ==> Tidy(postings))
      invariant forall t, d ::
        Frequency(postings, t, d) == if d == doc && t in tf && t !in rest then tf[t] else Frequency(ix.postings, t, d)
      decreases rest
    {
      var t :| t in rest;
      rest := rest - {t};
      postings := Posted(postings, t, doc, tf[t]);
    }
    ix' := InvertedIndex(postings, ix.docLens[doc := |tokens|]);
    if Mirrors(ix, texts) && (doc in texts ==> texts[doc] == tokens) { AddedMirrors(ix, ix', doc, tokens, texts); }
  }

  lemma AddedMirrors(ix: InvertedIndex, ix': InvertedIndex, doc: DocId, tokens: seq<Term>, texts: Texts)
    requires Mirrors(ix, texts) && (doc in texts ==> texts[doc] == tokens)
    requires ix'.docLens == ix.docLens[doc := |tokens|] && (Tidy(ix.postings) ==> Tidy(ix'.postings))
    requires forall t, d ::
      Frequency(ix'.postings, t, d) == if d == doc && t in tokens then multiset(tokens)[t] else Frequency(ix.postings, t, d)
    ensures Mirrors(ix', texts[doc := tokens])
  {
    hide Tidy, Frequency;
    var after := texts[doc := tokens];
    forall t, d ensures Frequency(ix'.postings, t, d) == Occurs(after, t, d) {
      assert Frequency(ix.postings, t, d) == Occurs(texts, t, d);
    }
    assert ix'.docLens == map d | d in after :: |after[d]|;
  }

  /** remove_document of the inverted index. */
  function RemovedDocument(ix: InvertedIndex, doc: DocId): InvertedIndex {
    InvertedIndex(Unposted(ix.postings, doc), ix.docLens - {doc})
  }

  function Unposted(p: Table, doc: DocId): (p': Table)
    ensures forall t, d :: Frequency(p', t, d) == if d == doc then 0 else Frequency(p, t, d)
    ensures Tidy(p) ==> Tidy(p')
  {
    var p' := map t | t in p && p[t] - {doc} != map[] :: p[t] - {doc};
    assert forall t, d :: t in p && d in p[t] && d != doc ==> d in p[t] - {doc};
    p'
  }

  lemma RemovedMirrors(ix: InvertedIndex, doc: DocId, texts: Texts)
    requires Mirrors(ix, texts)
    ensures Mirrors(RemovedDocument(ix, doc), texts - {doc})
  {
    hide Tidy, Frequency;
  }

  function Search(ix: InvertedIndex, term: Term): set<DocId> {
    if term in ix.postings then ix.postings[term].Keys else {}
  }

  lemma SearchFinds(ix: InvertedIndex, texts: Texts, term: Term)
    requires Mirrors(ix, texts)
    ensures Search(ix, term) == set d | d in texts && term in texts[d]
  {
    forall d ensures d in Search(ix, term) <==> d in texts && term in texts[d] {
      assert Frequency(ix.postings, term, d) == Occurs(texts, term, d);
    }
  }

  /** search_and: no terms, no results. */
  method SearchAnd(ix: InvertedIndex, terms: seq<Term>, ghost texts: Texts) returns (out: set<DocId>)
    requires Mirrors(ix, texts)
    ensures out == set d | d in texts && terms != [] && forall i :: 0 <= i < |terms| ==> terms[i] in texts[d]
  {
    hide Mirrors, Search;
    if terms == [] {
      return {};
    }
    out := Search(ix, terms[0]);
    SearchFinds(ix, texts, terms[0]);
    for i := 1 to |terms|
      invariant out == set d | d in texts && forall k :: 0 <= k < i ==> terms[k] in texts[d]
    {
      SearchFinds(ix, texts, terms[i]);
      out := out * Search(ix, terms[i]);
    }
  }

  method SearchOr(ix: InvertedIndex, terms: seq<Term>, ghost texts: Texts) returns (out: set<DocId>)
    requires Mirrors(ix, texts)
    ensures out == set d | d in texts && exists i :: 0 <= i < |terms| && terms[i] in texts[d]
  {
    hide Mirrors, Search;
    out := {};
    for i := 0 to |terms|
      invariant out == set d | d in texts && exists k :: 0 <= k < i && terms[k] in texts[d]
    {
      SearchFinds(ix, texts, terms[i]);
      out := out + Search(ix, terms[i]);
    }
  }

  // ----- tags ----------------------------------------------------------------------------------------

  type TagIndex = map<Term, set<DocId>>

  function SearchTag(ix: TagIndex, tag: Term): set<DocId> {
    if tag in ix then ix[tag] else {}
  }

  predicate Tagged(texts: Texts, t: Term, d: DocId) {
    d in texts && t in texts[d]
  }

  /** A tag lists its documents, and a tag without a document is not kept. */
  ghost predicate TagMirrors(ix: TagIndex, tagged: Texts) {
    && (forall t :: t in ix ==> ix[t] != {})
    && (forall t, d :: d in SearchTag(ix, t) <==> Tagged(tagged, t, d))
  }

  lemma TagMirrorUnique(a: TagIndex, b: TagIndex, tagged: Texts)
    requires TagMirrors(a, tagged) && TagMirrors(b, tagged)
    ensures a == b
  {
    forall t ensures SearchTag(a, t) == SearchTag(b, t) {
      assert forall d :: d in SearchTag(a, t) <==> Tagged(tagged, t, d);
    }
    assert forall t :: t in a <==> SearchTag(a, t) != {};
    assert forall t :: t in b <==> SearchTag(b, t) != {};
    assert forall t :: t in a ==> a[t] == SearchTag(a, t) == b[t];
  }

  method AddTags(ix: TagIndex, doc: DocId, tags: seq<Term>, ghost tagged: Texts) returns (ix': TagIndex)
    requires doc in tagged && TagMirrors(ix, tagged)
    ensures TagMirrors(ix', tagged[doc := tagged[doc] + tags])
  {
    ix' := ix;
    assert tagged[doc := tagged[doc]] == tagged;
    for i := 0 to |tags|
      invariant TagMirrors(ix', tagged[doc := tagged[doc] + tags[..i]])
    {
      ghost var before := ix';
      ix' := ix'[tags[i] := SearchTag(ix', tags[i]) + {doc}];
      TagAdded(before, ix', doc, tagged[doc] + tags[..i], tags[i], tagged);
      assert tagged[doc] + tags[..i] + [tags[i]] == tagged[doc] + tags[..i + 1];
    }
    assert tags[..|tags|] == tags;
  }

  lemma TagAdded(ix: TagIndex, ix': TagIndex, doc: DocId, tags: seq<Term>, t: Term, tagged: Texts)
    requires TagMirrors(ix, tagged[doc := tags]) && ix' == ix[t := SearchTag(ix, t) + {doc}]
    ensures TagMirrors(ix', tagged[doc := tags + [t]])
  {
    var was := tagged[doc := tags];
    forall t', d ensures d in SearchTag(ix', t') <==> Tagged(tagged[doc := tags + [t]], t', d) {
      assert d in SearchTag(ix, t') <==> Tagged(was, t', d);
    }
  }

  function RemovedTags(ix: TagIndex, doc: DocId): TagIndex {
    map t | t in ix && ix[t] - {doc} != {} :: ix[t] - {doc}
  }

  lemma RemovedTagMirrors(ix: TagIndex, doc: DocId, tagged: Texts)
    requires TagMirrors(ix, tagged)
    ensures TagMirrors(RemovedTags(ix, doc), tagged - {doc})
  {
    var ix' := RemovedTags(ix, doc);
    forall t, d ensures d in SearchTag(ix', t) <==> Tagged(tagged - {doc}, t, d) {
      assert d in SearchTag(ix, t) <==> Tagged(tagged, t, d);
      assert SearchTag(ix', t) == SearchTag(ix, t) - {doc};
    }
  }
}
