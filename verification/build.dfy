/** Turning the builder's statistics into an index: the average length of
    each field name, the inverse document frequency of each term, one BM25
    weighted vector per field of each document, and the sorted vocabulary.

    `ln` stands for `f64::ln`, and `score` for the BM25 formula followed by
    the rounding to three decimals; both are parameters. */
module IndexBuild {
  import opened Results
  import opened SetSums
  import opened Fields
  import opened Vectors
  import opened Ordering
  import opened IndexBuilder
  import opened Documents

  // ---- calculate_average_field_length ---------------------------------------

  /** The field references of `refs` whose field name is `name`. */
  ghost function Named(refs: set<FieldRef>, name: string): set<FieldRef> {
    set fr | fr in refs && fr.fieldName == name
  }

  /** The field names that occur in `refs`. */
  ghost function NamesOf(refs: set<FieldRef>): set<string> {
    set fr | fr in refs :: fr.fieldName
  }

  /** The summed length of the fields named `name`. */
  ghost function TotalLength(lengths: map<FieldRef, nat>, name: string): nat {
    Sum(lengths, Named(lengths.Keys, name))
  }

  /** `average` holds, for each field name in `lengths`, the summed length of
      the fields of that name divided by how many there are, and nothing
      else. */
  ghost predicate Averages(lengths: map<FieldRef, nat>, average: map<string, real>) {
    && average.Keys == NamesOf(lengths.Keys)
    && forall name | name in average ::
         1 <= |Named(lengths.Keys, name)|
         && average[name] == TotalLength(lengths, name) as real / |Named(lengths.Keys, name)| as real
  }

  lemma NamedStep(done: set<FieldRef>, fr: FieldRef, name: string)
    ensures fr.fieldName == name ==> Named(done + {fr}, name) == Named(done, name) + {fr}
    ensures fr.fieldName != name ==> Named(done + {fr}, name) == Named(done, name)
  {
  }

  lemma NamesStep(done: set<FieldRef>, fr: FieldRef)
    ensures NamesOf(done + {fr}) == NamesOf(done) + {fr.fieldName}
  {
  }

  lemma NotNamed(done: set<FieldRef>, name: string)
    requires name !in NamesOf(done)
    ensures Named(done, name) == {}
  {
    assert forall fr | fr in done :: fr.fieldName in NamesOf(done);
  }

  lemma SomeNamed(done: set<FieldRef>, name: string)
    requires name in NamesOf(done)
    ensures 1 <= |Named(done, name)|
  {
    var fr :| fr in done && fr.fieldName == name;
    assert fr in Named(done, name);
  }

  /** `m` with `amount` added to the entry of `name`, a missing entry counting
      as zero. */
  function Bump(m: map<string, nat>, name: string, amount: nat): (r: map<string, nat>)
    ensures r.Keys == m.Keys + {name}
  {
    m[name := Value(m, name) + amount]
  }

  /** The two maps of the first loop of `calculate_average_field_length`
      after visiting the field references `done`: per field name, the summed
      length and the number of field references. */
  ghost predicate Tally(lengths: map<FieldRef, nat>, done: set<FieldRef>,
                        accumulator: map<string, nat>, docsWithField: map<string, nat>) {
    && accumulator.Keys == NamesOf(done)
    && docsWithField.Keys == NamesOf(done)
    && forall name | name in docsWithField ::
         && docsWithField[name] == |Named(done, name)|
         && accumulator[name] == Sum(lengths, Named(done, name))
  }

  /** Visiting one more field reference keeps the tally. */
  lemma TallyStep(lengths: map<FieldRef, nat>, done: set<FieldRef>,
                  accumulator: map<string, nat>, docsWithField: map<string, nat>, fr: FieldRef)
    requires Tally(lengths, done, accumulator, docsWithField)
    requires fr in lengths && fr !in done
    ensures Tally(lengths, done + {fr}, Bump(accumulator, fr.fieldName, lengths[fr]),
                  Bump(docsWithField, fr.fieldName, 1))
  {
    var name := fr.fieldName;
    var acc, docs := Bump(accumulator, name, lengths[fr]), Bump(docsWithField, name, 1);
    NamesStep(done, fr);
    var count := if name in docsWithField then docsWithField[name] else 0;
    var total := if name in accumulator then accumulator[name] else 0;
    assert count == |Named(done, name)| && total == Sum(lengths, Named(done, name)) by {
      if name !in docsWithField {
        NotNamed(done, name);
      }
    }
    TallyVisited(lengths, done, count, total, fr);
    TallyOthers(lengths, done, accumulator, docsWithField, fr);
  }

  /** The entries of the other names are unchanged and still right. */
  lemma TallyOthers(lengths: map<FieldRef, nat>, done: set<FieldRef>,
                    accumulator: map<string, nat>, docsWithField: map<string, nat>, fr: FieldRef)
    requires Tally(lengths, done, accumulator, docsWithField)
    ensures forall other | other in docsWithField && other != fr.fieldName ::
      && docsWithField[other] == |Named(done + {fr}, other)|
      && accumulator[other] == Sum(lengths, Named(done + {fr}, other))
  {
    forall other | other in docsWithField && other != fr.fieldName
      ensures Named(done + {fr}, other) == Named(done, other)
    {
      NamedStep(done, fr, other);
    }
  }

  /** The count and total of the visited field reference's name grow by
      one field and by its length. */
  lemma TallyVisited(lengths: map<FieldRef, nat>, done: set<FieldRef>, count: nat, total: nat, fr: FieldRef)
    requires count == |Named(done, fr.fieldName)| && total == Sum(lengths, Named(done, fr.fieldName))
    requires fr in lengths && fr !in done
    ensures count + 1 == |Named(done + {fr}, fr.fieldName)|
    ensures total + lengths[fr] == Sum(lengths, Named(done + {fr}, fr.fieldName))
  {
    var before := Named(done, fr.fieldName);
    NamedStep(done, fr, fr.fieldName);
    assert fr !in before;
    SumAdd(lengths, before, fr);
  }

  /** `calculate_average_field_length`: one pass over the field lengths
      summing lengths and counting fields per name, then one division per
      name. Each divisor is at least 1. */
  method AverageFieldLengths(lengths: map<FieldRef, nat>) returns (average: map<string, real>)
    ensures Averages(lengths, average)
  {
    var accumulator: map<string, nat> := map[];
    var docsWithField: map<string, nat> := map[];
    var todo := lengths.Keys;
    while todo != {}
      invariant todo <= lengths.Keys
      invariant Tally(lengths, lengths.Keys - todo, accumulator, docsWithField)
      decreases |todo|
    {
      var fr :| fr in todo;
      TallyStep(lengths, lengths.Keys - todo, accumulator, docsWithField, fr);
      docsWithField := Bump(docsWithField, fr.fieldName, 1);
      accumulator := Bump(accumulator, fr.fieldName, lengths[fr]);
      VisitOne(lengths.Keys, todo, fr);
      todo := todo - {fr};
    }
    VisitedAll(lengths.Keys, todo);
    forall name | name in docsWithField
      ensures 1 <= docsWithField[name]
    {
      SomeNamed(lengths.Keys, name);
    }
    average := map name | name in accumulator :: accumulator[name] as real / docsWithField[name] as real;
  }

  /** A field with a positive length makes the average of its name
      positive. */
  lemma AveragePositive(lengths: map<FieldRef, nat>, average: map<string, real>, fr: FieldRef)
    requires Averages(lengths, average)
    requires fr in lengths && 0 < lengths[fr]
    ensures fr.fieldName in average && 0.0 < average[fr.fieldName]
  {
    var name := fr.fieldName;
    assert name in NamesOf(lengths.Keys);
    assert fr in Named(lengths.Keys, name);
    SumRemove(lengths, Named(lengths.Keys, name), fr);
    assert 1 <= TotalLength(lengths, name);
  }

  // ---- idf --------------------------------------------------------------------

  /** How many documents hold the term in each field. */
  function SetSizes(documents: map<string, set<string>>): (sizes: map<string, nat>)
    ensures sizes.Keys == documents.Keys
  {
    map f | f in documents :: |documents[f]|
  }

  /** The `documents_with_term` of `idf`: the sizes of the term's document
      sets added up over all fields, so a document holding the term in two
      fields is counted twice. */
  ghost function DocumentsWithTerm(entry: InvertedEntry): nat {
    Sum(SetSizes(entry.documents), entry.documents.Keys)
  }

  /** The counting loop of `idf`. */
  method CountDocumentsWithTerm(entry: InvertedEntry) returns (n: nat)
    ensures n == DocumentsWithTerm(entry)
  {
    n := 0;
    var todo := entry.documents.Keys;
    while todo != {}
      invariant todo <= entry.documents.Keys
      invariant n == Sum(SetSizes(entry.documents), entry.documents.Keys - todo)
      decreases |todo|
    {
      var f :| f in todo;
      SumAdd(SetSizes(entry.documents), entry.documents.Keys - todo, f);
      n := n + |entry.documents[f]|;
      VisitOne(entry.documents.Keys, todo, f);
      todo := todo - {f};
    }
    VisitedAll(entry.documents.Keys, todo);
  }

  function Abs(x: real): (r: real)
    ensures 0.0 <= r && (r == x || r == -x)
  {
    if x < 0.0 then -x else x
  }

  /** What `idf` takes the logarithm of: `|(N - n + 0.5) / (n + 0.5)| + 1`
      for `n` documents holding the term out of `N`, computed with a signed
      difference. */
  function IdfArgument(n: nat, documentCount: nat): real {
    Abs(((documentCount - n) as real + 0.5) / (n as real + 0.5)) + 1.0
  }

  /** The argument of the logarithm is at least 1, so the logarithm is
      defined and not negative, whatever the counts. */
  lemma IdfArgumentAtLeastOne(n: nat, documentCount: nat)
    ensures 1.0 <= IdfArgument(n, documentCount)
  {
  }

  /** `f` never decreases, as the natural logarithm does not. */
  ghost predicate NonDecreasing(f: real -> real) {
    forall x, y | x <= y :: f(x) <= f(y)
  }

  /** Inverse document frequency, with the difference taken as a signed
      number. With a non-decreasing logarithm it is at least `ln(1)`, that
      is not negative. */
  function Idf(n: nat, documentCount: nat, ln: real -> real): (r: real)
    ensures NonDecreasing(ln) ==> ln(1.0) <= r
  {
    IdfArgumentAtLeastOne(n, documentCount);
    ln(IdfArgument(n, documentCount))
  }

  /** Up to the number of documents, a term held by more documents has a
      smaller argument for the logarithm. */
  lemma IdfArgumentDecreasing(n: nat, m: nat, documentCount: nat)
    requires n <= m <= documentCount
    ensures IdfArgument(m, documentCount) <= IdfArgument(n, documentCount)
  {
    var a, b := (documentCount - m) as real + 0.5, (documentCount - n) as real + 0.5;
    var c, d := m as real + 0.5, n as real + 0.5;
    assert 0.0 < a <= b && 0.0 < d <= c;
    assert a / c <= b / c by { DivideMonotone(a, b, c); }
    assert b / c <= b / d by { DivideAntitone(b, d, c); }
    assert 0.0 < a / c;
  }

  lemma DivideMonotone(a: real, b: real, c: real)
    requires a <= b && 0.0 < c
    ensures a / c <= b / c
  {
    assert b / c - a / c == (b - a) / c;
  }

  lemma DivideAntitone(b: real, d: real, c: real)
    requires 0.0 < b && 0.0 < d <= c
    ensures b / c <= b / d
  {
    assert b / d - b / c == b * (c - d) / (c * d);
  }

  /** BM25's idf falls as more documents hold the term: with a
      non-decreasing logarithm, up to the number of documents, a larger count
      never gives a larger idf. */
  lemma IdfDecreasing(n: nat, m: nat, documentCount: nat, ln: real -> real)
    requires NonDecreasing(ln) && n <= m <= documentCount
    ensures Idf(m, documentCount, ln) <= Idf(n, documentCount, ln)
  {
    IdfArgumentDecreasing(n, m, documentCount);
  }

  datatype ArithmeticError = SubtractOverflow

  /** `Builder::idf` as written: `doc_count - documents_with_term` is a
      `usize` subtraction, which panics when the count exceeds the number of
      documents. */
  function IdfAsWritten(n: nat, documentCount: nat, ln: real -> real): (r: Result<real, ArithmeticError>)
    ensures r.Err? <==> documentCount < n
    ensures r.Ok? ==> r.value == Idf(n, documentCount, ln)
  {
    if documentCount < n then Err(SubtractOverflow)
    else Ok(ln(Abs(((documentCount - n) as real + 0.5) / (n as real + 0.5)) + 1.0))
  }

  /** `idf` as written underflows on `t`: the term's document sets hold more
      entries than there are documents. */
  ghost predicate Overcounted(bd: Builder, t: string) {
    t in bd.terms.invertedIndex && bd.documentCount < DocumentsWithTerm(bd.terms.invertedIndex[t])
  }

  /** Some term of the field `fr` is overcounted. */
  ghost predicate FieldOvercounted(bd: Builder, fr: FieldRef) {
    fr in bd.fieldTermFrequencies && exists t | t in bd.fieldTermFrequencies[fr] :: Overcounted(bd, t)
  }

  /** Some term of some field is overcounted, so `build` reaches an `idf`
      that underflows. */
  ghost predicate BuildOvercounted(bd: Builder) {
    exists fr | fr in bd.fieldTermFrequencies :: FieldOvercounted(bd, fr)
  }

  /** One document holding the same word in two differently named fields:
      the term's documents add up to 2 while one document is counted, so
      `idf` as written panics. */
  lemma IdfUnderflow(docRef: string, n0: string, n1: string, w: string, ln: real -> real)
    requires IsWord(w) && n0 != n1
    ensures var doc := Document(docRef, [Field(n0, Text(w)), Field(n1, Text(w))]);
      && Tokenizable(doc)
      && var bd := AddDocument(New(), doc);
      && Valid(bd)
      && bd.documentCount == 1
      && w in bd.terms.invertedIndex
      && DocumentsWithTerm(bd.terms.invertedIndex[w]) == 2
      && IdfAsWritten(DocumentsWithTerm(bd.terms.invertedIndex[w]), bd.documentCount, ln).Err?
  {
    var doc := Document(docRef, [Field(n0, Text(w)), Field(n1, Text(w))]);
    AddTwoWords(New(), docRef, n0, w, n1, w);
    AddDocumentValid(New(), doc);
    WordInTwoFields(New().(documentCount := 1), docRef, n0, n1, w);
    CountedTwice(map[n0 := {docRef}, n1 := {docRef}], n0, n1, docRef);
  }

  /** One document under two field names counts twice. */
  lemma CountedTwice(documents: map<string, set<string>>, n0: string, n1: string, docRef: string)
    requires n0 != n1 && documents == map[n0 := {docRef}, n1 := {docRef}]
    ensures Sum(SetSizes(documents), documents.Keys) == 2
  {
    SumAdd(SetSizes(documents), {}, n0);
    SumAdd(SetSizes(documents), {n0}, n1);
    assert documents.Keys == {} + {n0} + {n1};
  }

  // ---- create_field_vectors ---------------------------------------------------

  /** The inputs of the BM25 weight of one term in one field. */
  datatype ScoreInputs = ScoreInputs(
    idf: real,
    termFrequency: nat,
    fieldLength: nat,
    averageFieldLength: real,
    k1: real,
    b: real)

  /** The preconditions of the unwraps in `create_field_vectors`: the field
      reference has a length and its name an average, and each of its terms
      has an entry in the inverted index. */
  ghost predicate Scorable(bd: Builder, average: map<string, real>, fr: FieldRef) {
    && fr in bd.fieldTermFrequencies
    && fr in bd.fieldLengths
    && fr.fieldName in average
    && forall t | t in bd.fieldTermFrequencies[fr] :: t in bd.terms.invertedIndex
  }

  lemma ValidIsScorable(bd: Builder, average: map<string, real>, fr: FieldRef)
    requires Valid(bd) && Averages(bd.fieldLengths, average) && fr in bd.fieldTermFrequencies
    ensures Scorable(bd, average, fr)
  {
    assert fr.fieldName in NamesOf(bd.fieldLengths.Keys);
  }

  /** The weight of `term` in the field `fr`. */
  ghost function Inputs(bd: Builder, average: map<string, real>, ln: real -> real, fr: FieldRef, term: string): ScoreInputs
    requires Scorable(bd, average, fr) && term in bd.fieldTermFrequencies[fr]
  {
    ScoreInputs(
      Idf(DocumentsWithTerm(bd.terms.invertedIndex[term]), bd.documentCount, ln),
      bd.fieldTermFrequencies[fr][term],
      bd.fieldLengths[fr],
      average[fr.fieldName],
      bd.k1,
      bd.b)
  }

  /** The ids of the terms of the field `fr`. */
  ghost function FieldIds(bd: Builder, fr: FieldRef): (ids: map<string, nat>)
    requires fr in bd.fieldTermFrequencies
    requires forall t | t in bd.fieldTermFrequencies[fr] :: t in bd.terms.invertedIndex
    ensures ids.Keys == bd.fieldTermFrequencies[fr].Keys
  {
    map t | t in bd.fieldTermFrequencies[fr] :: bd.terms.invertedIndex[t].index
  }

  /** The weights of the terms of the field `fr`. */
  ghost function FieldWeights(bd: Builder, average: map<string, real>, ln: real -> real,
                              score: ScoreInputs -> real, fr: FieldRef): (weights: map<string, real>)
    requires Scorable(bd, average, fr)
    ensures weights.Keys == bd.fieldTermFrequencies[fr].Keys
  {
    map t | t in bd.fieldTermFrequencies[fr] :: score(Inputs(bd, average, ln, fr, t))
  }

  /** `v` is the vector of `fr`: one element per term of the field, at the
      term's id with the term's weight, in ascending order of id. */
  ghost predicate IsFieldVector(bd: Builder, average: map<string, real>, ln: real -> real,
                                score: ScoreInputs -> real, fr: FieldRef, v: Vector)
    requires Scorable(bd, average, fr)
  {
    var ids := FieldIds(bd, fr);
    PartialVector(ids, FieldWeights(bd, average, ln, score, fr), ids.Keys, v)
  }

  /** Every weight is computed from well-defined inputs: a term frequency
      and a field length of at least 1, a positive average length, and a
      logarithm taken of a number at least 1. */
  lemma InputsArePositive(bd: Builder, average: map<string, real>, ln: real -> real, fr: FieldRef, t: string)
    requires Valid(bd) && Averages(bd.fieldLengths, average)
    requires fr in bd.fieldTermFrequencies && t in bd.fieldTermFrequencies[fr]
    ensures Scorable(bd, average, fr)
    ensures var i := Inputs(bd, average, ln, fr, t);
      1 <= i.termFrequency && 1 <= i.fieldLength && 0.0 < i.averageFieldLength
    ensures 1.0 <= IdfArgument(DocumentsWithTerm(bd.terms.invertedIndex[t]), bd.documentCount)
  {
    ValidIsScorable(bd, average, fr);
    AveragePositive(bd.fieldLengths, average, fr);
    IdfArgumentAtLeastOne(DocumentsWithTerm(bd.terms.invertedIndex[t]), bd.documentCount);
  }

  /** No two terms share an id. */
  ghost predicate Injective(ids: map<string, nat>) {
    forall t, u | t in ids && u in ids && t != u :: ids[t] != ids[u]
  }

  /** Distinct terms of a valid builder have distinct ids, so the ids of a
      field are injective. */
  lemma FieldIdsInjective(bd: Builder, fr: FieldRef)
    requires Valid(bd) && fr in bd.fieldTermFrequencies
    ensures Injective(FieldIds(bd, fr))
  {
  }

  /** `v` holds one element per term of `done`, at the term's id with its
      weight, in ascending order of id: the vector of a field part way
      through its loop. */
  ghost predicate PartialVector(ids: map<string, nat>, weights: map<string, real>, done: set<string>, v: Vector)
    requires done <= ids.Keys && done <= weights.Keys
  {
    && StrictlyAscending(v.elements)
    && |v.elements| == |done|
    && (forall t | t in done :: Element(ids[t], weights[t]) in v.elements)
    && (forall e | e in v.elements :: exists t | t in done :: e == Element(ids[t], weights[t]))
  }

  /** No element of a partial vector uses the id of a term not yet added. */
  lemma FreshId(ids: map<string, nat>, weights: map<string, real>, done: set<string>, v: Vector, t: string)
    requires Injective(ids) && done <= ids.Keys && done <= weights.Keys && t in ids && t !in done
    requires PartialVector(ids, weights, done, v)
    ensures !HasIndex(v.elements, ids[t])
  {
    forall k | 0 <= k < |v.elements|
      ensures v.elements[k].index != ids[t]
    {
      var e := v.elements[k];
      assert e in v.elements;
      var u :| u in done && e == Element(ids[u], weights[u]);
    }
  }

  /** Inserting the element of one more term keeps a partial vector, and
      the insertion does not fail on a duplicate id. */
  lemma InsertStep(ids: map<string, nat>, weights: map<string, real>, done: set<string>, v: Vector, t: string)
    requires Injective(ids) && done <= ids.Keys && done <= weights.Keys
    requires t in ids && t in weights && t !in done
    requires PartialVector(ids, weights, done, v)
    ensures Insert(v, ids[t], weights[t]).Ok?
    ensures PartialVector(ids, weights, done + {t}, Insert(v, ids[t], weights[t]).value)
  {
    var e := Element(ids[t], weights[t]);
    FreshId(ids, weights, done, v, t);
    var w := Insert(v, ids[t], weights[t]).value;
    AddedMembers(v.elements, w.elements, e);
    forall x | x in w.elements
      ensures exists u | u in done + {t} :: x == Element(ids[u], weights[u])
    {
      if x != e {
        var u :| u in done && x == Element(ids[u], weights[u]);
        assert u in done + {t};
      }
    }
    assert |done + {t}| == |done| + 1;
  }

  /** One pass of the loop of `create_field_vectors`: compute the weight of
      `t` with `idf` as written and insert it at the term's id. The pass
      fails exactly when `idf` underflows on `t`; otherwise the weight is
      the one the signed idf gives. */
  method InsertTerm(bd: Builder, average: map<string, real>, ln: real -> real, score: ScoreInputs -> real,
                    fr: FieldRef, ghost done: set<string>, v: Vector, t: string)
    returns (r: Result<Vector, ArithmeticError>)
    requires Scorable(bd, average, fr) && Injective(FieldIds(bd, fr))
    requires done <= bd.fieldTermFrequencies[fr].Keys && t in bd.fieldTermFrequencies[fr] && t !in done
    requires PartialVector(FieldIds(bd, fr), FieldWeights(bd, average, ln, score, fr), done, v)
    ensures r.Err? <==> Overcounted(bd, t)
    ensures r.Ok? ==> PartialVector(FieldIds(bd, fr), FieldWeights(bd, average, ln, score, fr), done + {t}, r.value)
  {
    var entry := bd.terms.invertedIndex[t];
    var n := CountDocumentsWithTerm(entry);
    var idf := IdfAsWritten(n, bd.documentCount, ln);
    if idf.Err? {
      return Err(idf.error);
    }
    var weight := score(ScoreInputs(idf.value, bd.fieldTermFrequencies[fr][t],
                                    bd.fieldLengths[fr], average[fr.fieldName], bd.k1, bd.b));
    ghost var ids := FieldIds(bd, fr);
    ghost var weights := FieldWeights(bd, average, ln, score, fr);
    assert entry.index == ids[t] && weight == weights[t];
    InsertStep(ids, weights, done, v, t);
    r := Ok(Insert(v, entry.index, weight).value);
  }

  /** The loop of `create_field_vectors` over one field reference's terms,
      in any order. The `insert` never hits a duplicate id; the loop fails
      exactly when `idf` underflows on one of the field's terms. */
  method CreateFieldVector(bd: Builder, average: map<string, real>, ln: real -> real,
                           score: ScoreInputs -> real, fr: FieldRef) returns (r: Result<Vector, ArithmeticError>)
    requires Scorable(bd, average, fr) && Injective(FieldIds(bd, fr))
    ensures r.Err? <==> FieldOvercounted(bd, fr)
    ensures r.Ok? ==> IsFieldVector(bd, average, ln, score, fr, r.value)
  {
    var terms := bd.fieldTermFrequencies[fr].Keys;
    var v := Empty();
    var todo := terms;
    while todo != {}
      invariant todo <= terms
      invariant PartialVector(FieldIds(bd, fr), FieldWeights(bd, average, ln, score, fr), terms - todo, v)
      invariant forall t | t in terms - todo :: !Overcounted(bd, t)
      decreases |todo|
    {
      var t :| t in todo;
      VisitOne(terms, todo, t);
      var step := InsertTerm(bd, average, ln, score, fr, terms - todo, v, t);
      if step.Err? {
        return Err(step.error);
      }
      v := step.value;
      todo := todo - {t};
    }
    VisitedAll(terms, todo);
    r := Ok(v);
  }

  /** There is only one vector of a field: the order in which the hash map
      hands out its terms does not change the result. */
  lemma FieldVectorUnique(bd: Builder, average: map<string, real>, ln: real -> real,
                          score: ScoreInputs -> real, fr: FieldRef, v: Vector, w: Vector)
    requires Scorable(bd, average, fr)
    requires IsFieldVector(bd, average, ln, score, fr, v) && IsFieldVector(bd, average, ln, score, fr, w)
    ensures v == w
  {
    var ids, weights := FieldIds(bd, fr), FieldWeights(bd, average, ln, score, fr);
    forall e
      ensures e in v.elements <==> e in w.elements
    {
      if e in v.elements {
        var t :| t in ids.Keys && e == Element(ids[t], weights[t]);
      }
      if e in w.elements {
        var t :| t in ids.Keys && e == Element(ids[t], weights[t]);
      }
    }
    AscendingUnique(v.elements, w.elements);
  }

  /** Every vector of `vectors` is the vector of its field reference. */
  ghost predicate FieldVectors(bd: Builder, average: map<string, real>, ln: real -> real,
                               score: ScoreInputs -> real, vectors: map<FieldRef, Vector>)
  {
    forall fr | fr in vectors :: Scorable(bd, average, fr) && IsFieldVector(bd, average, ln, score, fr, vectors[fr])
  }

  lemma FieldVectorsStep(bd: Builder, average: map<string, real>, ln: real -> real,
                         score: ScoreInputs -> real, vectors: map<FieldRef, Vector>, fr: FieldRef, v: Vector)
    requires FieldVectors(bd, average, ln, score, vectors)
    requires Scorable(bd, average, fr) && IsFieldVector(bd, average, ln, score, fr, v)
    ensures FieldVectors(bd, average, ln, score, vectors[fr := v])
  {
  }

  /** `create_field_vectors`: one vector per field reference that has term
      frequencies. It fails exactly when `idf` underflows on some term of
      some field. */
  method CreateFieldVectors(bd: Builder, ln: real -> real, score: ScoreInputs -> real)
    returns (r: Result<map<FieldRef, Vector>, ArithmeticError>, average: map<string, real>)
    requires Valid(bd)
    ensures Averages(bd.fieldLengths, average)
    ensures r.Err? <==> BuildOvercounted(bd)
    ensures r.Ok? ==> r.value.Keys == bd.fieldTermFrequencies.Keys
    ensures r.Ok? ==> FieldVectors(bd, average, ln, score, r.value)
  {
    average := AverageFieldLengths(bd.fieldLengths);
    AllScorable(bd, average);
    r := FieldVectorsLoop(bd, average, ln, score);
  }

  /** Under the builder invariant, every field reference with term counts can
      be scored, and its terms have pairwise different ids. */
  lemma AllScorable(bd: Builder, average: map<string, real>)
    requires Valid(bd) && Averages(bd.fieldLengths, average)
    ensures forall fr | fr in bd.fieldTermFrequencies :: Scorable(bd, average, fr) && Injective(FieldIds(bd, fr))
  {
    forall fr | fr in bd.fieldTermFrequencies
      ensures Scorable(bd, average, fr) && Injective(FieldIds(bd, fr))
    {
      ValidIsScorable(bd, average, fr);
      FieldIdsInjective(bd, fr);
    }
  }

  /** The loop of `create_field_vectors` over the field references, in any
      order, stopping at the first field whose `idf` underflows. */
  method FieldVectorsLoop(bd: Builder, average: map<string, real>, ln: real -> real, score: ScoreInputs -> real)
    returns (r: Result<map<FieldRef, Vector>, ArithmeticError>)
    requires forall fr | fr in bd.fieldTermFrequencies :: Scorable(bd, average, fr) && Injective(FieldIds(bd, fr))
    ensures r.Err? <==> BuildOvercounted(bd)
    ensures r.Ok? ==> r.value.Keys == bd.fieldTermFrequencies.Keys
    ensures r.Ok? ==> FieldVectors(bd, average, ln, score, r.value)
  {
    var vectors := map[];
    var todo := bd.fieldTermFrequencies.Keys;
    while todo != {}
      invariant todo <= bd.fieldTermFrequencies.Keys
      invariant vectors.Keys == bd.fieldTermFrequencies.Keys - todo
      invariant FieldVectors(bd, average, ln, score, vectors)
      invariant forall fr | fr in bd.fieldTermFrequencies.Keys - todo :: !FieldOvercounted(bd, fr)
      decreases |todo|
    {
      var fr :| fr in todo;
      var v := CreateFieldVector(bd, average, ln, score, fr);
      if v.Err? {
        return Err(v.error);
      }
      StoreFieldVector(bd, average, ln, score, vectors, todo, fr, v.value);
      vectors := vectors[fr := v.value];
      todo := todo - {fr};
    }
    VisitedAll(bd.fieldTermFrequencies.Keys, todo);
    NotOvercounted(bd, todo);
    r := Ok(vectors);
  }

  /** One turn of the loop of `create_field_vectors`: storing the vector of a
      field that does not underflow keeps the loop invariant. */
  lemma StoreFieldVector(bd: Builder, average: map<string, real>, ln: real -> real, score: ScoreInputs -> real,
                         vectors: map<FieldRef, Vector>, todo: set<FieldRef>, fr: FieldRef, v: Vector)
    requires todo <= bd.fieldTermFrequencies.Keys && fr in todo
    requires vectors.Keys == bd.fieldTermFrequencies.Keys - todo
    requires FieldVectors(bd, average, ln, score, vectors)
    requires Scorable(bd, average, fr) && IsFieldVector(bd, average, ln, score, fr, v)
    requires forall g | g in bd.fieldTermFrequencies.Keys - todo :: !FieldOvercounted(bd, g)
    requires !FieldOvercounted(bd, fr)
    ensures vectors[fr := v].Keys == bd.fieldTermFrequencies.Keys - (todo - {fr})
    ensures FieldVectors(bd, average, ln, score, vectors[fr := v])
    ensures forall g | g in bd.fieldTermFrequencies.Keys - (todo - {fr}) :: !FieldOvercounted(bd, g)
    ensures |todo - {fr}| < |todo|
  {
    FieldVectorsStep(bd, average, ln, score, vectors, fr, v);
    NotOvercountedStep(bd, todo, fr);
    VisitOne(bd.fieldTermFrequencies.Keys, todo, fr);
    VisitKey(bd.fieldTermFrequencies.Keys, todo, vectors, fr, v);
  }

  lemma NotOvercountedStep(bd: Builder, todo: set<FieldRef>, fr: FieldRef)
    requires todo <= bd.fieldTermFrequencies.Keys && fr in todo && !FieldOvercounted(bd, fr)
    requires forall g | g in bd.fieldTermFrequencies.Keys - todo :: !FieldOvercounted(bd, g)
    ensures forall g | g in bd.fieldTermFrequencies.Keys - (todo - {fr}) :: !FieldOvercounted(bd, g)
  {
  }

  /** Once every field is visited without an underflow, none can occur. */
  lemma NotOvercounted(bd: Builder, todo: set<FieldRef>)
    requires todo == {}
    requires forall g | g in bd.fieldTermFrequencies.Keys - todo :: !FieldOvercounted(bd, g)
    ensures !BuildOvercounted(bd)
  {
  }

  // ---- create_token_set and build ---------------------------------------------

  /** `create_token_set`: the terms of the inverted index, sorted. The
      automaton built from them is not part of this model. */
  method CreateTokenSet(bd: Builder) returns (vocabulary: seq<string>)
    ensures StrictlySorted(vocabulary)
    ensures forall t :: t in vocabulary <==> t in bd.terms.invertedIndex
    ensures |vocabulary| == |bd.terms.invertedIndex|
  {
    vocabulary := SortedKeys(bd.terms.invertedIndex.Keys);
  }

  /** `Index`, holding the sorted vocabulary in place of its token set. */
  datatype Index = Index(
    invertedIndex: map<string, InvertedEntry>,
    fieldVectors: map<FieldRef, Vector>,
    vocabulary: seq<string>,
    fieldNames: set<string>)

  /** `Builder::build`. It fails exactly when `idf` underflows on a term of
      some field; otherwise the index holds the vectors weighted with the
      signed idf, which agrees with `idf` as written on every such term. */
  method Build(bd: Builder, ln: real -> real, score: ScoreInputs -> real)
    returns (r: Result<Index, ArithmeticError>, ghost average: map<string, real>)
    requires Valid(bd)
    ensures Averages(bd.fieldLengths, average)
    ensures r.Err? <==> BuildOvercounted(bd)
    ensures r.Ok? ==> r.value.invertedIndex == bd.terms.invertedIndex
    ensures r.Ok? ==> r.value.fieldNames == bd.fieldNames
    ensures r.Ok? ==> r.value.fieldVectors.Keys == bd.fieldTermFrequencies.Keys
    ensures r.Ok? ==> FieldVectors(bd, average, ln, score, r.value.fieldVectors)
    ensures r.Ok? ==> StrictlySorted(r.value.vocabulary)
    ensures r.Ok? ==> forall t :: t in r.value.vocabulary <==> t in bd.terms.invertedIndex
  {
    var vectors;
    vectors, average := CreateFieldVectors(bd, ln, score);
    if vectors.Err? {
      return Err(vectors.error), average;
    }
    var vocabulary := CreateTokenSet(bd);
    r := Ok(Index(bd.terms.invertedIndex, vectors.value, vocabulary, bd.fieldNames));
  }

  /** The vectors of a build are determined by the builder: two maps of
      correct field vectors over the same field references are equal. */
  lemma FieldVectorsUnique(bd: Builder, average: map<string, real>, ln: real -> real,
                           score: ScoreInputs -> real, v: map<FieldRef, Vector>, w: map<FieldRef, Vector>)
    requires v.Keys == w.Keys
    requires FieldVectors(bd, average, ln, score, v) && FieldVectors(bd, average, ln, score, w)
    ensures v == w
  {
    forall fr | fr in v
      ensures v[fr] == w[fr]
    {
      FieldVectorUnique(bd, average, ln, score, fr, v[fr], w[fr]);
    }
  }

  /** The document of `IdfUnderflow` makes `build` fail: its word counts two
      documents in a one-document builder and is a term of both fields. */
  lemma UnderflowingBuild(docRef: string, n0: string, n1: string, w: string)
    requires IsWord(w) && n0 != n1
    ensures var doc := Document(docRef, [Field(n0, Text(w)), Field(n1, Text(w))]);
      && Tokenizable(doc)
      && var bd := AddDocument(New(), doc);
      && Valid(bd)
      && BuildOvercounted(bd)
  {
    var doc := Document(docRef, [Field(n0, Text(w)), Field(n1, Text(w))]);
    var bd := AddDocument(New(), doc);
    AddScenario(New(), docRef, n0, w, n1, w);
    IdfUnderflow(docRef, n0, n1, w, x => x);
    assert Overcounted(bd, w);
    assert FieldOvercounted(bd, FieldRef(docRef, n0));
  }
}
