/** The index builder's bookkeeping.

    The builder records, for every term, a numeric id and the documents whose
    fields contain it; for every field of every document, the number of terms
    and how often each term occurs. Term ids are handed out densely, starting
    at 1, in the order terms are first seen, and never change. */
module IndexBuilder {
  import opened Tokens
  import Tokenizer
  import Pipeline
  import opened Fields
  import opened Documents
  import opened SetSums

  /** `InvertedIndex`: a term's id and, per field name, the references of the
      documents whose field of that name holds the term. */
  datatype InvertedEntry = InvertedEntry(index: nat, documents: map<string, set<string>>)

  /** The builder's `inverted_index` together with its `term_index`, the last
      id handed out. */
  datatype Terms = Terms(invertedIndex: map<string, InvertedEntry>, termIndex: nat)

  /** `Builder`, without its stateless tokenizer and pipeline. `b` and `k1`
      are the BM25 parameters. */
  datatype Builder = Builder(
    fieldNames: set<string>,
    terms: Terms,
    fieldTermFrequencies: map<FieldRef, map<string, nat>>,
    fieldLengths: map<FieldRef, nat>,
    b: real,
    k1: real,
    documentCount: nat)

  // ---- invariant -------------------------------------------------------------

  /** Some term has id `i`. */
  ghost predicate HasId(inv: map<string, InvertedEntry>, i: nat) {
    exists t | t in inv :: inv[t].index == i
  }

  /** The ids in use are exactly 1 through the last id, one per term. */
  ghost predicate DenseIds(ts: Terms) {
    && (forall t | t in ts.invertedIndex :: 1 <= ts.invertedIndex[t].index <= ts.termIndex)
    && (forall t, u | t in ts.invertedIndex && u in ts.invertedIndex && t != u ::
          ts.invertedIndex[t].index != ts.invertedIndex[u].index)
    && (forall i | 1 <= i <= ts.termIndex :: HasId(ts.invertedIndex, i))
  }

  /** What the builder keeps true between calls. */
  ghost predicate Valid(bd: Builder) {
    && bd.fieldLengths.Keys == bd.fieldTermFrequencies.Keys
    && DenseIds(bd.terms)
    && (forall fr, t | fr in bd.fieldTermFrequencies && t in bd.fieldTermFrequencies[fr] ::
          t in bd.terms.invertedIndex && 1 <= bd.fieldTermFrequencies[fr][t])
    && (forall fr | fr in bd.fieldLengths && bd.fieldLengths[fr] == 0 ::
          fr in bd.fieldTermFrequencies && bd.fieldTermFrequencies[fr] == map[])
  }

  /** Every membership of `a` is still present in `c`: terms, field names and
      document references are only ever added. */
  ghost predicate Grows(a: map<string, InvertedEntry>, c: map<string, InvertedEntry>) {
    forall t, f | t in a && f in a[t].documents ::
      t in c && f in c[t].documents && a[t].documents[f] <= c[t].documents[f]
  }

  /** Ids already given out are kept. */
  ghost predicate KeepsIds(a: map<string, InvertedEntry>, c: map<string, InvertedEntry>) {
    forall t | t in a :: t in c && c[t].index == a[t].index
  }

  /** `doc` is recorded under `term` and field `name`. */
  ghost predicate Recorded(inv: map<string, InvertedEntry>, term: string, name: string, doc: string) {
    term in inv && name in inv[term].documents && doc in inv[term].documents[name]
  }

  // ---- configuration ---------------------------------------------------------

  /** `Builder::new`. */
  function New(): (r: Builder)
    ensures r.b == 0.75 && r.k1 == 1.2
    ensures r.terms.termIndex == 0 && r.documentCount == 0
    ensures r.fieldNames == {} && r.terms.invertedIndex == map[]
    ensures r.fieldTermFrequencies == map[] && r.fieldLengths == map[]
    ensures Valid(r)
  {
    Builder({}, Terms(map[], 0), map[], map[], 0.75, 1.2, 0)
  }

  /** `Builder::add_field`: declare a field name; no statistic changes. */
  function AddField(bd: Builder, name: string): (r: Builder)
    ensures r.fieldNames == bd.fieldNames + {name}
    ensures r.(fieldNames := bd.fieldNames) == bd
  {
    bd.(fieldNames := bd.fieldNames + {name})
  }

  lemma AddFieldIdempotent(bd: Builder, name: string)
    ensures AddField(AddField(bd, name), name) == AddField(bd, name)
    ensures name in bd.fieldNames ==> AddField(bd, name) == bd
  {
  }

  /** `f64::max(0.0).min(1.0)`. Not-a-number is not modelled. */
  function Clamp(v: real): (r: real)
    ensures 0.0 <= r <= 1.0
    ensures 0.0 <= v <= 1.0 ==> r == v
    ensures v < 0.0 ==> r == 0.0
    ensures 1.0 < v ==> r == 1.0
  {
    if v < 0.0 then 0.0 else if 1.0 < v then 1.0 else v
  }

  /** `Builder::b`: store the value clamped to [0, 1]. */
  function SetB(bd: Builder, v: real): (r: Builder)
    ensures 0.0 <= r.b <= 1.0
    ensures 0.0 <= v <= 1.0 ==> r.b == v
    ensures v < 0.0 ==> r.b == 0.0
    ensures 1.0 < v ==> r.b == 1.0
    ensures r.(b := bd.b) == bd
  {
    bd.(b := Clamp(v))
  }

  /** `Builder::k1`: store the value unchanged. */
  function SetK1(bd: Builder, v: real): (r: Builder)
    ensures r.k1 == v
    ensures r.(k1 := bd.k1) == bd
  {
    bd.(k1 := v)
  }

  // ---- add_document ----------------------------------------------------------

  /** The documents of `inv` recorded under `term` and `name`, if any. */
  function DocumentsOf(inv: map<string, InvertedEntry>, term: string, name: string): set<string> {
    if term in inv && name in inv[term].documents then inv[term].documents[name] else {}
  }

  /** The body of the inner loop of `add_document` for one term occurrence:
      a term seen for the first time gets the next id; the document is added
      to the term's set for the field. */
  function RecordTerm(ts: Terms, name: string, doc: string, term: string): (r: Terms)
    ensures r.invertedIndex.Keys == ts.invertedIndex.Keys + {term}
    ensures term !in ts.invertedIndex ==> r.termIndex == ts.termIndex + 1 && r.invertedIndex[term].index == r.termIndex
    ensures term in ts.invertedIndex ==> r.termIndex == ts.termIndex
    ensures KeepsIds(ts.invertedIndex, r.invertedIndex)
    ensures Recorded(r.invertedIndex, term, name, doc)
    ensures r.invertedIndex[term].documents[name] == DocumentsOf(ts.invertedIndex, term, name) + {doc}
    ensures forall t | t in ts.invertedIndex && t != term :: r.invertedIndex[t] == ts.invertedIndex[t]
    ensures forall f | f in r.invertedIndex[term].documents && f != name ::
      term in ts.invertedIndex && f in ts.invertedIndex[term].documents
      && r.invertedIndex[term].documents[f] == ts.invertedIndex[term].documents[f]
    ensures Grows(ts.invertedIndex, r.invertedIndex)
  {
    var inv := ts.invertedIndex;
    var termIndex := if term in inv then ts.termIndex else ts.termIndex + 1;
    var entry := if term in inv then inv[term] else InvertedEntry(termIndex, map[]);
    var docs := if name in entry.documents then entry.documents[name] else {};
    Terms(inv[term := entry.(documents := entry.documents[name := docs + {doc}])], termIndex)
  }

  /** The documents of the recorded term: the document joins the set of the
      field, all other fields of the term are kept. */
  lemma RecordTermDocuments(ts: Terms, name: string, doc: string, term: string)
    ensures var before := if term in ts.invertedIndex then ts.invertedIndex[term].documents else map[];
      RecordTerm(ts, name, doc, term).invertedIndex[term].documents
        == before[name := DocumentsOf(ts.invertedIndex, term, name) + {doc}]
  {
  }

  /** Recording a term adds exactly one membership: the document under this
      term and field. */
  lemma RecordTermExact(ts: Terms, name: string, doc: string, term: string)
    ensures forall t, f, d ::
      Recorded(RecordTerm(ts, name, doc, term).invertedIndex, t, f, d)
      <==> Recorded(ts.invertedIndex, t, f, d) || (t == term && f == name && d == doc)
  {
  }

  lemma RecordTermValid(ts: Terms, name: string, doc: string, term: string)
    requires DenseIds(ts)
    ensures DenseIds(RecordTerm(ts, name, doc, term))
  {
    var r := RecordTerm(ts, name, doc, term);
    forall i | 1 <= i <= r.termIndex
      ensures HasId(r.invertedIndex, i)
    {
      if i <= ts.termIndex {
        assert HasId(ts.invertedIndex, i);
        var t :| t in ts.invertedIndex && ts.invertedIndex[t].index == i;
        assert r.invertedIndex[t].index == i;
      } else {
        assert r.invertedIndex[term].index == i;
      }
    }
  }

  /** The whole inner loop: the terms of one field, first to last. */
  function RecordTerms(ts: Terms, name: string, doc: string, terms: seq<string>): (r: Terms)
    ensures forall t :: t in r.invertedIndex <==> t in ts.invertedIndex || t in terms
    ensures ts.termIndex <= r.termIndex
    ensures KeepsIds(ts.invertedIndex, r.invertedIndex)
    ensures Grows(ts.invertedIndex, r.invertedIndex)
    ensures forall t | t in terms :: Recorded(r.invertedIndex, t, name, doc)
    ensures forall t, f, d ::
      Recorded(r.invertedIndex, t, f, d)
      <==> Recorded(ts.invertedIndex, t, f, d) || (t in terms && f == name && d == doc)
    decreases |terms|
  {
    if |terms| == 0 then ts
    else
      RecordTermExact(ts, name, doc, terms[0]);
      var r := RecordTerms(RecordTerm(ts, name, doc, terms[0]), name, doc, terms[1..]);
      assert forall t | t in terms :: t == terms[0] || t in terms[1..];
      r
  }

  lemma {:induction false} RecordTermsValid(ts: Terms, name: string, doc: string, terms: seq<string>)
    requires DenseIds(ts)
    ensures DenseIds(RecordTerms(ts, name, doc, terms))
    decreases |terms|
  {
    if |terms| > 0 {
      RecordTermValid(ts, name, doc, terms[0]);
      RecordTermsValid(RecordTerm(ts, name, doc, terms[0]), name, doc, terms[1..]);
    }
  }

  /** The terms of `terms` that are not in `known`, each once, in the order
      of their first occurrence. */
  function FirstSeen(known: set<string>, terms: seq<string>): (r: seq<string>)
    ensures forall k | 0 <= k < |r| :: r[k] in terms && r[k] !in known
    ensures forall j, k | 0 <= j < k < |r| :: r[j] != r[k]
    ensures forall t | t in terms && t !in known :: t in r
    ensures forall j, k | 0 <= j < k < |r| :: FirstIndex(terms, r[j]) < FirstIndex(terms, r[k])
    decreases |terms|
  {
    if |terms| == 0 then []
    else
      var rest := FirstSeen(known + {terms[0]}, terms[1..]);
      FirstIndexShift(terms, rest);
      if terms[0] in known then
        assert rest == FirstSeen(known, terms[1..]) by {
          assert known + {terms[0]} == known;
        }
        rest
      else [terms[0]] + rest
  }

  /** The position of the first occurrence of `x` in `s`. */
  function FirstIndex(s: seq<string>, x: string): (i: nat)
    requires x in s
    ensures i < |s| && s[i] == x && x !in s[..i]
  {
    if s[0] == x then 0
    else
      var i := FirstIndex(s[1..], x) + 1;
      assert s[..i] == [s[0]] + s[1..][..i - 1];
      i
  }

  /** Terms other than the head occur first one position later in the whole
      sequence than in its tail. */
  lemma FirstIndexShift(terms: seq<string>, rest: seq<string>)
    requires 0 < |terms|
    requires forall k | 0 <= k < |rest| :: rest[k] in terms[1..] && rest[k] != terms[0]
    ensures forall k | 0 <= k < |rest| :: FirstIndex(terms, rest[k]) == FirstIndex(terms[1..], rest[k]) + 1
  {
  }

  /** New terms get consecutive ids in the order they are first seen, and
      the id counter advances by the number of new terms. */
  lemma {:induction false} FirstSeenIds(ts: Terms, name: string, doc: string, terms: seq<string>)
    ensures var r := RecordTerms(ts, name, doc, terms);
            var seen := FirstSeen(ts.invertedIndex.Keys, terms);
            && r.termIndex == ts.termIndex + |seen|
            && forall k | 0 <= k < |seen| :: r.invertedIndex[seen[k]].index == ts.termIndex + k + 1
    decreases |terms|
  {
    if |terms| > 0 {
      var ts' := RecordTerm(ts, name, doc, terms[0]);
      FirstSeenIds(ts', name, doc, terms[1..]);
      if terms[0] !in ts.invertedIndex {
        assert ts'.invertedIndex.Keys == ts.invertedIndex.Keys + {terms[0]};
      } else {
        assert ts'.invertedIndex.Keys == ts.invertedIndex.Keys;
      }
    }
  }

  /** The occurrences of each term in one field: the `field_terms` map,
      counted left to right. */
  function CountTerms(terms: seq<string>): (m: map<string, nat>)
    ensures forall t :: t in m <==> t in terms
    ensures forall t | t in m :: m[t] == multiset(terms)[t]
  {
    if |terms| == 0 then map[]
    else
      var init, last := terms[..|terms| - 1], terms[|terms| - 1];
      assert terms == init + [last];
      var m := CountTerms(init);
      m[last := Value(m, last) + 1]
  }

  /** The terms the analysis pipeline produces for one field value. */
  function FieldTerms(f: Field): (r: seq<string>)
    requires Tokenizer.IsAscii(ValueString(f.value))
    ensures forall k | 0 <= k < |r| :: 0 < |r[k]|
    ensures forall k, i | 0 <= k < |r| && 0 <= i < |r[k]| ::
      !Tokenizer.IsSeparator(r[k][i]) && !Tokenizer.IsUpper(r[k][i])
    ensures var text := Tokenizer.Normalize(ValueString(f.value));
      r == [] <==> Tokenizer.AllSeparators(text, 0, |text|)
  {
    var source := ValueString(f.value);
    var ts := Tokenizer.Tokenize(source);
    assert forall k | 0 <= k < |ts| :: 0 < |ts[k].value| by {
      forall k | 0 <= k < |ts|
        ensures 0 < |ts[k].value|
      {
        assert Tokenizer.NextRun(Tokenizer.Normalize(source), ts, k);
      }
    }
    assert forall k, i | 0 <= k < |ts| && 0 <= i < |ts[k].value| ::
      !Tokenizer.IsSeparator(ts[k].value[i]) && !Tokenizer.IsUpper(ts[k].value[i]) by {
      forall k, i | 0 <= k < |ts| && 0 <= i < |ts[k].value|
        ensures !Tokenizer.IsSeparator(ts[k].value[i]) && !Tokenizer.IsUpper(ts[k].value[i])
      {
        assert Tokenizer.NextRun(Tokenizer.Normalize(source), ts, k);
        Tokenizer.TokensAreLowercase(source, k, i);
      }
    }
    Tokenizer.NoTokensIffOnlySeparators(source);
    Values(Pipeline.Run(ts))
  }

  /** The body of the field loop of `add_document` for one field: its length
      is added to what the field reference already had, its term counts
      replace what it had. */
  function RecordField(bd: Builder, doc: string, name: string, terms: seq<string>): (r: Builder)
    ensures r.fieldLengths == bd.fieldLengths[FieldRef(doc, name) := Value(bd.fieldLengths, FieldRef(doc, name)) + |terms|]
    ensures r.fieldTermFrequencies == bd.fieldTermFrequencies[FieldRef(doc, name) := CountTerms(terms)]
    ensures r.terms == RecordTerms(bd.terms, name, doc, terms)
    ensures r.fieldNames == bd.fieldNames && r.documentCount == bd.documentCount
    ensures r.b == bd.b && r.k1 == bd.k1
  {
    var fr := FieldRef(doc, name);
    Builder(bd.fieldNames, RecordTerms(bd.terms, name, doc, terms),
            bd.fieldTermFrequencies[fr := CountTerms(terms)],
            bd.fieldLengths[fr := Value(bd.fieldLengths, fr) + |terms|],
            bd.b, bd.k1, bd.documentCount)
  }

  lemma RecordFieldValid(bd: Builder, doc: string, name: string, terms: seq<string>)
    requires Valid(bd)
    ensures Valid(RecordField(bd, doc, name, terms))
  {
    RecordTermsValid(bd.terms, name, doc, terms);
    RecordFieldCounted(bd, doc, name, terms);
    RecordFieldEmpty(bd, doc, name, terms);
  }

  /** Every counted term of the recorded field has an entry, with a count of
      at least one. */
  lemma RecordFieldCounted(bd: Builder, doc: string, name: string, terms: seq<string>)
    requires Valid(bd)
    ensures var r := RecordField(bd, doc, name, terms);
      forall g, t | g in r.fieldTermFrequencies && t in r.fieldTermFrequencies[g] ::
        t in r.terms.invertedIndex && 1 <= r.fieldTermFrequencies[g][t]
  {
    var r, fr := RecordField(bd, doc, name, terms), FieldRef(doc, name);
    forall g, t | g in r.fieldTermFrequencies && t in r.fieldTermFrequencies[g]
      ensures t in r.terms.invertedIndex && 1 <= r.fieldTermFrequencies[g][t]
    {
      if g == fr {
        assert t in terms && r.fieldTermFrequencies[g][t] == multiset(terms)[t];
      } else {
        assert t in bd.terms.invertedIndex && r.fieldTermFrequencies[g] == bd.fieldTermFrequencies[g];
      }
    }
  }

  /** A field reference of length zero has no term counts. */
  lemma RecordFieldEmpty(bd: Builder, doc: string, name: string, terms: seq<string>)
    requires Valid(bd)
    ensures var r := RecordField(bd, doc, name, terms);
      forall g | g in r.fieldLengths && r.fieldLengths[g] == 0 ::
        g in r.fieldTermFrequencies && r.fieldTermFrequencies[g] == map[]
  {
    var r, fr := RecordField(bd, doc, name, terms), FieldRef(doc, name);
    forall g | g in r.fieldLengths && r.fieldLengths[g] == 0
      ensures g in r.fieldTermFrequencies && r.fieldTermFrequencies[g] == map[]
    {
      if g == fr {
        assert terms == [];
      }
    }
  }

  /** One of `fields` is named `name` and yields the term `t`. */
  ghost predicate InFields(fields: seq<Field>, name: string, t: string)
    requires FieldsTokenizable(fields)
  {
    exists k | 0 <= k < |fields| :: fields[k].name == name && t in FieldTerms(fields[k])
  }

  lemma InFieldsCons(fields: seq<Field>)
    requires FieldsTokenizable(fields) && 0 < |fields|
    ensures FieldsTokenizable(fields[1..])
    ensures forall name, t ::
      InFields(fields, name, t)
      <==> (fields[0].name == name && t in FieldTerms(fields[0])) || InFields(fields[1..], name, t)
  {
    assert forall k | 0 <= k < |fields| - 1 :: fields[1..][k] == fields[k + 1];
  }

  /** The field loop of `add_document`, first field to last. The inverted
      index gains exactly the memberships of this document under each of its
      fields' terms and names. */
  function AddFields(bd: Builder, doc: string, fields: seq<Field>): (r: Builder)
    requires FieldsTokenizable(fields)
    ensures r.fieldNames == bd.fieldNames && r.documentCount == bd.documentCount
    ensures r.b == bd.b && r.k1 == bd.k1
    ensures forall t, f, d ::
      Recorded(r.terms.invertedIndex, t, f, d)
      <==> Recorded(bd.terms.invertedIndex, t, f, d) || (d == doc && InFields(fields, f, t))
    decreases |fields|
  {
    if |fields| == 0 then bd
    else
      var f := fields[0];
      InFieldsCons(fields);
      AddFields(RecordField(bd, doc, f.name, FieldTerms(f)), doc, fields[1..])
  }

  /** Nothing the field loop finds already recorded is lost, and ids are
      kept. */
  lemma {:induction false} AddFieldsGrows(bd: Builder, doc: string, fields: seq<Field>)
    requires FieldsTokenizable(fields)
    ensures KeepsIds(bd.terms.invertedIndex, AddFields(bd, doc, fields).terms.invertedIndex)
    ensures Grows(bd.terms.invertedIndex, AddFields(bd, doc, fields).terms.invertedIndex)
    decreases |fields|
  {
    if |fields| > 0 {
      var f := fields[0];
      var bd' := RecordField(bd, doc, f.name, FieldTerms(f));
      TailTokenizable(fields);
      AddFieldsGrows(bd', doc, fields[1..]);
    }
  }

  /** Every term of every one of `fields` is recorded for `doc` under the
      field's name. */
  ghost predicate RecordsFields(inv: map<string, InvertedEntry>, doc: string, fields: seq<Field>)
    requires FieldsTokenizable(fields)
  {
    forall k, t | 0 <= k < |fields| && t in FieldTerms(fields[k]) :: Recorded(inv, t, fields[k].name, doc)
  }

  /** Every term of every field is recorded for the document under the
      field's name. */
  lemma {:induction false} AddFieldsRecords(bd: Builder, doc: string, fields: seq<Field>)
    requires FieldsTokenizable(fields)
    ensures RecordsFields(AddFields(bd, doc, fields).terms.invertedIndex, doc, fields)
    decreases |fields|
  {
    if |fields| > 0 {
      var f := fields[0];
      var bd' := RecordField(bd, doc, f.name, FieldTerms(f));
      TailTokenizable(fields);
      AddFieldsRecords(bd', doc, fields[1..]);
      AddFieldsGrows(bd', doc, fields[1..]);
      var r := AddFields(bd', doc, fields[1..]);
      assert r == AddFields(bd, doc, fields);
      forall k, t | 0 <= k < |fields| && t in FieldTerms(fields[k])
        ensures Recorded(r.terms.invertedIndex, t, fields[k].name, doc)
      {
        if k == 0 {
          GrowsKeepsRecorded(bd'.terms.invertedIndex, r.terms.invertedIndex, t, f.name, doc);
        } else {
          assert fields[k] == fields[1..][k - 1];
        }
      }
    }
  }

  /** Every length of `a` is in `c`, at least as large. */
  ghost predicate LengthsGrow(a: map<FieldRef, nat>, c: map<FieldRef, nat>) {
    forall fr | fr in a :: fr in c && a[fr] <= c[fr]
  }

  /** Lengths recorded before only grow. */
  lemma {:induction false} AddFieldsLengthsGrow(bd: Builder, doc: string, fields: seq<Field>)
    requires FieldsTokenizable(fields)
    ensures LengthsGrow(bd.fieldLengths, AddFields(bd, doc, fields).fieldLengths)
    decreases |fields|
  {
    if |fields| > 0 {
      var f := fields[0];
      var bd' := RecordField(bd, doc, f.name, FieldTerms(f));
      TailTokenizable(fields);
      AddFieldsLengthsGrow(bd', doc, fields[1..]);
      var r := AddFields(bd', doc, fields[1..]);
      assert r == AddFields(bd, doc, fields);
      forall fr | fr in bd.fieldLengths
        ensures fr in r.fieldLengths && bd.fieldLengths[fr] <= r.fieldLengths[fr]
      {
        assert fr in bd'.fieldLengths && bd.fieldLengths[fr] <= bd'.fieldLengths[fr];
      }
    }
  }

  /** Every field of the document gets a length. */
  lemma {:induction false} AddFieldsLengths(bd: Builder, doc: string, fields: seq<Field>)
    requires FieldsTokenizable(fields)
    ensures var r := AddFields(bd, doc, fields);
      forall k | 0 <= k < |fields| :: FieldRef(doc, fields[k].name) in r.fieldLengths
    decreases |fields|
  {
    if |fields| > 0 {
      var f := fields[0];
      var bd' := RecordField(bd, doc, f.name, FieldTerms(f));
      TailTokenizable(fields);
      AddFieldsLengths(bd', doc, fields[1..]);
      AddFieldsLengthsGrow(bd', doc, fields[1..]);
      var r := AddFields(bd', doc, fields[1..]);
      assert r == AddFields(bd, doc, fields);
      forall k | 0 <= k < |fields|
        ensures FieldRef(doc, fields[k].name) in r.fieldLengths
      {
        if k == 0 {
          assert FieldRef(doc, f.name) in bd'.fieldLengths;
        } else {
          assert fields[k] == fields[1..][k - 1];
        }
      }
    }
  }

  lemma TailTokenizable(fields: seq<Field>)
    requires FieldsTokenizable(fields) && 0 < |fields|
    ensures FieldsTokenizable(fields[1..])
  {
    assert forall k | 0 <= k < |fields| - 1 :: fields[1..][k] == fields[k + 1];
  }

  lemma GrowsKeepsRecorded(a: map<string, InvertedEntry>, c: map<string, InvertedEntry>, term: string, name: string, doc: string)
    requires Grows(a, c) && Recorded(a, term, name, doc)
    ensures Recorded(c, term, name, doc)
  {
  }

  lemma {:induction false} AddFieldsValid(bd: Builder, doc: string, fields: seq<Field>)
    requires Valid(bd) && FieldsTokenizable(fields)
    ensures Valid(AddFields(bd, doc, fields))
    decreases |fields|
  {
    if |fields| > 0 {
      var f := fields[0];
      RecordFieldValid(bd, doc, f.name, FieldTerms(f));
      AddFieldsValid(RecordField(bd, doc, f.name, FieldTerms(f)), doc, fields[1..]);
    }
  }

  /** `Builder::add_document`: count the document, then record each field. */
  function AddDocument(bd: Builder, doc: Document): (r: Builder)
    requires Tokenizable(doc)
    ensures r.documentCount == bd.documentCount + 1
    ensures r.fieldNames == bd.fieldNames && r.b == bd.b && r.k1 == bd.k1
  {
    AddFields(bd.(documentCount := bd.documentCount + 1), doc.docRef, doc.fields)
  }

  /** Adding a document keeps the builder's invariant: lengths and
      frequencies are kept for the same field references, ids stay dense and
      injective, and every counted term has an id. */
  lemma AddDocumentValid(bd: Builder, doc: Document)
    requires Valid(bd) && Tokenizable(doc)
    ensures Valid(AddDocument(bd, doc))
  {
    AddDocumentCounts(bd, doc);
    CountedFieldsValid(bd, doc);
  }

  lemma CountedFieldsValid(bd: Builder, doc: Document)
    requires Valid(bd) && Tokenizable(doc)
    ensures Valid(AddFields(bd.(documentCount := bd.documentCount + 1), doc.docRef, doc.fields))
  {
    var counted := bd.(documentCount := bd.documentCount + 1);
    assert Valid(counted) by {
      assert counted.terms == bd.terms && counted.fieldLengths == bd.fieldLengths;
      assert counted.fieldTermFrequencies == bd.fieldTermFrequencies;
    }
    AddFieldsValid(counted, doc.docRef, doc.fields);
  }

  /** `after` holds everything `before` did, with the same ids, and every
      term of every field of `doc` is recorded for it under the field's
      name. No other membership is added. */
  ghost predicate RecordsDocument(before: Builder, after: Builder, doc: Document)
    requires Tokenizable(doc)
  {
    && KeepsIds(before.terms.invertedIndex, after.terms.invertedIndex)
    && Grows(before.terms.invertedIndex, after.terms.invertedIndex)
    && RecordsFields(after.terms.invertedIndex, doc.docRef, doc.fields)
    && (forall t, f, d ::
          Recorded(after.terms.invertedIndex, t, f, d)
          <==> Recorded(before.terms.invertedIndex, t, f, d) || (d == doc.docRef && InFields(doc.fields, f, t)))
  }

  /** `add_document` only adds memberships: the document is recorded under
      each of its terms and field names, nothing is removed, and nothing else
      is added. */
  lemma AddDocumentRecords(bd: Builder, doc: Document)
    requires Tokenizable(doc)
    ensures RecordsDocument(bd, AddDocument(bd, doc), doc)
  {
    AddDocumentCounts(bd, doc);
    CountedFieldsRecords(bd, doc);
  }

  lemma AddDocumentCounts(bd: Builder, doc: Document)
    requires Tokenizable(doc)
    ensures AddDocument(bd, doc) == AddFields(bd.(documentCount := bd.documentCount + 1), doc.docRef, doc.fields)
  {
  }

  lemma CountedFieldsRecords(bd: Builder, doc: Document)
    requires Tokenizable(doc)
    ensures RecordsDocument(bd, AddFields(bd.(documentCount := bd.documentCount + 1), doc.docRef, doc.fields), doc)
  {
    var counted := bd.(documentCount := bd.documentCount + 1);
    assert FieldsTokenizable(doc.fields);
    AddFieldsGrows(counted, doc.docRef, doc.fields);
    AddFieldsRecords(counted, doc.docRef, doc.fields);
  }

  // ---- lengths and frequencies -----------------------------------------------

  /** The counts of one field's terms add up to the number of terms. */
  lemma {:induction false} CountTermsSum(terms: seq<string>)
    ensures Sum(CountTerms(terms), CountTerms(terms).Keys) == |terms|
    decreases |terms|
  {
    if |terms| > 0 {
      var init, last := terms[..|terms| - 1], terms[|terms| - 1];
      assert terms == init + [last];
      var m, m' := CountTerms(init), CountTerms(terms);
      CountTermsSum(init);
      if last in m {
        assert m'.Keys == m.Keys;
        SumIncrement(m, m', m.Keys, last);
      } else {
        assert m'.Keys == m.Keys + {last};
        SumCongruent(m, m', m.Keys);
        SumAdd(m', m.Keys, last);
      }
    }
  }

  /** The first time a field reference is seen, its frequencies add up to
      its length. */
  lemma FrequenciesMatchLength(bd: Builder, doc: string, name: string, terms: seq<string>)
    requires FieldRef(doc, name) !in bd.fieldLengths
    ensures var r, fr := RecordField(bd, doc, name, terms), FieldRef(doc, name);
      Sum(r.fieldTermFrequencies[fr], r.fieldTermFrequencies[fr].Keys) == r.fieldLengths[fr]
  {
    CountTermsSum(terms);
  }

  /** `w` is a single lower-case ASCII word: the tokenizer yields it
      unchanged as one token. */
  ghost predicate IsWord(w: string) {
    && Tokenizer.IsAscii(w) && 0 < |w|
    && forall i | 0 <= i < |w| :: !Tokenizer.IsSeparator(w[i]) && !Tokenizer.IsUpper(w[i])
  }

  /** A text field holding one word yields that word as its only term. */
  lemma WordTerms(name: string, w: string)
    requires IsWord(w)
    ensures Tokenizer.IsAscii(ValueString(Text(w)))
    ensures FieldTerms(Field(name, Text(w))) == [w]
  {
    Tokenizer.TokenizeWord(w);
  }

  /** The field loop over two fields records the first, then the second. */
  lemma AddTwoFields(bd: Builder, doc: string, f0: Field, f1: Field)
    requires Tokenizer.IsAscii(ValueString(f0.value)) && Tokenizer.IsAscii(ValueString(f1.value))
    ensures FieldsTokenizable([f0, f1])
    ensures AddFields(bd, doc, [f0, f1]) == RecordField(RecordField(bd, doc, f0.name, FieldTerms(f0)), doc, f1.name, FieldTerms(f1))
  {
    var b2 := RecordField(bd, doc, f0.name, FieldTerms(f0));
    AddFieldsCons(bd, doc, [f0, f1]);
    assert [f0, f1][1..] == [f1];
    AddOneField(b2, doc, f1);
  }

  /** The field loop records the first field, then loops over the rest. */
  lemma AddFieldsCons(bd: Builder, doc: string, fields: seq<Field>)
    requires FieldsTokenizable(fields) && 0 < |fields|
    ensures FieldsTokenizable(fields[1..])
    ensures AddFields(bd, doc, fields)
         == AddFields(RecordField(bd, doc, fields[0].name, FieldTerms(fields[0])), doc, fields[1..])
  {
    TailTokenizable(fields);
  }

  lemma AddOneField(bd: Builder, doc: string, f: Field)
    requires Tokenizer.IsAscii(ValueString(f.value))
    ensures FieldsTokenizable([f])
    ensures AddFields(bd, doc, [f]) == RecordField(bd, doc, f.name, FieldTerms(f))
  {
    AddFieldsCons(bd, doc, [f]);
    assert [f][1..] == [];
  }

  /** Adding a document of two one-word text fields records the two
      fields in order. */
  lemma AddTwoWords(bd: Builder, doc: string, n0: string, w0: string, n1: string, w1: string)
    requires IsWord(w0) && IsWord(w1)
    ensures Tokenizable(Document(doc, [Field(n0, Text(w0)), Field(n1, Text(w1))]))
    ensures AddDocument(bd, Document(doc, [Field(n0, Text(w0)), Field(n1, Text(w1))]))
         == RecordField(RecordField(bd.(documentCount := bd.documentCount + 1), doc, n0, [w0]), doc, n1, [w1])
  {
    var f0, f1 := Field(n0, Text(w0)), Field(n1, Text(w1));
    WordTerms(n0, w0);
    WordTerms(n1, w1);
    AddTwoFields(bd.(documentCount := bd.documentCount + 1), doc, f0, f1);
    AddDocumentCounts(bd, Document(doc, [f0, f1]));
  }

  /** Recording a field of one word: the length grows by one, the
      frequencies become that word once, and the word is recorded. */
  lemma RecordWord(bd: Builder, doc: string, name: string, w: string)
    ensures var r, fr := RecordField(bd, doc, name, [w]), FieldRef(doc, name);
      && r.fieldLengths == bd.fieldLengths[fr := Value(bd.fieldLengths, fr) + 1]
      && r.fieldTermFrequencies == bd.fieldTermFrequencies[fr := map[w := 1]]
      && r.terms == RecordTerm(bd.terms, name, doc, w)
  {
    assert [w][1..] == [] && [w][..0] == [];
    assert RecordTerms(bd.terms, name, doc, [w]) == RecordTerms(RecordTerm(bd.terms, name, doc, w), name, doc, []);
  }

  /** A document with two fields of the same name: the length counts the
      terms of both, the frequencies only those of the second, so the
      frequencies no longer add up to the length. */
  lemma RepeatedFieldName(bd: Builder, docRef: string, name: string, w0: string, w1: string)
    requires IsWord(w0) && IsWord(w1)
    requires FieldRef(docRef, name) !in bd.fieldLengths
    ensures var doc := Document(docRef, [Field(name, Text(w0)), Field(name, Text(w1))]);
      && Tokenizable(doc)
      && var r, fr := AddDocument(bd, doc), FieldRef(docRef, name);
      && fr in r.fieldLengths && r.fieldLengths[fr] == 2
      && fr in r.fieldTermFrequencies && r.fieldTermFrequencies[fr] == map[w1 := 1]
      && Sum(r.fieldTermFrequencies[fr], r.fieldTermFrequencies[fr].Keys) == 1
  {
    AddTwoWords(bd, docRef, name, w0, name, w1);
    RepeatedWords(bd.(documentCount := bd.documentCount + 1), docRef, name, w0, w1);
    SingleCount(w1);
  }

  /** The field loop of `RepeatedFieldName`: two one-word fields recorded
      under the same reference. */
  lemma RepeatedWords(bd: Builder, docRef: string, name: string, w0: string, w1: string)
    requires FieldRef(docRef, name) !in bd.fieldLengths
    ensures var r, fr := RecordField(RecordField(bd, docRef, name, [w0]), docRef, name, [w1]), FieldRef(docRef, name);
      && fr in r.fieldLengths && r.fieldLengths[fr] == 2
      && fr in r.fieldTermFrequencies && r.fieldTermFrequencies[fr] == map[w1 := 1]
  {
    var b2, fr := RecordField(bd, docRef, name, [w0]), FieldRef(docRef, name);
    assert b2.fieldLengths[fr] == 1;
    CountWord(w1);
  }

  lemma SingleCount(w: string)
    ensures Sum(map[w := 1], map[w := 1].Keys) == 1
  {
    var m := map[w := 1];
    SumAdd(m, {}, w);
    assert m.Keys == {} + {w};
  }

  /** A new word recorded in two differently named fields of one document:
      the word's documents are that document under both names. */
  lemma WordInTwoFields(bd: Builder, docRef: string, n0: string, n1: string, w: string)
    requires w !in bd.terms.invertedIndex && n0 != n1
    ensures var r := RecordField(RecordField(bd, docRef, n0, [w]), docRef, n1, [w]);
      && w in r.terms.invertedIndex
      && r.terms.invertedIndex[w].documents == map[n0 := {docRef}, n1 := {docRef}]
  {
    var b2 := RecordField(bd, docRef, n0, [w]);
    RecordWord(bd, docRef, n0, w);
    RecordWord(b2, docRef, n1, w);
    RecordTermDocuments(bd.terms, n0, docRef, w);
    assert DocumentsOf(bd.terms.invertedIndex, w, n0) + {docRef} == {docRef};
    assert b2.terms == RecordTerm(bd.terms, n0, docRef, w);
    assert b2.terms.invertedIndex[w].documents == map[n0 := {docRef}];
    RecordTermDocuments(b2.terms, n1, docRef, w);
    assert DocumentsOf(b2.terms.invertedIndex, w, n1) + {docRef} == {docRef};
  }

  /** Adding a document with one word in each of two differently named
      fields (the builder test adds "constructor" to "title" and "good" to
      "memo"): the first word is recorded for the document under the first
      name with frequency 1, the vocabulary grows by exactly the two words,
      and one more document is counted. */
  lemma AddScenario(bd: Builder, docRef: string, n0: string, w0: string, n1: string, w1: string)
    requires IsWord(w0) && IsWord(w1) && n0 != n1
    ensures var doc := Document(docRef, [Field(n0, Text(w0)), Field(n1, Text(w1))]);
      && Tokenizable(doc)
      && var r := AddDocument(bd, doc);
      && Recorded(r.terms.invertedIndex, w0, n0, docRef)
      && r.terms.invertedIndex.Keys == bd.terms.invertedIndex.Keys + {w0, w1}
      && FieldRef(docRef, n0) in r.fieldTermFrequencies
      && r.fieldTermFrequencies[FieldRef(docRef, n0)] == map[w0 := 1]
      && r.documentCount == bd.documentCount + 1
  {
    AddTwoWords(bd, docRef, n0, w0, n1, w1);
    TwoWords(bd.(documentCount := bd.documentCount + 1), docRef, n0, w0, n1, w1);
  }

  /** The field loop over the two one-word fields of `AddScenario`. */
  lemma TwoWords(bd: Builder, docRef: string, n0: string, w0: string, n1: string, w1: string)
    requires n0 != n1
    ensures var r := RecordField(RecordField(bd, docRef, n0, [w0]), docRef, n1, [w1]);
      && Recorded(r.terms.invertedIndex, w0, n0, docRef)
      && r.terms.invertedIndex.Keys == bd.terms.invertedIndex.Keys + {w0, w1}
      && FieldRef(docRef, n0) in r.fieldTermFrequencies
      && r.fieldTermFrequencies[FieldRef(docRef, n0)] == map[w0 := 1]
  {
    TwoFieldTerms(bd, docRef, n0, w0, n1, w1);
    TwoFrequencies(bd, docRef, n0, w0, n1, w1);
  }

  lemma TwoFieldTerms(bd: Builder, docRef: string, n0: string, w0: string, n1: string, w1: string)
    ensures RecordField(RecordField(bd, docRef, n0, [w0]), docRef, n1, [w1]).terms
         == RecordTerm(RecordTerm(bd.terms, n0, docRef, w0), n1, docRef, w1)
    ensures var r := RecordTerm(RecordTerm(bd.terms, n0, docRef, w0), n1, docRef, w1);
      && Recorded(r.invertedIndex, w0, n0, docRef)
      && r.invertedIndex.Keys == bd.terms.invertedIndex.Keys + {w0, w1}
  {
    RecordWord(bd, docRef, n0, w0);
    RecordWord(RecordField(bd, docRef, n0, [w0]), docRef, n1, w1);
    TwoTerms(bd.terms, docRef, n0, w0, n1, w1);
  }

  /** The frequency side of `TwoWords`: the second field, under another
      name, leaves the first field's counts alone. */
  lemma TwoFrequencies(bd: Builder, docRef: string, n0: string, w0: string, n1: string, w1: string)
    requires n0 != n1
    ensures var r := RecordField(RecordField(bd, docRef, n0, [w0]), docRef, n1, [w1]);
      && FieldRef(docRef, n0) in r.fieldTermFrequencies
      && r.fieldTermFrequencies[FieldRef(docRef, n0)] == map[w0 := 1]
  {
    var b2 := RecordField(bd, docRef, n0, [w0]);
    var fr0, fr1 := FieldRef(docRef, n0), FieldRef(docRef, n1);
    CountWord(w0);
    assert b2.fieldTermFrequencies[fr0] == map[w0 := 1];
    assert fr0 != fr1;
  }

  lemma CountWord(w: string)
    ensures CountTerms([w]) == map[w := 1]
  {
    assert [w][..0] == [];
  }

  /** The inverted index side of `TwoWords`. */
  lemma TwoTerms(ts: Terms, docRef: string, n0: string, w0: string, n1: string, w1: string)
    ensures var r := RecordTerm(RecordTerm(ts, n0, docRef, w0), n1, docRef, w1);
      && Recorded(r.invertedIndex, w0, n0, docRef)
      && r.invertedIndex.Keys == ts.invertedIndex.Keys + {w0, w1}
  {
    var t2 := RecordTerm(ts, n0, docRef, w0);
    RecordTermExact(t2, n1, docRef, w1);
  }
}
