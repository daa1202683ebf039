# sagume core, modelled in Dafny

sagume is a small full-text search library in the style of lunr. An index
`Builder` collects documents field by field. For each field value it
tokenizes the text and records three things:
- every term in an inverted index, under the field name and the document
  reference;
- the field's term frequencies;
- the field's length.

`build` turns these statistics into the parts of an `Index`:
- one sparse BM25 vector per field of each document;
- the sorted vocabulary that seeds the term automaton;
- the inverted index and field names, copied.

Queries are made of `Clause`s. This project models that core as immutable
datatypes and pure step functions, and proves what each step promises.

| module | file | models |
|---|---|---|
| `Results` | results.dfy | `Option` and `Result` |
| `Integers` | integers.dfy | the `u64` and `i64` ranges |
| `Tokens`, `Pipeline` | token.dfy | the `Token` record; the pipeline, whose `run` returns its input |
| `Tokenizer` | tokenizer.dfy | `Tokenizer::tokenize`: end-trimming, lower-casing, maximal runs free of whitespace and `-` |
| `Fields` | field.dfy | `FieldValue::to_string`, `FieldRef::from_string` and `FieldRef::to_str` |
| `Queries` | query.dfy | `Clause` defaults and setters, `Query::add_clause`, `Query::is_negated` |
| `Documents` | document.dfy | a document as a reference plus a sequence of named field values |
| `Vectors` | vector.dfy | the sparse `Vector`: `new`, `from`, `insert`, `upsert`, `magnitude`, `dot`, `similarity` |
| `Ordering` | ordering.dfy | the string order of `Vec<String>::sort`, and sorting a set of terms |
| `SetSums` | setsums.dfy | sums over hash-map keys visited in no particular order |
| `IndexBuilder` | builder.dfy | the `Builder` state and `new`, `add_field`, `b`, `k1`, `add_document` |
| `IndexBuild` | build.dfy | `build`: average field lengths, `idf`, `create_field_vectors`, `create_token_set` |

## How the model is built

Floating-point numbers are `real`. The functions the model cannot compute
are passed in as parameters:
- the natural logarithm `ln`;
- the square root `sqrt`, constrained by `Vectors.IsSqrt`;
- the BM25 formula with its rounding to three decimals, as
  `score: ScoreInputs -> real`.

The proofs therefore hold for every choice of these functions. A Rust
panic becomes an `Err` value:
- the duplicate-index assertion of `Vector::insert`;
- the out-of-bounds read in `dot`;
- the `usize` underflow in `idf`.

Hash-map loops pick their next key with `:|`, so each property is proved
for every visiting order.

The builder's state invariant is `IndexBuilder.Valid`. It says:
- the key sets of the field-length map and the frequency map are equal;
- term ids are exactly `1..termIndex`, one per term (`DenseIds`);
- every counted term is in the inverted index with a count of at least 1;
- a field of length zero has an empty frequency map.

`New` establishes `Valid`, and `AddDocument` preserves it. Under `Valid`,
every `unwrap` in `create_field_vectors` succeeds. What can still fail is
`idf`: `Build` returns `Err` exactly when some term of some frequency map has
a document count above the number of documents (`IndexBuild.BuildOvercounted`).
Otherwise it returns the index built with those same weights.

Two behaviours of the code are worth knowing:
- `add_document` replaces a field reference's term frequencies for each field
  instance with that reference (src/builder.rs:84), while the field length
  accumulates across those instances (src/builder.rs:54-57).
  `IndexBuilder.RepeatedFieldName` shows the effect: a field length of 2
  against frequencies that sum to 1.
- `Vector::upsert` inserts a second element at an index already present.
  It does not merge the values.

## Model

| member | source | states |
|---|---|---|
| Tokenizer.Normalize | src/tokenizer.rs:11 | The scanned text is the source with its trailing whitespace dropped and lower-cased character by character: no longer than the source, free of capitals, not ending in whitespace, and ASCII whenever the source is. |
| Tokenizer.TrimEnd | src/tokenizer.rs:11 | The result is a prefix of the input that does not end in whitespace, and everything it drops is whitespace. |
| Tokenizer.Scan | src/tokenizer.rs:17-30 | Started from any state that satisfies the loop invariant of the `end` loop, the scan finishes with a complete tokenization of the text. |
| Tokenizer.Tokenize | src/tokenizer.rs:10-32 | On ASCII input, the tokens are the maximal runs free of whitespace and `-` of the end-trimmed, lower-cased text, in order. Token k has index k, its start is the offset of its first character, and only separators lie outside the runs. |
| Tokenizer.RunStartsText | src/tokenizer.rs:18-22 | In any tokenization, token k starts at or after the end of token k-1, inside the text, on a character that is not a separator. |
| Tokenizer.TokenizationUnique | src/tokenizer.rs:17-30 | A text has at most one tokenization, so `Tokenize` is the sequence of maximal runs and not merely some sequence with these properties. |
| Tokenizer.StartsIncrease | src/tokenizer.rs:20-28 | Tokens do not overlap, and their start offsets strictly increase. |
| Tokenizer.TokensAreLowercase | src/tokenizer.rs:11 | No character of any token is an upper-case letter. |
| Tokenizer.NoTokensIffOnlySeparators | src/tokenizer.rs:17-29 | There are no tokens if and only if the normalised text consists only of whitespace and `-`. This includes the empty text. |
| Tokenizer.TokenizeWord | src/tokenizer.rs:10-32 | A non-empty lower-case word without separators becomes exactly one token: index 0, start 0, value the word. |
| Tokenizer.TokenizeFooBar | tests/tokenizer_test.rs:35-41 | "foo bar" gives tokens (0, 0, "foo") and (1, 4, "bar"). |
| Tokenizer.HyphenTextNormalized | tests/tokenizer_test.rs:15-19 | Normalising "Foo--bar-BAZ" lower-cases it to "foo--bar-baz". |
| Tokenizer.HyphenTextRuns | tests/tokenizer_test.rs:27-31 | The runs of "foo--bar-baz" start at offsets 0, 5 and 9. |
| Tokenizer.TokenizeHyphens | tests/tokenizer_test.rs:27-31 | "Foo--bar-BAZ" gives the values "foo", "bar", "baz": runs of hyphens separate, and case is folded. |
| Tokens.Values | tests/tokenizer_test.rs:11 | The value list has one entry per token, in order. |
| Pipeline.Run | src/pipeline.rs:23-25 | Returns the tokens it is given, unchanged and in order: no registered transform is applied. |
| Fields.Decimal | src/field.rs:11 | An unsigned number renders as a non-empty string of digits, with no leading zero unless the number is 0. |
| Fields.DecimalRoundTrip | src/field.rs:11 | Reading back the decimal rendering of an unsigned number gives the number. |
| Fields.DecimalInjective | src/field.rs:11 | Different numbers render as different strings. |
| Fields.SignedDecimal | src/field.rs:12 | A signed number starts with '-' exactly when it is negative, and the rest is the decimal rendering of its magnitude. |
| Fields.SignedDecimalRoundTrip | src/field.rs:12 | Reading back the rendering of a signed number gives the number. |
| Fields.ValueString | src/field.rs:8-16 | Text renders as itself. `U64` renders as digits whose value is the number. `I64` renders as digits, prefixed with '-' when negative, whose signed value is the number. |
| Fields.ValueStringForgetsVariant | src/field.rs:8-16 | `U64(7)`, `I64(7)` and `Text("7")` all render as "7": the tokenizer cannot tell the variants apart. |
| Fields.FirstJoiner | src/field.rs:82 | Finds the position of the first '/', and finds none exactly when the string has no '/'. |
| Fields.FromString | src/field.rs:81-90 | Parsing fails exactly when there is no '/'. On success, the field name is the part before the first '/' and contains none, and the document reference is everything after it. |
| Fields.ToStr | src/field.rs:92-94 | The result is the field name, a '/', then the document reference. |
| Fields.SplitAtFirstJoiner | src/field.rs:82-89 | Splitting `name + "/" + doc` at its first '/' recovers the name and the document reference when the name has no '/'. |
| Fields.FromStringToStr | src/field.rs:81-94 | `from_string(to_str(r)) == Ok(r)` if and only if the field name of r has no '/'. |
| Fields.ToStrFromString | src/field.rs:81-94 | Whenever parsing succeeds, serialising the result gives back the original string. |
| Fields.JoinerInFieldName | src/builder.rs:220 | The reference to document "1" under field "author/age", a field name the builder accepts, does not survive serialisation: it parses back with field name "author" and document reference "age/1". |
| Documents.NumbersAreAscii | src/field.rs:8-16 | Numeric field values always render as ASCII, so only text values can fall outside the tokenizer's input domain. |
| Queries.NewClause | src/query.rs:26-35 | A new clause has the given term, no fields, boost 1, the pipeline on, no wildcard and presence `Optional`. |
| Queries.SetFields | src/query.rs:61-63 | Sets the fields to the given list and changes nothing else. |
| Queries.SetBoost | src/query.rs:65-67 | Sets the boost and changes nothing else. |
| Queries.SetUsePipeline | src/query.rs:69-71 | Sets the pipeline flag and changes nothing else. |
| Queries.SetWildcard | src/query.rs:73-75 | Sets the wildcard mode and changes nothing else. |
| Queries.SetPresence | src/query.rs:77-79 | Sets the presence and changes nothing else. |
| Queries.SettersOverwrite | src/query.rs:65-79 | Setting twice keeps only the last value, and setting the current value changes nothing. |
| Queries.SettersCommute | src/query.rs:65-79 | Setters of different fields can be applied in either order. |
| Queries.NewQuery | src/query.rs:87-91 | A new query has no clauses. |
| Queries.AddClause | src/query.rs:93-95 | Adding a clause appends it: the length grows by one, the last clause is the argument, and earlier clauses are unchanged. |
| Queries.AddClauses | src/query.rs:93-95 | Adding clauses one by one appends them in order. |
| Queries.AllProhibited | src/query.rs:97-101 | Holds exactly when every clause in the list is `Prohibited`. |
| Queries.IsNegated | src/query.rs:97-101 | A query is negated if and only if every clause is `Prohibited`, so an empty query is negated. |
| Queries.IsNegatedAddClause | src/query.rs:93-101 | After adding a clause, the query is negated exactly when it was negated before and the new clause is `Prohibited`. |
| Queries.NegationIsLost | src/query.rs:93-101 | Once a query is not negated, no sequence of added clauses makes it negated again. |
| Queries.NegatedScenario | tests/query_test.rs:17-41 | Two prohibited clauses give a negated query. Adding a prohibited and a required clause makes it not negated, and it stays so after an optional and a required clause. |
| Vectors.Empty | src/vector.rs:12-16 | The new vector has no elements and is strictly ascending. |
| Vectors.From | src/vector.rs:17-23 | Element k has index k and the k-th value, so the result is strictly ascending and as long as the input. |
| Vectors.Position | src/vector.rs:56 | The position found is the first element whose index is at least the new index: every element before it has a smaller index. |
| Vectors.Splice | src/vector.rs:59 | Inserting at a position adds exactly the new element to the multiset of elements. |
| Vectors.Insert | src/vector.rs:55-63 | On an ascending vector, insert fails if and only if the index is already present. On success, the elements are the old ones plus the new one, the length grows by one, and strict ascent is preserved. |
| Vectors.Upsert | src/vector.rs:65-71 | Never fails. The new element is placed at the first position whose index is at least the new index, or at the end, with everything else kept in order. So the elements are the old ones plus the new one, the length grows by one, and ascent is preserved. |
| Vectors.UpsertDuplicateGoesFirst | src/vector.rs:65-71 | At an index already present, the new element goes just before the existing one, which is kept: values are not merged. |
| Vectors.AscendingUnique | src/vector.rs:55-63 | Two strictly ascending vectors with the same elements are equal, so the order of insertions does not matter. |
| Vectors.SumSquaresZero | src/vector.rs:25-30 | The sum of squares is not negative, and is zero exactly when every value is zero. |
| Vectors.Magnitude | src/vector.rs:25-31 | The magnitude is the non-negative number whose square is the sum of squared values. It is zero exactly when all values are zero, in particular for the empty vector. |
| Vectors.Dot | src/vector.rs:33-53 | The merge-join over two strictly ascending vectors returns the sum of products over the indices they share. |
| Vectors.PairSumCommutes | src/vector.rs:33-53 | The dot product is symmetric in its arguments. |
| Vectors.SameIndicesDot | src/vector.rs:33-53 | For vectors with the same index sequence, the dot product is the sum of position-wise products. |
| Vectors.SelfDot | src/vector.rs:33-53 | A vector's dot product with itself is the sum of its squared values. |
| Vectors.Similarity | src/vector.rs:73-80 | The result is 0 when the receiver's magnitude is 0. Otherwise it is the dot product divided by the receiver's magnitude only. It is 0 if either vector is empty, and a vector's similarity with itself is its magnitude. |
| Vectors.DotLoopAsWritten | src/vector.rs:39-50 | The loop as written can fail only when `other` is shorter than the receiver. |
| Vectors.DotAsWritten | src/vector.rs:33-53 | `dot` as written panics only when `other` has fewer elements than the receiver. |
| Vectors.DotLoopSameIndices | src/vector.rs:39-50 | When both vectors have the same index sequence, the loop as written adds exactly the position-wise products. |
| Vectors.DotAsWrittenSameIndices | tests/vector_test.rs:11-16 | For vectors with the same index sequence, `dot` as written returns the true dot product, which is what the test exercises. |
| Vectors.DotAsWrittenDisjointSingletons | tests/vector_test.rs:27-35 | For one-element vectors at different indices, `dot` as written returns 0, as the true dot product does. |
| Vectors.DotAsWrittenPanics | src/vector.rs:41 | `[(0,a),(1,b)]·[(5,c)]` reads position 1 of a one-element vector and panics. |
| Vectors.DotAsWrittenMissesMatch | src/vector.rs:41 | `[(0,1),(1,1)]·[(1,1),(2,1)]` returns 0, while the vectors share index 1 and their dot product is 1. |
| Vectors.SimilarityAsWritten | src/vector.rs:73-80 | `similarity` over `dot` as written, on any vectors: 0 when the receiver's magnitude is 0. It fails only when that magnitude is not 0 and `other` has fewer elements than the receiver. |
| Vectors.SimilarityAsWrittenSameIndices | src/vector.rs:73-80 | On strictly ascending vectors with the same index sequence, `similarity` as written succeeds and gives what `Vectors.Similarity` gives: 0 for a zero magnitude, otherwise the dot product over the receiver's magnitude. |
| Vectors.SimilarityAsWrittenPanics | src/vector.rs:73-80 | `[(0,1),(1,1)]` compared with `[(5,1)]` fails: the magnitude is not 0, so `dot` as written reads past the end of the shorter vector. |
| Ordering.LessIrreflexive | src/builder.rs:167 | No string sorts before itself. |
| Ordering.LessTransitive | src/builder.rs:167 | The string order is transitive. |
| Ordering.LessTotal | src/builder.rs:167 | Any two different strings are ordered one way or the other. |
| Ordering.InsertSorted | src/builder.rs:167 | Inserting a new string into a strictly sorted sequence keeps it strictly sorted, with exactly one more member. |
| Ordering.SortedUnique | src/builder.rs:162-167 | Two strictly sorted sequences with the same members are equal, so the sorted vocabulary does not depend on hash-map order. |
| Ordering.SortedKeys | src/builder.rs:162-167 | Collecting and sorting a set of strings yields each member exactly once, in strictly ascending order. |
| SetSums.SumRemove | src/builder.rs:108-117 | A sum over hash-map keys does not depend on the visiting order: any key can be taken out first. |
| IndexBuilder.New | src/builder.rs:24-37 | The builder starts with b = 0.75, k1 = 1.2, no fields, no terms, no statistics and counters at zero, and it satisfies the builder invariant. |
| IndexBuilder.AddField | src/builder.rs:39-41 | Adding a field only inserts its name into the field names. No statistic changes. |
| IndexBuilder.AddFieldIdempotent | src/builder.rs:39-41 | Adding the same field twice is the same as adding it once, and adding a known field changes nothing. |
| IndexBuilder.Clamp | src/builder.rs:89 | The result lies in [0, 1]. A value already in range is kept, a value below 0 becomes 0, and a value above 1 becomes 1. |
| IndexBuilder.SetB | src/builder.rs:88-90 | b is clamped to [0, 1]: in-range values are kept, values below 0 become 0, values above 1 become 1. Nothing else changes. |
| IndexBuilder.SetK1 | src/builder.rs:92-94 | k1 is stored unchanged, and nothing else changes. |
| IndexBuilder.RecordTerm | src/builder.rs:66-82 | A new term gets the next id and bumps the counter, while an existing term keeps its id. The document is added to the term's set for this field. Other terms and other fields are untouched, and no membership is lost. |
| IndexBuilder.RecordTermDocuments | src/builder.rs:76-81 | The term's field map afterwards is the old one with this field's document set extended by the document. |
| IndexBuilder.RecordTermExact | src/builder.rs:76-82 | Recording one term occurrence adds exactly one membership, the document under this term and field, and removes none. |
| IndexBuilder.RecordTermValid | src/builder.rs:66-82 | Recording a term keeps term ids dense and injective: exactly `1..termIndex`, one term each. |
| IndexBuilder.RecordTerms | src/builder.rs:60-83 | After a field's terms are recorded, the index holds exactly the old terms plus these, and no id changes. A (term, field, document) membership holds afterwards exactly when it held before or it is one of these terms under this field for this document. |
| IndexBuilder.RecordTermsValid | src/builder.rs:60-83 | Recording a whole field keeps term ids dense and injective. |
| IndexBuilder.FirstSeen | src/builder.rs:66-68 | The list of new terms holds each term of the field that was not yet known, once, and a term that occurs earlier in the field comes earlier in the list. |
| IndexBuilder.FirstSeenIds | src/builder.rs:66-75 | New terms get ids in order of first occurrence: the k-th new term gets the old counter plus k+1, and the counter grows by the number of new terms. |
| IndexBuilder.FieldTerms | src/builder.rs:49-51 | A field's terms are the tokens of its rendered value after the pipeline. Each is non-empty, holds no whitespace, `-` or capital, and there are none exactly when the normalised value consists only of separators. |
| IndexBuilder.CountTerms | src/builder.rs:59-64 | A field's frequency map has exactly the field's terms as keys, each mapped to its number of occurrences. |
| IndexBuilder.CountTermsSum | src/builder.rs:59-64 | The frequencies of a field add up to its number of terms. |
| IndexBuilder.RecordField | src/builder.rs:54-84 | A field instance adds its term count to the reference's length, replaces the reference's frequencies, and records its terms. |
| IndexBuilder.RecordFieldValid | src/builder.rs:54-84 | Recording one field instance preserves the builder invariant. |
| IndexBuilder.AddFields | src/builder.rs:48-85 | The field loop leaves field names, document count, b and k1 alone. A (term, field, document) membership holds afterwards exactly when it held before, or the document is this one and one of its fields with that name yields that term. |
| IndexBuilder.AddFieldsGrows | src/builder.rs:48-85 | The field loop keeps every term id and every recorded membership. |
| IndexBuilder.AddFieldsRecords | src/builder.rs:48-85 | After the field loop, the document is recorded under every term of every field, with that field's name. |
| IndexBuilder.AddFieldsLengthsGrow | src/builder.rs:54-57 | Field lengths only grow, and no reference loses its length. |
| IndexBuilder.AddFieldsLengths | src/builder.rs:54-57 | Every field of the document has a length for its reference afterwards. |
| IndexBuilder.AddFieldsValid | src/builder.rs:48-85 | The field loop preserves the builder invariant. |
| IndexBuilder.AddDocument | src/builder.rs:43-86 | Adding a document raises the document count by exactly one and leaves the field names, b and k1 unchanged. |
| IndexBuilder.AddDocumentValid | src/builder.rs:43-86 | Adding a document preserves the builder invariant: equal key sets for lengths and frequencies, and dense injective ids. |
| IndexBuilder.AddDocumentRecords | src/builder.rs:46-83 | Adding a document records it under every term of every field, keeps every term id, and removes no earlier membership. It adds no other membership: every new one is this document under a term of one of its fields, with that field's name. |
| IndexBuilder.FrequenciesMatchLength | src/builder.rs:54-64 | For a field reference seen for the first time, its frequencies add up to its length. |
| IndexBuilder.WordTerms | src/builder.rs:49-51 | A text field holding one lower-case word yields that word as its only term. |
| IndexBuilder.RepeatedFieldName | src/builder.rs:54-84 | A document with two fields under one name gets length 2 for the reference, but frequencies from the second field only, which add up to 1. |
| IndexBuilder.WordInTwoFields | src/builder.rs:76-82 | A new word recorded for one document under two field names is listed under both names, with that one document each. |
| IndexBuilder.AddScenario | src/builder.rs:185-213 | After adding a document with one word in each of two fields, the first word lists the document under its field. The index gains exactly the two words, the first field's frequencies are that word once, and the document count grows by one. |
| IndexBuild.TallyStep | src/builder.rs:108-117 | Visiting one more field reference adds one to its name's count and its length to its name's total, keeping the running counts exact for the references visited. |
| IndexBuild.AverageFieldLengths | src/builder.rs:105-123 | Each field name that has a reference gets an average. It is the sum of the lengths of that name's references divided by their number, which is at least 1, and no other name gets one. |
| IndexBuild.AveragePositive | src/builder.rs:145-150 | A field reference of positive length has a positive average for its name, so the BM25 denominator's length ratio is defined. |
| IndexBuild.CountDocumentsWithTerm | src/builder.rs:172-175 | The loop adds up the sizes of the term's document sets over all fields, so a document listed under two fields counts twice. |
| IndexBuild.CountedTwice | src/builder.rs:172-175 | One document listed under two field names counts as 2. |
| IndexBuild.IdfArgumentAtLeastOne | src/builder.rs:176-178 | With a signed difference, the argument of the logarithm is at least 1 for any counts, so the idf is defined and not negative. |
| IndexBuild.Idf | src/builder.rs:171-179 | The corrected idf, with a signed difference. Whenever the logarithm does not decrease, the idf is at least `ln(1)`, that is not negative. |
| IndexBuild.IdfDecreasing | src/builder.rs:171-179 | With a non-decreasing logarithm and counts up to the number of documents, a term held by more documents never gets a larger idf. |
| IndexBuild.IdfAsWritten | src/builder.rs:171-179 | `idf` as written fails if and only if the term's document count exceeds the number of documents. Otherwise it agrees with the corrected idf. |
| IndexBuild.IdfUnderflow | src/builder.rs:171-177 | One document holding a word in two differently named fields leaves a valid builder with 1 document but a count of 2 for the word, so `idf` as written underflows. |
| IndexBuild.ValidIsScorable | src/builder.rs:129-141 | Under the builder invariant, every `unwrap` in `create_field_vectors` succeeds for every frequency key. |
| IndexBuild.InputsArePositive | src/builder.rs:137-150 | Every weight is computed from well-defined inputs. The term frequency and field length are at least 1, the average length is positive, and the logarithm's argument is at least 1. |
| IndexBuild.FieldIdsInjective | src/builder.rs:138 | The terms of one field have pairwise different ids. |
| IndexBuild.FreshId | src/builder.rs:154 | The id of a term not yet inserted is not an index of the partial vector, so the duplicate assertion of `insert` never fires. |
| IndexBuild.InsertStep | src/builder.rs:136-155 | Inserting the next term at its id with its weight succeeds and extends the partial vector by exactly that term. |
| IndexBuild.InsertTerm | src/builder.rs:137-154 | Scoring one term fails exactly when `idf` underflows for it, that is when its document count exceeds the number of documents. Otherwise inserting it extends the field's partial vector by that term. |
| IndexBuild.CreateFieldVector | src/builder.rs:129-156 | Fails exactly when some term of the field has a document count above the number of documents. Otherwise the field's vector holds one element per term of the field, at the term's id with its weight, strictly ascending by id. |
| IndexBuild.FieldVectorUnique | src/builder.rs:133-155 | A field has only one such vector, so the term visiting order does not change it. |
| IndexBuild.FieldVectorsStep | src/builder.rs:156 | Storing one more correct field vector keeps every stored vector correct. |
| IndexBuild.CreateFieldVectors | src/builder.rs:125-159 | Fails exactly when some field's terms include one whose document count exceeds the number of documents. Otherwise there is exactly one vector per key of the frequency map, and each is that field's vector. |
| IndexBuild.FieldVectorsUnique | src/builder.rs:129-157 | Two maps with the same keys, each holding the correct vector for every key, are equal, so the field visiting order does not change the result. |
| IndexBuild.CreateTokenSet | src/builder.rs:161-169 | The vocabulary is exactly the key set of the inverted index, strictly sorted, without duplicates. |
| IndexBuild.Build | src/builder.rs:96-103 | Fails exactly when `idf` underflows for some term of some frequency map. Otherwise the index copies the inverted index and field names, holds one correct vector per field reference, and holds the strictly sorted vocabulary of all terms. |
| IndexBuild.UnderflowingBuild | src/builder.rs:96-103 | One document with one word in two differently named fields leaves a valid builder on which `build` fails. |

## Left out

- The term automaton `TokenSet` (`from_array`) and `Index::query`: their source is not part of this model. The vocabulary is handed over as the sorted sequence `Build` computes.
- Floating-point rounding. `f64` arithmetic is exact `real` arithmetic. The logarithm, the square root and the BM25 formula with its rounding to three decimals are parameters, so no property depends on their values.
- `IndexBuilder.SetB`: NaN is not modelled. `f64::max` and `f64::min` on NaN yield a bound, while a `real` is never NaN.
- `Vectors.Magnitude`: `sqrt` is an exact square root (`IsSqrt`), not the rounded `f64` one.
- The `println!` in `Vector::insert`: output only.
- `src/document.rs`: a stale revision whose API does not match how the builder uses documents. A document is modelled as its reference plus its named field values, in order.
- `src/index.rs`, `src/bin/main.rs`, `src/field_type.rs` and `src/lib.rs`: stubs, a command-line driver, commented-out code and module declarations.
- Pipeline transforms: registered closures are never applied, so `Pipeline.Run` returns its input.
- `Tokenizer.Tokenize`: requires ASCII input. The source mixes a byte length with character indexing, so a text that is still not ASCII after end-trimming and lower-casing makes it panic. Some non-ASCII texts become ASCII there, such as "foo" followed by a NO-BREAK SPACE, which is trimmed, or the KELVIN SIGN, which lower-cases to "k". They do not panic in the source, but the model excludes them too. `IndexBuilder.AddDocument` therefore requires every field value to render as ASCII (`Documents.Tokenizable`).
- `Vectors.Similarity`: uses the corrected `Dot` and requires both vectors to be strictly ascending. The source's `similarity` uses `dot` as written, which can panic or miss shared indices, and it accepts the repeated indices `upsert` can create. `Vectors.SimilarityAsWritten` models the source on any vectors, and `Vectors.SimilarityAsWrittenSameIndices` shows that the two agree on vectors with the same index sequence.
- `IndexBuild.IdfAsWritten`: the `usize` subtraction is modelled as it behaves with overflow checks on, as in debug and test builds, where it panics. A release build without overflow checks wraps it instead and computes a huge idf. `IndexBuild.Build` follows the checked behaviour and returns `Err`.
- Integer overflow of `term_index` (`u64`), `document_count` and the field lengths (`usize`): counters are unbounded naturals, since wrapping would take 2^64 terms or documents.
- Getters and constructors (`FieldRef::new` and its accessors, `Field::new_text` and friends, the `Clause` getters, `Tokenizer::new`): these are datatype constructors and destructors. Equality of field references is structural datatype equality.
- Hash-map iteration order: each loop picks an arbitrary next key. `Ordering.SortedUnique`, `Vectors.AscendingUnique`, `IndexBuild.FieldVectorUnique` and `SetSums.SumRemove` show that the results do not depend on it.

## Findings

| source | as written | input that shows it | evidently intended | confidence | as-written member | corrected member |
|---|---|---|---|---|---|---|
| src/builder.rs:176-177 | `doc_count - documents_with_term` is a `usize` subtraction. `documents_with_term` counts a document once per field that holds the term, so it can exceed `doc_count`, and the subtraction panics. | one document with the same word in two differently named fields: count 2 against 1 document, so `build` fails (`IndexBuild.UnderflowingBuild`) | a signed difference; the `.abs()` on line 178 expects a negative numerator | not executed | IndexBuild.IdfAsWritten | IndexBuild.Idf |
| src/vector.rs:41 | `bidx` is read from `other.elements[i]` instead of `other.elements[j]` | `[(0,a),(1,b)]·[(5,c)]` panics out of bounds; `[(0,1),(1,1)]·[(1,1),(2,1)]` returns 0 instead of 1 | the merge-join reads `other.elements[j]` | not executed | Vectors.DotAsWritten | Vectors.Dot |
