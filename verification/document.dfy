/** A document as the index builder consumes it: a reference and a sequence
    of named field values, in the order they were added. */
module Documents {
  import opened Fields
  import Tokenizer

  datatype Document = Document(docRef: string, fields: seq<Field>)

  /** The tokenizer handles one-byte characters only, so every field must
      render as ASCII text. */
  predicate Tokenizable(doc: Document) {
    FieldsTokenizable(doc.fields)
  }

  /** Every field value renders as ASCII text. */
  predicate FieldsTokenizable(fields: seq<Field>) {
    forall k | 0 <= k < |fields| :: Tokenizer.IsAscii(ValueString(fields[k].value))
  }

  /** Numbers always render as ASCII: only text fields can violate
      `Tokenizable`. */
  lemma NumbersAreAscii(v: FieldValue)
    requires !v.Text?
    ensures Tokenizer.IsAscii(ValueString(v))
  {
    var s := ValueString(v);
    if v.U64? {
      assert forall i | 0 <= i < |s| :: IsDigit(s[i]);
    } else {
      assert s == SignedDecimal(v.i);
      if v.i < 0 {
        assert forall i | 1 <= i < |s| :: IsDigit(s[i]) by {
          forall i | 1 <= i < |s|
            ensures IsDigit(s[i])
          {
            assert s[i] == s[1..][i - 1];
          }
        }
      }
    }
  }
}
