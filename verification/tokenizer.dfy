/** The whitespace-and-hyphen tokenizer.

    The text is first trimmed of trailing whitespace and lower-cased; it is then
    cut into maximal runs of characters that are neither whitespace nor `-`.
    Each run becomes a token carrying its ordinal and its start offset. */
module Tokenizer {
  import opened Tokens

  /** The source slices the lower-cased text by byte offsets while indexing it
      by characters; the two agree only on one-byte (ASCII) characters. */
  predicate IsAscii(s: string) {
    forall i | 0 <= i < |s| :: s[i] as int < 128
  }

  /** Rust's `char::is_whitespace` restricted to ASCII: tab, line feed,
      vertical tab, form feed, carriage return and space. */
  predicate IsWhitespace(c: char) {
    c == ' ' || '\t' <= c <= '\r'
  }

  /** The characters that end a token. */
  predicate IsSeparator(c: char) {
    IsWhitespace(c) || c == '-'
  }

  predicate IsUpper(c: char) {
    'A' <= c <= 'Z'
  }

  /** `str::trim_end`: drop trailing whitespace. */
  function TrimEnd(s: string): (r: string)
    ensures |r| <= |s| && r == s[..|r|]
    ensures |r| == 0 || !IsWhitespace(r[|r| - 1])
    ensures forall i | |r| <= i < |s| :: IsWhitespace(s[i])
  {
    if |s| > 0 && IsWhitespace(s[|s| - 1]) then TrimEnd(s[..|s| - 1]) else s
  }

  /** `char::to_lowercase` on ASCII. */
  function LowerChar(c: char): char {
    if IsUpper(c) then (c as int + 32) as char else c
  }

  /** `str::to_lowercase` on ASCII. */
  function Lower(s: string): string {
    seq(|s|, i requires 0 <= i < |s| => LowerChar(s[i]))
  }

  /** The text the tokenizer actually scans. */
  function Normalize(source: string): (r: string)
    ensures |r| <= |source|
    ensures forall i | 0 <= i < |r| :: r[i] == LowerChar(source[i]) && !IsUpper(r[i])
    ensures |r| == 0 || !IsWhitespace(r[|r| - 1])
    ensures forall i | |r| <= i < |source| :: IsWhitespace(source[i])
    ensures IsAscii(source) ==> IsAscii(r)
  {
    Lower(TrimEnd(source))
  }

  /** `t` is a maximal run of non-separator characters of `text`: non-empty,
      spelled exactly as the text at its offset, free of separators, and
      bounded on both sides by a separator or an end of the text. */
  ghost predicate IsRun(text: string, t: Token) {
    && 0 < |t.value|
    && End(t) <= |text|
    && text[t.start..End(t)] == t.value
    && (forall i | 0 <= i < |t.value| :: !IsSeparator(t.value[i]))
    && (t.start == 0 || IsSeparator(text[t.start - 1]))
    && (End(t) == |text| || IsSeparator(text[End(t)]))
  }

  /** Where the scan stands after the first `k` tokens. */
  function Reached(ts: seq<Token>, k: nat): nat
    requires k <= |ts|
  {
    if k == 0 then 0 else End(ts[k - 1])
  }

  ghost predicate AllSeparators(text: string, lo: nat, hi: nat)
    requires lo <= hi <= |text|
  {
    forall i | lo <= i < hi :: IsSeparator(text[i])
  }

  /** Token `k` of `ts` is the next maximal run after token `k - 1`: only
      separators lie between them, and its ordinal is `k`. */
  ghost predicate NextRun(text: string, ts: seq<Token>, k: nat)
    requires k < |ts|
  {
    && ts[k].index == k
    && IsRun(text, ts[k])
    && Reached(ts, k) <= ts[k].start
    && AllSeparators(text, Reached(ts, k), ts[k].start)
  }

  /** `ts` is the tokenization of `text`: its maximal runs, in order, each
      numbered by its position, with nothing but separators left over. */
  ghost predicate Tokenization(text: string, ts: seq<Token>) {
    && (forall k | 0 <= k < |ts| :: NextRun(text, ts, k))
    && Reached(ts, |ts|) <= |text|
    && AllSeparators(text, Reached(ts, |ts|), |text|)
  }

  /** The state of the scanning loop: tokens found so far, the start of the
      current run, and the position being examined. */
  ghost predicate ScanState(text: string, acc: seq<Token>, start: nat, end: nat) {
    && start <= end <= |text|
    && (forall k | 0 <= k < |acc| :: NextRun(text, acc, k))
    && Reached(acc, |acc|) <= start
    && AllSeparators(text, Reached(acc, |acc|), start)
    && (start == 0 || IsSeparator(text[start - 1]))
    && (forall i | start <= i < end :: !IsSeparator(text[i]))
  }

  /** The `for end in 0..len + 1` loop of `tokenize`, one iteration per call. */
  function Scan(text: string, end: nat, start: nat, acc: seq<Token>): (r: seq<Token>)
    requires ScanState(text, acc, start, end)
    ensures Tokenization(text, r)
    decreases |text| - end
  {
    if end == |text| || IsSeparator(text[end]) then
      var acc' := if end - start > 0 then acc + [Token(|acc|, start, text[start..end])] else acc;
      assert forall k | 0 <= k < |acc'| :: NextRun(text, acc', k) by {
        forall k | 0 <= k < |acc'|
          ensures NextRun(text, acc', k)
        {
          if k < |acc| {
            assert acc'[k] == acc[k] && Reached(acc', k) == Reached(acc, k);
            assert NextRun(text, acc, k);
          } else {
            assert acc'[k] == Token(|acc|, start, text[start..end]);
            assert Reached(acc', k) == Reached(acc, |acc|);
          }
        }
      }
      assert Reached(acc', |acc'|) <= end;
      if end == |text| then
        acc'
      else
        Scan(text, end + 1, end + 1, acc')
    else
      Scan(text, end + 1, start, acc)
  }

  /** `Tokenizer::tokenize`. */
  function Tokenize(source: string): (r: seq<Token>)
    requires IsAscii(source)
    ensures Tokenization(Normalize(source), r)
  {
    Scan(Normalize(source), 0, 0, [])
  }

  /** Every token starts on a non-separator character of the text. */
  lemma RunStartsText(text: string, ts: seq<Token>, k: nat)
    requires Tokenization(text, ts) && k < |ts|
    ensures Reached(ts, k) <= ts[k].start < |text| && !IsSeparator(text[ts[k].start])
  {
    assert NextRun(text, ts, k);
    assert text[ts[k].start..End(ts[k])][0] == text[ts[k].start];
  }

  /** Two tokenizations of one text agree at position `k` once they agree on
      where the scan stands. */
  lemma SameRun(text: string, a: seq<Token>, b: seq<Token>, k: nat)
    requires Tokenization(text, a) && Tokenization(text, b)
    requires k < |a| && k < |b|
    requires Reached(a, k) == Reached(b, k)
    ensures a[k] == b[k]
  {
    assert NextRun(text, a, k) && NextRun(text, b, k);
    var x, y := a[k], b[k];
    assert text[x.start] == x.value[0] by { assert text[x.start..End(x)][0] == text[x.start]; }
    assert text[y.start] == y.value[0] by { assert text[y.start..End(y)][0] == text[y.start]; }
    if x.start != y.start {
      assert false;
    }
    if End(x) != End(y) {
      assert false;
    }
  }

  /** A text has exactly one tokenization: the output of `tokenize` is the
      sequence of maximal separator-free runs and nothing else. */
  lemma TokenizationUnique(text: string, a: seq<Token>, b: seq<Token>)
    requires Tokenization(text, a) && Tokenization(text, b)
    ensures a == b
  {
    var k := 0;
    while k < |a| && k < |b|
      invariant k <= |a| && k <= |b|
      invariant a[..k] == b[..k]
      invariant Reached(a, k) == Reached(b, k)
    {
      SameRun(text, a, b, k);
      assert a[..k + 1] == a[..k] + [a[k]] && b[..k + 1] == b[..k] + [b[k]];
      k := k + 1;
    }
    if k < |b| {
      RunStartsText(text, b, k);
      assert false;
    } else if k < |a| {
      RunStartsText(text, a, k);
      assert false;
    }
    assert a == a[..k] && b == b[..k];
  }

  /** Token start offsets strictly increase, and tokens do not overlap. */
  lemma {:induction false} StartsIncrease(text: string, ts: seq<Token>, k: nat, l: nat)
    requires Tokenization(text, ts)
    requires k < l < |ts|
    ensures End(ts[k]) <= ts[l].start
    ensures ts[k].start < ts[l].start
    decreases l - k
  {
    assert NextRun(text, ts, k) && NextRun(text, ts, l);
    if k + 1 < l {
      StartsIncrease(text, ts, k + 1, l);
      assert NextRun(text, ts, k + 1);
    }
  }

  /** Every token is lower case. */
  lemma TokensAreLowercase(source: string, k: nat, i: nat)
    requires IsAscii(source)
    requires k < |Tokenize(source)| && i < |Tokenize(source)[k].value|
    ensures !IsUpper(Tokenize(source)[k].value[i])
  {
    var text, t := Normalize(source), Tokenize(source)[k];
    assert NextRun(text, Tokenize(source), k);
    assert t.value[i] == text[t.start + i] by {
      assert text[t.start..End(t)][i] == text[t.start + i];
    }
  }

  /** No tokens come out exactly when the normalised text holds nothing but
      separators; in particular for the empty text. */
  lemma NoTokensIffOnlySeparators(source: string)
    requires IsAscii(source)
    ensures Tokenize(source) == [] <==> AllSeparators(Normalize(source), 0, |Normalize(source)|)
  {
    var text, ts := Normalize(source), Tokenize(source);
    if ts != [] && AllSeparators(text, 0, |text|) {
      RunStartsText(text, ts, 0);
      assert false;
    }
  }

  /** Lower-casing leaves text without capitals unchanged. */
  lemma LowerIdentity(s: string)
    requires forall i | 0 <= i < |s| :: !IsUpper(s[i])
    ensures Lower(s) == s
  {
  }

  /** A single lower-case word without separators is one token. */
  lemma TokenizeWord(w: string)
    requires IsAscii(w) && 0 < |w|
    requires forall i | 0 <= i < |w| :: !IsSeparator(w[i]) && !IsUpper(w[i])
    ensures Tokenize(w) == [Token(0, 0, w)]
  {
    LowerIdentity(w);
    assert Normalize(w) == w;
    assert w[0..|w|] == w;
    assert Tokenization(w, [Token(0, 0, w)]);
    TokenizationUnique(w, Tokenize(w), [Token(0, 0, w)]);
  }

  /** Ordinals count tokens and offsets point into the text. */
  lemma TokenizeFooBar()
    ensures Tokenize("foo bar") == [Token(0, 0, "foo"), Token(1, 4, "bar")]
  {
    var text := "foo bar";
    LowerIdentity(text);
    assert Normalize(text) == text;
    FooBarRuns();
    TokenizationUnique(text, Tokenize(text), [Token(0, 0, "foo"), Token(1, 4, "bar")]);
  }

  lemma FooBarRuns()
    ensures Tokenization("foo bar", [Token(0, 0, "foo"), Token(1, 4, "bar")])
  {
    var text := "foo bar";
    var expected := [Token(0, 0, "foo"), Token(1, 4, "bar")];
    assert NextRun(text, expected, 0) by { assert text[0..3] == "foo"; }
    assert NextRun(text, expected, 1) by { assert text[4..7] == "bar"; }
  }

  lemma HyphenTextNormalized()
    ensures Normalize("Foo--bar-BAZ") == "foo--bar-baz"
  {
    var source, text := "Foo--bar-BAZ", "foo--bar-baz";
    assert TrimEnd(source) == source;
    assert forall i | 0 <= i < |text| :: LowerChar(source[i]) == text[i];
  }

  lemma HyphenTextRuns()
    ensures Tokenization("foo--bar-baz", [Token(0, 0, "foo"), Token(1, 5, "bar"), Token(2, 9, "baz")])
  {
    var text := "foo--bar-baz";
    var expected := [Token(0, 0, "foo"), Token(1, 5, "bar"), Token(2, 9, "baz")];
    assert NextRun(text, expected, 0) by { assert text[0..3] == "foo"; }
    assert NextRun(text, expected, 1) by { assert text[5..8] == "bar"; }
    assert NextRun(text, expected, 2) by { assert text[9..12] == "baz"; }
  }

  /** Runs of hyphens separate tokens like whitespace does, and capitals are
      lower-cased. */
  lemma TokenizeHyphens()
    ensures Values(Tokenize("Foo--bar-BAZ")) == ["foo", "bar", "baz"]
  {
    HyphenTextNormalized();
    HyphenTextRuns();
    TokenizationUnique("foo--bar-baz", Tokenize("Foo--bar-BAZ"),
      [Token(0, 0, "foo"), Token(1, 5, "bar"), Token(2, 9, "baz")]);
  }
}
