/** The token record handed from the tokenizer to the analysis pipeline. */
module Tokens {

  /** One token: its ordinal in the tokenizer's output, the offset of its first
      character in the normalised text, and its characters. */
  datatype Token = Token(index: nat, start: nat, value: string)

  /** The offset just past the token's last character. */
  function End(t: Token): nat {
    t.start + |t.value|
  }

  /** The characters of each token, in order. */
  function Values(ts: seq<Token>): (vs: seq<string>)
    ensures |vs| == |ts|
    ensures forall k | 0 <= k < |ts| :: vs[k] == ts[k].value
  {
    seq(|ts|, k requires 0 <= k < |ts| => ts[k].value)
  }
}

/** The analysis pipeline. Registered transforms are never applied: running
    the pipeline returns its input. */
module Pipeline {
  import opened Tokens

  function Run(tokens: seq<Token>): (r: seq<Token>)
    ensures r == tokens
  {
    tokens
  }
}
