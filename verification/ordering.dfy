/** The order `Vec<String>::sort` puts terms in, and sorting a set of terms.

    Rust compares strings byte by byte in UTF-8, which orders them as their
    code points do; characters here are compared by code point. */
module Ordering {

  /** `a` sorts strictly before `b`: at the first position where they differ
      `a` has the smaller character, or `a` is a proper prefix of `b`. */
  predicate Less(a: string, b: string) {
    if |a| == 0 then 0 < |b|
    else if |b| == 0 then false
    else a[0] < b[0] || (a[0] == b[0] && Less(a[1..], b[1..]))
  }

  lemma {:induction false} LessIrreflexive(a: string)
    ensures !Less(a, a)
  {
    if |a| > 0 {
      LessIrreflexive(a[1..]);
    }
  }

  lemma {:induction false} LessTransitive(a: string, b: string, c: string)
    requires Less(a, b) && Less(b, c)
    ensures Less(a, c)
  {
    if |a| > 0 && a[0] == b[0] && b[0] == c[0] {
      LessTransitive(a[1..], b[1..], c[1..]);
    }
  }

  /** Any two different strings are ordered one way or the other. */
  lemma {:induction false} LessTotal(a: string, b: string)
    ensures a == b || Less(a, b) || Less(b, a)
  {
    if |a| > 0 && |b| > 0 && a[0] == b[0] {
      LessTotal(a[1..], b[1..]);
      if a[1..] == b[1..] {
        assert a == [a[0]] + a[1..] && b == [b[0]] + b[1..];
      }
    }
  }

  ghost predicate StrictlySorted(s: seq<string>) {
    forall i, j | 0 <= i < j < |s| :: Less(s[i], s[j])
  }

  /** `x` placed into a strictly sorted sequence that lacks it. */
  function InsertSorted(s: seq<string>, x: string): (r: seq<string>)
    requires StrictlySorted(s) && x !in s
    ensures StrictlySorted(r)
    ensures |r| == |s| + 1
    ensures forall y :: y in r <==> y in s || y == x
  {
    if |s| == 0 then [x]
    else if Less(x, s[0]) then
      assert forall j | 0 < j < |s| :: Less(x, s[j]) by {
        forall j | 0 < j < |s|
          ensures Less(x, s[j])
        {
          LessTransitive(x, s[0], s[j]);
        }
      }
      [x] + s
    else
      LessTotal(x, s[0]);
      var rest := InsertSorted(s[1..], x);
      assert forall j | 0 <= j < |rest| :: Less(s[0], rest[j]) by {
        forall j | 0 <= j < |rest|
          ensures Less(s[0], rest[j])
        {
          if rest[j] != x {
            assert rest[j] in s[1..];
            var i :| 0 <= i < |s[1..]| && s[1..][i] == rest[j];
            assert s[i + 1] == rest[j];
          }
        }
      }
      [s[0]] + rest
  }

  /** Two strictly sorted sequences with the same elements are equal: the
      sorted vocabulary does not depend on the order the terms arrived in. */
  lemma {:induction false} SortedUnique(a: seq<string>, b: seq<string>)
    requires StrictlySorted(a) && StrictlySorted(b)
    requires forall y :: y in a <==> y in b
    ensures a == b
    decreases |a|
  {
    if |a| > 0 && |b| > 0 {
      var x, y := a[0], b[0];
      if x != y {
        assert x in b && y in a;
        HeadIsLeast(b, x);
        HeadIsLeast(a, y);
        LessTransitive(x, y, x);
        LessIrreflexive(x);
      }
      assert forall z :: z in a[1..] <==> z in b[1..] by {
        forall z
          ensures z in a[1..] <==> z in b[1..]
        {
          if z in a[1..] {
            var i :| 0 <= i < |a[1..]| && a[1..][i] == z;
            assert Less(x, z);
            LessIrreflexive(x);
            assert z in b && z != b[0];
          }
          if z in b[1..] {
            var i :| 0 <= i < |b[1..]| && b[1..][i] == z;
            assert Less(y, z);
            LessIrreflexive(y);
            assert z in a && z != a[0];
          }
        }
      }
      SortedUnique(a[1..], b[1..]);
      assert a == [x] + a[1..] && b == [y] + b[1..];
    } else if |a| > 0 {
      HeadIsElement(a);
    } else if |b| > 0 {
      HeadIsElement(b);
    }
  }

  lemma HeadIsElement(s: seq<string>)
    requires 0 < |s|
    ensures s[0] in s
  {
  }

  /** The head of a strictly sorted sequence sorts before its other elements. */
  lemma HeadIsLeast(s: seq<string>, z: string)
    requires StrictlySorted(s) && z in s && z != s[0]
    ensures Less(s[0], z)
  {
    var i :| 0 <= i < |s| && s[i] == z;
  }

  /** Collect the strings of `keys` in any order and sort them: the
      `collect` then `sort` of `create_token_set`. */
  method SortedKeys(keys: set<string>) returns (r: seq<string>)
    ensures StrictlySorted(r)
    ensures forall y :: y in r <==> y in keys
    ensures |r| == |keys|
  {
    r := [];
    var todo := keys;
    while todo != {}
      invariant todo <= keys
      invariant StrictlySorted(r)
      invariant forall y :: y in r <==> y in keys && y !in todo
      invariant |r| + |todo| == |keys|
      decreases |todo|
    {
      var y :| y in todo;
      r := InsertSorted(r, y);
      todo := todo - {y};
    }
  }
}
