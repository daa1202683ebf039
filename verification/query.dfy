/** Query clauses and queries.

    A clause is a term with options: the fields to search, a boost, whether to
    run the pipeline, a wildcard mode and a presence. A query is a sequence of
    clauses; it is negated when every clause is prohibited. */
module Queries {
  import opened Results
  import opened Integers

  /** `WildcardMode`. The source spells the variants `None`, `Leading` and
      `Traling`. */
  datatype WildcardMode = NoWildcard | Leading | Trailing

  /** `Presence`. */
  datatype Presence = Optional | Required | Prohibited

  /** `Clause`. */
  datatype Clause = Clause(
    term: string,
    fields: Option<seq<string>>,
    boost: U64,
    usePipeline: bool,
    wildcard: WildcardMode,
    presence: Presence)

  /** `Clause::new`: a term with every option at its default. */
  function NewClause(term: string): (c: Clause)
    ensures c.term == term && c.fields == None && c.boost == 1
    ensures c.usePipeline && c.wildcard == NoWildcard && c.presence == Optional
  {
    Clause(term, None, 1, true, NoWildcard, Optional)
  }

  // Each setter changes its own option and nothing else. The getters are the
  // datatype's destructors.

  /** `Clause::set_fields`. */
  function SetFields(c: Clause, fields: seq<string>): (d: Clause)
    ensures d.fields == Some(fields)
    ensures d.term == c.term && d.boost == c.boost && d.usePipeline == c.usePipeline
    ensures d.wildcard == c.wildcard && d.presence == c.presence
  {
    c.(fields := Some(fields))
  }

  /** `Clause::set_boost`. */
  function SetBoost(c: Clause, boost: U64): (d: Clause)
    ensures d.boost == boost
    ensures d.term == c.term && d.fields == c.fields && d.usePipeline == c.usePipeline
    ensures d.wildcard == c.wildcard && d.presence == c.presence
  {
    c.(boost := boost)
  }

  /** `Clause::set_use_pipeline`. */
  function SetUsePipeline(c: Clause, usePipeline: bool): (d: Clause)
    ensures d.usePipeline == usePipeline
    ensures d.term == c.term && d.fields == c.fields && d.boost == c.boost
    ensures d.wildcard == c.wildcard && d.presence == c.presence
  {
    c.(usePipeline := usePipeline)
  }

  /** `Clause::set_wildcard`. */
  function SetWildcard(c: Clause, wildcard: WildcardMode): (d: Clause)
    ensures d.wildcard == wildcard
    ensures d.term == c.term && d.fields == c.fields && d.boost == c.boost
    ensures d.usePipeline == c.usePipeline && d.presence == c.presence
  {
    c.(wildcard := wildcard)
  }

  /** `Clause::set_presence`. */
  function SetPresence(c: Clause, presence: Presence): (d: Clause)
    ensures d.presence == presence
    ensures d.term == c.term && d.fields == c.fields && d.boost == c.boost
    ensures d.usePipeline == c.usePipeline && d.wildcard == c.wildcard
  {
    c.(presence := presence)
  }

  /** Setting an option twice keeps only the second value, and setting it to
      the value it already holds changes nothing. */
  lemma SettersOverwrite(c: Clause, p: Presence, q: Presence, b: U64, e: U64)
    ensures SetPresence(SetPresence(c, p), q) == SetPresence(c, q)
    ensures SetBoost(SetBoost(c, b), e) == SetBoost(c, e)
    ensures SetPresence(c, c.presence) == c && SetBoost(c, c.boost) == c
  {
  }

  /** Setters of different options commute. */
  lemma SettersCommute(c: Clause, p: Presence, b: U64, w: WildcardMode)
    ensures SetPresence(SetBoost(c, b), p) == SetBoost(SetPresence(c, p), b)
    ensures SetPresence(SetWildcard(c, w), p) == SetWildcard(SetPresence(c, p), w)
  {
  }

  /** `Query`. */
  datatype Query = Query(clauses: seq<Clause>)

  /** `Query::new`. */
  function NewQuery(): (q: Query)
    ensures |q.clauses| == 0
  {
    Query([])
  }

  /** `Query::add_clause`: append. */
  function AddClause(q: Query, c: Clause): (r: Query)
    ensures |r.clauses| == |q.clauses| + 1
    ensures r.clauses[|q.clauses|] == c
    ensures r.clauses[..|q.clauses|] == q.clauses
  {
    Query(q.clauses + [c])
  }

  /** `Iterator::all` over the clauses' presence, first to last. */
  function AllProhibited(cs: seq<Clause>): (r: bool)
    ensures r <==> forall k | 0 <= k < |cs| :: cs[k].presence == Prohibited
  {
    if |cs| == 0 then true
    else if cs[0].presence != Prohibited then false
    else
      assert forall k | 0 <= k < |cs| - 1 :: cs[1..][k] == cs[k + 1];
      AllProhibited(cs[1..])
  }

  /** `Query::is_negated`: every clause is prohibited; vacuously true for the
      empty query. */
  function IsNegated(q: Query): (r: bool)
    ensures r <==> forall k | 0 <= k < |q.clauses| :: q.clauses[k].presence == Prohibited
    ensures |q.clauses| == 0 ==> r
  {
    AllProhibited(q.clauses)
  }

  /** Adding a clause keeps a query negated exactly when the query was negated
      and the clause is prohibited. */
  lemma IsNegatedAddClause(q: Query, c: Clause)
    ensures IsNegated(AddClause(q, c)) <==> IsNegated(q) && c.presence == Prohibited
  {
    var r := AddClause(q, c);
    if IsNegated(r) {
      assert forall k | 0 <= k < |q.clauses| :: q.clauses[k] == r.clauses[k];
    }
  }

  /** Once a query holds a clause that is not prohibited it is never negated
      again, whatever clauses are added. */
  lemma NegationIsLost(q: Query, cs: seq<Clause>)
    requires !IsNegated(q)
    ensures !IsNegated(AddClauses(q, cs))
  {
    var k :| 0 <= k < |q.clauses| && q.clauses[k].presence != Prohibited;
    assert AddClauses(q, cs).clauses[k] == q.clauses[k];
  }

  /** Several `add_clause` calls in a row. */
  function AddClauses(q: Query, cs: seq<Clause>): (r: Query)
    ensures r.clauses == q.clauses + cs
    decreases |cs|
  {
    if |cs| == 0 then q else AddClauses(AddClause(q, cs[0]), cs[1..])
  }

  /** Two prohibited clauses make a negated query; a required clause after
      them makes it no longer negated, and further clauses keep it so. */
  lemma NegatedScenario()
    ensures var q := AddClauses(NewQuery(), [SetPresence(NewClause("foo"), Prohibited),
                                            SetPresence(NewClause("bar"), Prohibited)]);
            && IsNegated(q)
            && var q' := AddClauses(q, [SetPresence(NewClause("foo"), Prohibited),
                                        SetPresence(NewClause("bar"), Required)]);
               && !IsNegated(q')
               && !IsNegated(AddClauses(q', [NewClause("foo"), SetPresence(NewClause("bar"), Required)]))
  {
    var q := AddClauses(NewQuery(), [SetPresence(NewClause("foo"), Prohibited),
                                     SetPresence(NewClause("bar"), Prohibited)]);
    var q' := AddClauses(q, [SetPresence(NewClause("foo"), Prohibited),
                             SetPresence(NewClause("bar"), Required)]);
    assert q'.clauses[3].presence == Required;
    NegationIsLost(q', [NewClause("foo"), SetPresence(NewClause("bar"), Required)]);
  }
}
