/** Ordering of query results: the `order_by` of the feeds (newest `pub_date`
    first) and the `Meta.ordering` of comments (oldest `created_at` first).
    The database breaks ties in an unspecified way; here the choice among
    equally ranked rows is left open. */
module Ordering {

  /** `m` ranks at least as high as every other member of `ids`. */
  ghost predicate IsTop(ids: set<int>, rank: int -> int, m: int) {
    m in ids && forall j :: j in ids ==> rank(j) <= rank(m)
  }

  /** Every non-empty finite set has a highest-ranked member. */
  lemma {:induction false} TopExists(ids: set<int>, rank: int -> int)
    requires ids != {}
    ensures exists m :: IsTop(ids, rank, m)
    decreases |ids|
  {
    if forall y :: y !in ids { assert false; }
    var x :| x in ids;
    var rest := ids - {x};
    if rest == {} {
      assert ids == {x};
      assert IsTop(ids, rank, x);
    } else {
      TopExists(rest, rank);
      var m :| IsTop(rest, rank, m);
      if rank(x) <= rank(m) {
        assert IsTop(ids, rank, m);
      } else {
        assert IsTop(ids, rank, x);
      }
    }
  }

  /** A top member followed by the others, each once and highest rank first,
      is all of `ids`, each once and highest rank first. */
  lemma TopThenRest(ids: set<int>, rank: int -> int, m: int, rest: seq<int>)
    requires IsTop(ids, rank, m)
    requires |rest| == |ids - {m}|
    requires forall i :: 0 <= i < |rest| ==> rest[i] in ids - {m}
    requires forall x :: x in ids - {m} ==> x in rest
    requires forall i, j :: 0 <= i < j < |rest| ==> rest[i] != rest[j]
    requires forall i, j :: 0 <= i < j < |rest| ==> rank(rest[i]) >= rank(rest[j])
    ensures var r := [m] + rest;
      && |r| == |ids|
      && (forall i :: 0 <= i < |r| ==> r[i] in ids)
      && (forall x :: x in ids ==> x in r)
      && (forall i, j :: 0 <= i < j < |r| ==> r[i] != r[j])
      && (forall i, j :: 0 <= i < j < |r| ==> rank(r[i]) >= rank(r[j]))
  {
    var r := [m] + rest;
    assert forall i :: 1 <= i < |r| ==> r[i] == rest[i - 1];
    forall i, j | 0 <= i < j < |r| ensures r[i] != r[j] && rank(r[i]) >= rank(r[j]) {
      if i > 0 {
        assert r[i] == rest[i - 1] && r[j] == rest[j - 1];
      } else {
        assert r[j] == rest[j - 1] && r[j] in ids - {m};
      }
    }
  }

  /** The members of `ids`, each exactly once, highest rank first. */
  ghost function SortedDesc(ids: set<int>, rank: int -> int): (r: seq<int>)
    ensures |r| == |ids|
    ensures forall i :: 0 <= i < |r| ==> r[i] in ids
    ensures forall x :: x in ids ==> x in r
    ensures forall i, j :: 0 <= i < j < |r| ==> r[i] != r[j]
    ensures forall i, j :: 0 <= i < j < |r| ==> rank(r[i]) >= rank(r[j])
    decreases |ids|
  {
    if ids == {} then []
    else
      TopExists(ids, rank);
      var m :| IsTop(ids, rank, m);
      var rest := SortedDesc(ids - {m}, rank);
      TopThenRest(ids, rank, m, rest);
      [m] + rest
  }
}
