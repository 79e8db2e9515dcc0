/** Row ids: the least id of a table, an id a table does not use yet, and a table's ids in
    ascending order, the order in which a full scan of a rowid table visits its rows. */
module Ids {

  /** Some id of a non-empty set. */
  lemma Pick(s: set<int>) returns (x: int)
    requires s != {}
    ensures x in s
  {
    if forall y: int :: y !in s {
      assert false;
    }
    x :| x in s;
  }

  /** Every non-empty finite set of ids has a least element. */
  lemma {:induction false} HasMinimum(s: set<int>)
    requires s != {}
    ensures exists m :: m in s && forall k :: k in s ==> m <= k
    decreases s
  {
    var x := Pick(s);
    var rest := s - {x};
    if rest == {} {
      assert s == {x};
    } else {
      HasMinimum(rest);
      var m :| m in rest && forall k :: k in rest ==> m <= k;
      var least := if x < m then x else m;
      forall k | k in s ensures least <= k {
        if k != x { assert k in rest; }
      }
      assert least in s;
    }
  }

  function MinOf(s: set<int>): (m: int)
    requires s != {}
    ensures m in s
    ensures forall k :: k in s ==> m <= k
  {
    HasMinimum(s);
    var m :| m in s && forall k :: k in s ==> m <= k;
    m
  }

  /** A table never uses every id: there is always one to hand out on INSERT. */
  lemma UnusedIdExists(s: set<int>)
    ensures exists id :: id !in s
  {
    if s == {} {
      assert 0 !in s;
    } else {
      assert MinOf(s) - 1 !in s;
    }
  }

  ghost predicate Ascending(ks: seq<int>) {
    forall i, j :: 0 <= i < j < |ks| ==> ks[i] < ks[j]
  }

  /** The ids of a table in the order a scan visits them. */
  function KeysAscending(s: set<int>): (ks: seq<int>)
    ensures |ks| == |s|
    ensures forall k :: k in ks <==> k in s
    ensures Ascending(ks)
    decreases |s|
  {
    if s == {} then []
    else
      var m := MinOf(s);
      [m] + KeysAscending(s - {m})
  }
}
