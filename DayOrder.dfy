// Ordering of epoch days: the `ORDER BY date DESC` of the level_data queries.

module DayOrder {

  /** Every finite, non-empty set of days has a latest day. */
  lemma {:induction false} HasGreatest(s: set<int>)
    requires s != {}
    ensures exists m :: m in s && forall k :: k in s ==> k <= m
  {
    if forall k :: k !in s {
      assert false;
    }
    var x :| x in s;
    if s != {x} {
      HasGreatest(s - {x});
      var m :| m in s - {x} && forall k :: k in s - {x} ==> k <= m;
      assert forall k :: k in s ==> k == x || k in s - {x};
      if x <= m {
        assert forall k :: k in s ==> k <= m;
      } else {
        assert forall k :: k in s ==> k <= x;
      }
    }
  }

  /** The latest day of a non-empty set of days. */
  function Greatest(s: set<int>): (m: int)
    requires s != {}
    ensures m in s
    ensures forall k :: k in s ==> k <= m
  {
    HasGreatest(s);
    var m :| m in s && forall k :: k in s ==> k <= m;
    m
  }

  /** The days of `s`, newest first: each day exactly once, strictly descending. */
  function NewestFirst(s: set<int>): (ds: seq<int>)
    ensures |ds| == |s|
    ensures forall d :: d in ds <==> d in s
    ensures forall i :: 0 <= i < |ds| ==> ds[i] in s
    ensures forall i, j :: 0 <= i < j < |ds| ==> ds[i] > ds[j]
    decreases |s|
  {
    if s == {} then []
    else
      var m := Greatest(s);
      [m] + NewestFirst(s - {m})
  }
}
