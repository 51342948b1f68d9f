/** ORDER BY a timestamp DESC, as the queries that list rows use it. */
module Orders {

  /** Every key once, later stamps first; equal stamps in any order. */
  ghost predicate Descending(stamps: map<string, nat>, list: seq<string>) {
    && (forall i, j :: 0 <= i < j < |list| ==> list[i] != list[j])
    && (forall k :: k in list <==> k in stamps)
    && (forall i, j :: 0 <= i < j < |list| ==> stamps[list[i]] >= stamps[list[j]])
  }

  lemma {:induction false} LatestExists(stamps: map<string, nat>, left: set<string>) returns (k: string)
    requires left != {} && left <= stamps.Keys
    ensures k in left && forall j :: j in left ==> stamps[j] <= stamps[k]
    decreases |left|
  {
    var w :| w in left;
    var rest := left - {w};
    if rest == {} {
      k := w;
      assert forall j :: j in left ==> j == w || j in rest;
    } else {
      k := LatestExists(stamps, rest);
      assert forall j :: j in left ==> j == w || j in rest;
      if stamps[w] > stamps[k] { k := w; }
    }
  }

  method Sort(stamps: map<string, nat>) returns (list: seq<string>)
    ensures Descending(stamps, list)
  {
    list := [];
    var left := stamps.Keys;
    while left != {}
      invariant left <= stamps.Keys
      invariant forall k :: k in list <==> k in stamps && k !in left
      invariant forall i, j :: 0 <= i < j < |list| ==> list[i] != list[j] && stamps[list[i]] >= stamps[list[j]]
      invariant forall i, k :: 0 <= i < |list| && k in left ==> stamps[list[i]] >= stamps[k]
    {
      var _ := LatestExists(stamps, left);
      var k :| k in left && forall j :: j in left ==> stamps[j] <= stamps[k];
      assert k !in list;
      list := list + [k];
      left := left - {k};
    }
  }
}
