/**
 * The orderings of `get_package` and `list_packages`: ORDER BY uploaded_at DESC,
 * whole or LIMIT 1. SQL leaves the order of equal timestamps open, so each query
 * is the set of results it may give.
 */
module Views {
  import opened Wrappers
  import opened Tables
  import Orders

  type Rows = map<string, VersionRow>

  function Stamps(rows: Rows): map<string, nat> {
    map v | v in rows :: rows[v].uploadedAt
  }

  /** A result `get_package` may list. */
  ghost predicate NewestFirst(rows: Rows, list: seq<string>) {
    Orders.Descending(Stamps(rows), list)
  }

  ghost predicate IsNewest(rows: Rows, v: string) {
    v in rows && forall w :: w in rows ==> rows[w].uploadedAt <= rows[v].uploadedAt
  }

  /** A value `list_packages` may give for `latest_version`. */
  ghost predicate IsLatest(rows: Rows, latest: Option<string>) {
    if latest.None? then rows == map[] else IsNewest(rows, latest.value)
  }

  function Head(list: seq<string>): Option<string> {
    if list == [] then None else Some(list[0])
  }

  /** One version is strictly newer than all others. */
  ghost predicate NewestIsUnique(rows: Rows) {
    forall v, w :: IsNewest(rows, v) && IsNewest(rows, w) ==> v == w
  }

  ghost predicate ViewsAgree(rows: Rows) {
    forall list, latest :: NewestFirst(rows, list) && IsLatest(rows, latest) ==> latest == Head(list)
  }

  lemma NewestExists(rows: Rows) returns (v: string)
    requires rows != map[]
    ensures IsNewest(rows, v)
  {
    v := Orders.LatestExists(Stamps(rows), rows.Keys);
    assert forall w :: w in rows ==> Stamps(rows)[w] <= Stamps(rows)[v];
  }

  lemma ListWithHead(rows: Rows, v: string, tail: seq<string>)
    requires IsNewest(rows, v) && NewestFirst(rows - {v}, tail)
    ensures NewestFirst(rows, [v] + tail)
  {
    var list := [v] + tail;
    var rest := rows - {v};
    forall w ensures w in list <==> w in rows {
      assert w in tail <==> w in rest;
    }
    assert forall i :: 0 <= i < |tail| ==> tail[i] in rest;
    assert forall i :: 0 < i < |list| ==> list[i] == tail[i - 1];
  }

  lemma {:induction false} ListExists(rows: Rows) returns (list: seq<string>)
    ensures NewestFirst(rows, list)
    decreases |rows|
  {
    if rows == map[] {
      list := [];
    } else {
      var v := NewestExists(rows);
      var rest := rows - {v};
      assert rest.Keys == rows.Keys - {v};
      var tail := ListExists(rest);
      ListWithHead(rows, v, tail);
      list := [v] + tail;
    }
  }

  /**
   * The list view and the detail view agree, whichever order ties come in, if and
   * only if the newest timestamp belongs to one version.
   */
  lemma ViewsAgreeIff(rows: Rows)
    ensures ViewsAgree(rows) <==> NewestIsUnique(rows)
  {
    if ViewsAgree(rows) {
      forall v, w | IsNewest(rows, v) && IsNewest(rows, w) ensures v == w {
        var tail := ListExists(rows - {v});
        ListWithHead(rows, v, tail);
        assert IsLatest(rows, Some(w));
        assert Head([v] + tail) == Some(v);
      }
    }
    if NewestIsUnique(rows) {
      forall list, latest | NewestFirst(rows, list) && IsLatest(rows, latest) ensures latest == Head(list) {
        if list != [] {
          assert list[0] in list;
          HeadIsNewest(rows, list);
        } else {
          assert forall u :: u in rows ==> u in list;
        }
      }
    }
  }

  lemma HeadIsNewest(rows: Rows, list: seq<string>)
    requires NewestFirst(rows, list) && list != []
    ensures IsNewest(rows, list[0])
  {
    assert list[0] in list;
    forall w | w in rows ensures rows[w].uploadedAt <= rows[list[0]].uploadedAt {
      assert w in list;
    }
  }

  lemma HeadIsLatest(rows: Rows, list: seq<string>)
    requires NewestFirst(rows, list)
    ensures IsLatest(rows, Head(list))
  {
    if list == [] {
      assert forall v :: v in rows ==> v in list;
    } else {
      HeadIsNewest(rows, list);
    }
  }

  // ---- uploads one after another ----

  /** What the upload and delete statements did to one package, in order. */
  datatype Event = Inserted(version: string, row: VersionRow) | Removed(version: string)

  function RowsAfter(h: seq<Event>): Rows {
    if h == [] then map[]
    else
      var before := RowsAfter(h[..|h| - 1]);
      match h[|h| - 1]
      case Inserted(v, row) => before[v := row]
      case Removed(v) => before - {v}
  }

  /** The two version statements act on the selected rows of their package as one event, and on no other package's. */
  lemma InsertIsEvent(t: Tables, id: nat, v: string, row: VersionRow, other: nat, h: seq<Event>)
    requires VersionsOf(t, id) == RowsAfter(h)
    ensures VersionsOf(InsertVersion(t, (id, v), row), id) == RowsAfter(h + [Inserted(v, row)])
    ensures other != id ==> VersionsOf(InsertVersion(t, (id, v), row), other) == VersionsOf(t, other)
  {
    assert (h + [Inserted(v, row)])[..|h|] == h;
    hide VersionsOf;
    InsertSelected(t, id, v, row, id);
    InsertSelected(t, id, v, row, other);
  }

  lemma RemoveIsEvent(t: Tables, id: nat, v: string, other: nat, h: seq<Event>)
    requires VersionsOf(t, id) == RowsAfter(h)
    ensures VersionsOf(RemoveRow(t, (id, v)), id) == RowsAfter(h + [Removed(v)])
    ensures other != id ==> VersionsOf(RemoveRow(t, (id, v)), other) == VersionsOf(t, other)
  {
    assert (h + [Removed(v)])[..|h|] == h;
    hide VersionsOf;
    RemoveSelected(t, id, v, id);
    RemoveSelected(t, id, v, other);
  }

  lemma RemoveSelected(t: Tables, id: nat, v: string, other: nat)
    ensures VersionsOf(RemoveRow(t, (id, v)), other) == if other == id then VersionsOf(t, id) - {v} else VersionsOf(t, other)
  {
    hide VersionsOf;
    SelectedKeys(t, other);
    SelectedKeys(RemoveRow(t, (id, v)), other);
  }

  lemma InsertSelected(t: Tables, id: nat, v: string, row: VersionRow, other: nat)
    ensures VersionsOf(InsertVersion(t, (id, v), row), other) == if other == id then VersionsOf(t, id)[v := row] else VersionsOf(t, other)
  {
    hide VersionsOf;
    SelectedKeys(t, other);
    SelectedKeys(InsertVersion(t, (id, v), row), other);
  }

  lemma SelectedKeys(t: Tables, id: nat)
    ensures forall v :: v in VersionsOf(t, id) <==> (id, v) in t.versions
    ensures forall v :: v in VersionsOf(t, id) ==> VersionsOf(t, id)[v] == t.versions[(id, v)]
  {
    forall v | (id, v) in t.versions ensures v in VersionsOf(t, id) {
      var k := (id, v);
      assert k in t.versions && k.0 == id && k.1 == v;
    }
  }

  function Without(list: seq<string>, v: string): seq<string> {
    if list == [] then [] else (if list[0] == v then [] else [list[0]]) + Without(list[1..], v)
  }

  /** The live versions, most recently published first: each publish comes to the front, each delete takes its version out. */
  function LiveOrder(h: seq<Event>): seq<string> {
    if h == [] then []
    else
      var before := LiveOrder(h[..|h| - 1]);
      match h[|h| - 1]
      case Inserted(v, _) => [v] + before
      case Removed(v) => Without(before, v)
  }

  /** No insert finds its version taken. */
  ghost predicate FreshInserts(h: seq<Event>) {
    forall j :: 0 <= j < |h| && h[j].Inserted? ==> h[j].version !in RowsAfter(h[..j])
  }

  ghost predicate IncreasingStamps(h: seq<Event>) {
    forall i, j :: 0 <= i < j < |h| && h[i].Inserted? && h[j].Inserted? ==> h[i].row.uploadedAt < h[j].row.uploadedAt
  }

  /** Each insert is stamped later than the ones before, and no version is taken. */
  ghost predicate OneAfterAnother(h: seq<Event>) {
    FreshInserts(h) && IncreasingStamps(h)
  }

  lemma WithoutKeeps(list: seq<string>, v: string)
    ensures forall w :: w in Without(list, v) <==> w in list && w != v
  {}

  /** The live versions in order of publication are exactly the rows, each once. */
  lemma {:induction false} LiveOrderIsLive(h: seq<Event>)
    requires FreshInserts(h)
    ensures forall v :: v in LiveOrder(h) <==> v in RowsAfter(h)
    ensures forall i, j :: 0 <= i < j < |LiveOrder(h)| ==> LiveOrder(h)[i] != LiveOrder(h)[j]
    decreases |h|
  {
    if h == [] {
    } else {
      var n := |h| - 1;
      var g := h[..n];
      assert forall j :: 0 <= j < n ==> g[..j] == h[..j];
      LiveOrderIsLive(g);
      if h[n].Removed? {
        WithoutKeeps(LiveOrder(g), h[n].version);
        WithoutIsDistinct(LiveOrder(g), h[n].version);
      }
    }
  }

  lemma {:induction false} WithoutIsDistinct(list: seq<string>, v: string)
    requires forall i, j :: 0 <= i < j < |list| ==> list[i] != list[j]
    ensures forall i, j :: 0 <= i < j < |Without(list, v)| ==> Without(list, v)[i] != Without(list, v)[j]
  {
    if list == [] {
    } else {
      WithoutIsDistinct(list[1..], v);
      WithoutKeeps(list[1..], v);
      var rest := Without(list[1..], v);
      assert list[0] !in list[1..];
      assert forall j :: 0 <= j < |rest| ==> rest[j] in rest;
    }
  }

  /** The version published last among the live ones is stamped later than each of the others. */
  ghost predicate StampedLast(rows: Rows, order: seq<string>) {
    forall v :: v in order && v in rows && order[0] in rows && v != order[0] ==> rows[v].uploadedAt < rows[order[0]].uploadedAt
  }

  /** Exactly when `latest_version` is the version published last among the live ones. */
  lemma LatestIsLastPublishedIff(h: seq<Event>)
    requires FreshInserts(h)
    ensures (forall latest :: IsLatest(RowsAfter(h), latest) ==> latest == Head(LiveOrder(h)))
            <==> StampedLast(RowsAfter(h), LiveOrder(h))
  {
    hide RowsAfter, LiveOrder, FreshInserts;
    var rows, order := RowsAfter(h), LiveOrder(h);
    LiveOrderIsLive(h);
    if StampedLast(rows, order) {
      forall latest | IsLatest(rows, latest) ensures latest == Head(order) {
        if latest.None? {
          assert forall v :: v in order ==> v in rows;
        } else {
          assert latest.value in order;
          assert order[0] in order;
        }
      }
    }
    if forall latest :: IsLatest(rows, latest) ==> latest == Head(order) {
      forall v | v in order && order[0] in rows && v != order[0] ensures rows[v].uploadedAt < rows[order[0]].uploadedAt {
        var w := NewestExists(rows);
        assert IsLatest(rows, Some(w));
        assert !IsLatest(rows, Some(v));
      }
    }
  }

  lemma {:induction false} WithoutKeepsOrder(rows: Rows, list: seq<string>, v: string)
    requires NewestFirst(rows, list)
    ensures NewestFirst(rows - {v}, Without(list, v))
  {
    if list == [] {
      assert rows - {v} == map[] by { forall w ensures w !in rows { assert w !in list; } }
    } else {
      var u := list[0];
      var rest := rows - {u};
      TailIsOrdered(rows, list);
      WithoutKeepsOrder(rest, list[1..], v);
      HeadIsNewest(rows, list);
      if u == v {
        assert rest - {v} == rows - {v};
        assert Without(list, v) == Without(list[1..], v);
      } else {
        assert rest - {v} == rows - {v} - {u};
        ListWithHead(rows - {v}, u, Without(list[1..], v));
      }
    }
  }

  lemma TailIsOrdered(rows: Rows, list: seq<string>)
    requires NewestFirst(rows, list) && list != []
    ensures NewestFirst(rows - {list[0]}, list[1..])
  {
    var tail, rest := list[1..], rows - {list[0]};
    forall w ensures w in tail <==> w in rest {
      assert w in list <==> w in rows;
      if w in rest {
        var i :| 0 <= i < |list| && list[i] == w;
        assert tail[i - 1] == w;
      }
      if w in tail {
        var i :| 0 <= i < |tail| && tail[i] == w;
        assert list[i + 1] == w;
      }
    }
    forall i, j | 0 <= i < j < |tail| ensures tail[i] in rest && tail[j] in rest && rest[tail[i]].uploadedAt >= rest[tail[j]].uploadedAt {
      assert tail[i] in tail && tail[j] in tail;
      assert tail[i] == list[i + 1] && tail[j] == list[j + 1];
    }
  }

  lemma {:induction false} RowsComeFromInserts(h: seq<Event>, v: string)
    requires v in RowsAfter(h)
    ensures exists i :: 0 <= i < |h| && h[i].Inserted? && h[i].row == RowsAfter(h)[v]
    decreases |h|
  {
    var n := |h| - 1;
    if !(h[n].Inserted? && h[n].version == v) {
      RowsComeFromInserts(h[..n], v);
      var i :| 0 <= i < n && h[..n][i].Inserted? && h[..n][i].row == RowsAfter(h[..n])[v];
      assert h[i].Inserted? && h[i].row == RowsAfter(h)[v];
    }
  }

  /**
   * For uploads one after another the detail view is the live versions, most
   * recently published first, and so `latest_version` is the most recently
   * published version still live, after any mix of publishes and deletes.
   */
  lemma {:induction false} LatestIsMostRecentlyPublished(h: seq<Event>)
    requires OneAfterAnother(h)
    ensures NewestFirst(RowsAfter(h), LiveOrder(h))
    ensures forall latest :: IsLatest(RowsAfter(h), latest) ==> latest == Head(LiveOrder(h))
    decreases |h|
  {
    if h == [] {
    } else {
      var n := |h| - 1;
      var g := h[..n];
      assert forall j :: 0 <= j < n ==> g[..j] == h[..j];
      LatestIsMostRecentlyPublished(g);
      match h[n]
      case Removed(v) => WithoutKeepsOrder(RowsAfter(g), LiveOrder(g), v);
      case Inserted(v, row) =>
        var rows := RowsAfter(h);
        forall w | w in RowsAfter(g) ensures RowsAfter(g)[w].uploadedAt < row.uploadedAt {
          RowsComeFromInserts(g, w);
          var i :| 0 <= i < n && g[i].Inserted? && g[i].row == RowsAfter(g)[w];
          assert h[i] == g[i];
        }
        assert rows - {v} == RowsAfter(g);
        ListWithHead(rows, v, LiveOrder(g));
    }
    StampsAreDistinct(h);
    ViewsAgreeIff(RowsAfter(h));
  }

  lemma {:induction false} StampsAreDistinct(h: seq<Event>)
    requires OneAfterAnother(h)
    ensures forall v, w :: v in RowsAfter(h) && w in RowsAfter(h) && RowsAfter(h)[v].uploadedAt == RowsAfter(h)[w].uploadedAt ==> v == w
    decreases |h|
  {
    if h == [] {
    } else {
      var n := |h| - 1;
      var g := h[..n];
      assert forall j :: 0 <= j < n ==> g[..j] == h[..j];
      StampsAreDistinct(g);
      if h[n].Inserted? {
        forall w | w in RowsAfter(g) ensures RowsAfter(g)[w].uploadedAt < h[n].row.uploadedAt {
          RowsComeFromInserts(g, w);
          var i :| 0 <= i < n && g[i].Inserted? && g[i].row == RowsAfter(g)[w];
          assert h[i] == g[i];
        }
      }
    }
  }
}
