/** Fetching the complete node list page by page. The server orders by last_seen, newest first, and
    caps the rows of a response; between requests nodes may move to the front of the list. */
module NodePaging {
  import opened Common
  import opened JsText

  /** A row without a public key has the empty key. */
  datatype Row = Row(key: string, data: string)

  /** The answer to the k-th request, for an offset and a limit; None is a failed request. */
  type Server = (nat, nat, nat) -> Option<seq<Row>>

  // ---- the page loop ----

  /** Rows of all pages from request `k` on; a short page is the end of the data. */
  ghost function Collect(server: Server, pageSize: nat, safetyCap: nat, k: nat, offset: nat): (r: Option<seq<Row>>)
    requires pageSize > 0
    decreases safetyCap - offset
  {
    if offset >= safetyCap then Some([])
    else match server(k, offset, pageSize)
      case None => None
      case Some(page) =>
        if |page| < pageSize then Some(page)
        else match Collect(server, pageSize, safetyCap, k + 1, offset + pageSize)
          case None => None
          case Some(rest) => Some(page + rest)
  }

  // ---- removing duplicates ----

  /** An insertion-ordered map: keys in order of first insertion, values of the last. */
  datatype Index = Index(order: seq<string>, values: map<string, Row>)

  function MapKey(row: Row, i: nat): (k: string) {
    if row.key != "" then row.key else "__nokey" + DecimalNat(i)
  }

  function Insert(ix: Index, k: string, row: Row): (r: Index) {
    Index(if k in ix.values then ix.order else ix.order + [k], ix.values[k := row])
  }

  ghost function IndexOf(rows: seq<Row>): (ix: Index) {
    if rows == [] then Index([], map[])
    else Insert(IndexOf(rows[..|rows| - 1]), MapKey(rows[|rows| - 1], |rows| - 1), rows[|rows| - 1])
  }

  ghost predicate Coherent(ix: Index) { forall k :: k in ix.order <==> k in ix.values }

  function Rows(ix: Index): (rows: seq<Row>)
    requires Coherent(ix)
    ensures |rows| == |ix.order|
  {
    seq(|ix.order|, i requires 0 <= i < |ix.order| => assert ix.order[i] in ix.order; ix.values[ix.order[i]])
  }

  /** `k` is what some row was filed under, and `row` is the last such row. */
  ghost predicate LastUnder(rows: seq<Row>, k: string, row: Row) {
    exists i ::
      && 0 <= i < |rows| && MapKey(rows[i], i) == k && rows[i] == row
      && forall j :: i < j < |rows| ==> MapKey(rows[j], j) != k
  }

  lemma {:induction false} IndexCoherent(rows: seq<Row>)
    ensures Coherent(IndexOf(rows)) && Distinct(IndexOf(rows).order)
  {
    if rows != [] { IndexCoherent(rows[..|rows| - 1]); }
  }

  lemma {:induction false} IndexComplete(rows: seq<Row>, i: nat)
    requires i < |rows|
    ensures MapKey(rows[i], i) in IndexOf(rows).values
  {
    if i < |rows| - 1 { IndexComplete(rows[..|rows| - 1], i); }
  }

  lemma {:induction false} IndexLatest(rows: seq<Row>, k: string)
    requires k in IndexOf(rows).values
    ensures LastUnder(rows, k, IndexOf(rows).values[k])
  {
    var last := |rows| - 1;
    if MapKey(rows[last], last) != k {
      IndexLatest(rows[..last], k);
      var front, row := rows[..last], IndexOf(rows[..last]).values[k];
      var i :| 0 <= i < |front| && MapKey(front[i], i) == k && front[i] == row
               && forall j :: i < j < |front| ==> MapKey(front[j], j) != k;
      assert rows[i] == row;
      forall j | i < j < |rows| ensures MapKey(rows[j], j) != k {
        if j < last { assert rows[j] == front[j]; }
      }
    }
  }

  /** The key was first met at row i. */
  ghost predicate FirstAt(rows: seq<Row>, k: string, i: nat) {
    i < |rows| && MapKey(rows[i], i) == k && forall j :: 0 <= j < i ==> MapKey(rows[j], j) != k
  }

  lemma FirstAtFront(rows: seq<Row>, k: string, i: nat)
    requires rows != [] && FirstAt(rows[..|rows| - 1], k, i)
    ensures FirstAt(rows, k, i)
  {
    assert forall j :: 0 <= j < |rows| - 1 ==> rows[..|rows| - 1][j] == rows[j];
  }

  /** Keys stand in the order in which they were first met, even if their rows come again later. */
  lemma {:induction false} OrderOfFirst(rows: seq<Row>, p: nat) returns (i: nat)
    requires p < |IndexOf(rows).order|
    ensures FirstAt(rows, IndexOf(rows).order[p], i)
    ensures forall q, j: nat :: p < q < |IndexOf(rows).order| && FirstAt(rows, IndexOf(rows).order[q], j) ==> i < j
  {
    var n := |rows| - 1;
    var front, ix := IndexOf(rows[..n]), IndexOf(rows);
    IndexCoherent(rows[..n]);
    var k := MapKey(rows[n], n);
    if p < |front.order| {
      i := OrderOfFirst(rows[..n], p);
      FirstAtFront(rows, ix.order[p], i);
      forall q, j: nat | p < q < |ix.order| && FirstAt(rows, ix.order[q], j) ensures i < j {
        if j < n {
          assert FirstAt(rows[..n], ix.order[q], j) by {
            assert forall m :: 0 <= m < n ==> rows[..n][m] == rows[m];
          }
          if q >= |front.order| { IndexComplete(rows[..n], j); }
        }
      }
    } else {
      i := n;
      forall j | 0 <= j < n ensures MapKey(rows[j], j) != k {
        IndexComplete(rows[..n], j);
        assert rows[..n][j] == rows[j];
      }
    }
  }

  ghost function Fetched(server: Server, pageSize: nat, safetyCap: nat): (r: Option<seq<Row>>)
    requires pageSize > 0
  {
    match Collect(server, pageSize, safetyCap, 0, 0)
    case None => None
    case Some(rows) =>
      IndexCoherent(rows);
      var nodes := Rows(IndexOf(rows));
      Some(nodes[..Min(|nodes|, safetyCap)])
  }

  method Dedup(rows: seq<Row>) returns (nodes: seq<Row>)
    ensures Coherent(IndexOf(rows)) && nodes == Rows(IndexOf(rows))
  {
    IndexCoherent(rows);
    var seen := Index([], map[]);
    for i := 0 to |rows|
      invariant seen == IndexOf(rows[..i])
    {
      assert rows[..i + 1][..i] == rows[..i];
      seen := Insert(seen, MapKey(rows[i], i), rows[i]);
    }
    assert rows[..|rows|] == rows;
    nodes := Rows(seen);
  }

  /** Pages, then deduplicates by key, then cuts at the ceiling. */
  method FetchAllNodes(server: Server, pageSize: nat, safetyCap: nat) returns (nodes: Option<seq<Row>>)
    requires pageSize > 0
    ensures nodes == Fetched(server, pageSize, safetyCap)
  {
    var accumulated: seq<Row>, k, offset, done := [], 0, 0, false;
    ghost var total := Collect(server, pageSize, safetyCap, 0, 0);
    assert total.Some? ==> accumulated + total.value == total.value;
    while offset < safetyCap && !done
      invariant done ==> total == Some(accumulated)
      invariant !done ==> total == (match Collect(server, pageSize, safetyCap, k, offset)
                                    case None => None case Some(rest) => Some(accumulated + rest))
      decreases safetyCap - offset, !done
    {
      var page := server(k, offset, pageSize);
      if page.None? { return None; }
      ghost var before := accumulated;
      accumulated := accumulated + page.value;
      if |page.value| < pageSize {
        done := true;
      } else {
        ghost var rest := Collect(server, pageSize, safetyCap, k + 1, offset + pageSize);
        assert rest.Some? ==> before + (page.value + rest.value) == accumulated + rest.value;
        k, offset := k + 1, offset + pageSize;
      }
    }
    assert accumulated + [] == accumulated;
    var all := Dedup(accumulated);
    return Some(all[..Min(|all|, safetyCap)]);
  }

  // ---- what deduplication guarantees for any rows ----

  /** Whatever the pages were, no two returned rows share a public key. */
  lemma NoDuplicateKeys(rows: seq<Row>, i: nat, j: nat)
    ensures Coherent(IndexOf(rows))
    ensures var nodes := Rows(IndexOf(rows));
            i < j < |nodes| && nodes[i].key != "" ==> nodes[i].key != nodes[j].key
  {
    IndexCoherent(rows);
    var ix := IndexOf(rows);
    var nodes := Rows(ix);
    if i < j < |nodes| && nodes[i].key != "" && nodes[i].key == nodes[j].key {
      assert ix.order[i] in ix.order && ix.order[j] in ix.order;
      IndexLatest(rows, ix.order[i]);
      IndexLatest(rows, ix.order[j]);
      assert false;
    }
  }

  lemma DecimalInjective(i: nat, j: nat)
    requires DecimalNat(i) == DecimalNat(j)
    ensures i == j
  {
    ParseNatDecimal(i);
    ParseNatDecimal(j);
  }

  /** A row without a key is what is filed under its synthetic key, except exactly when a later row has
      that very text as its real key. */
  lemma KeylessRowsSurvive(rows: seq<Row>, i: nat)
    requires i < |rows| && rows[i].key == ""
    ensures Coherent(IndexOf(rows)) && MapKey(rows[i], i) in IndexOf(rows).values
    ensures IndexOf(rows).values[MapKey(rows[i], i)] == rows[i]
            <==> forall j :: i < j < |rows| ==> rows[j].key != MapKey(rows[i], i)
    ensures (forall j :: i < j < |rows| ==> rows[j].key != MapKey(rows[i], i)) ==> rows[i] in Rows(IndexOf(rows))
  {
    IndexCoherent(rows);
    IndexComplete(rows, i);
    var ix, k := IndexOf(rows), MapKey(rows[i], i);
    IndexLatest(rows, k);
    var m :| 0 <= m < |rows| && MapKey(rows[m], m) == k && rows[m] == ix.values[k]
             && forall j :: m < j < |rows| ==> MapKey(rows[j], j) != k;
    if rows[m].key == "" {
      SyntheticInjective(rows, i, m);
    }
    if ix.values[k] == rows[i] {
      var p :| 0 <= p < |ix.order| && ix.order[p] == k;
      assert Rows(ix)[p] == rows[i];
    }
  }

  lemma SyntheticInjective(rows: seq<Row>, i: nat, m: nat)
    requires i < |rows| && m < |rows| && rows[i].key == "" && rows[m].key == ""
    requires MapKey(rows[i], i) == MapKey(rows[m], m)
    ensures i == m
  {
    assert ("__nokey" + DecimalNat(i))[7..] == DecimalNat(i);
    assert ("__nokey" + DecimalNat(m))[7..] == DecimalNat(m);
    DecimalInjective(i, m);
  }

  // ---- a list that moves between requests ----

  /** The page the real server cuts: the limit is clamped to the server's cap. */
  function Page(list: seq<Row>, offset: nat, limit: nat, cap: nat): (page: seq<Row>) {
    var from := Min(offset, |list|);
    list[from..Min(from + Min(limit, cap), |list|)]
  }

  function Serve(lists: nat -> seq<Row>, cap: nat): (server: Server) {
    (k: nat, offset: nat, limit: nat) => Some(Page(lists(k), offset, limit, cap))
  }

  /** Every row has a key of its own. */
  ghost predicate Keyed(list: seq<Row>) {
    && (forall i :: 0 <= i < |list| ==> list[i].key != "")
    && forall i, j :: 0 <= i < j < |list| ==> list[i].key != list[j].key
  }

  ghost predicate At(list: seq<Row>, x: Row, p: nat) { p < |list| && list[p] == x }

  ghost function KeySet(list: seq<Row>): (keys: set<string>)
    ensures |keys| <= |list|
  {
    if list == [] then {} else KeySet(list[..|list| - 1]) + {list[|list| - 1].key}
  }

  lemma {:induction false} KeySetIff(list: seq<Row>, key: string)
    ensures key in KeySet(list) <==> exists i :: 0 <= i < |list| && list[i].key == key
  {
    if list != [] {
      var front := list[..|list| - 1];
      KeySetIff(front, key);
      assert forall i :: 0 <= i < |front| ==> front[i] == list[i];
    }
  }

  function Unmoved(list: seq<Row>, moved: set<string>): (r: seq<Row>) {
    if list == [] then []
    else Unmoved(list[..|list| - 1], moved) + (if list[|list| - 1].key in moved then [] else [list[|list| - 1]])
  }

  /** Some rows move to the front, possibly with new rows; the others keep their order. */
  ghost predicate FrontMoves(a: seq<Row>, b: seq<Row>, moved: set<string>) {
    exists front: seq<Row> :: b == front + Unmoved(a, moved) && moved * KeySet(a) <= KeySet(front)
  }

  lemma OneMoreKey(moved: set<string>, keys: set<string>, key: string)
    requires key !in keys
    ensures |moved * (keys + {key})| == |moved * keys| + if key in moved then 1 else 0
  {
    if key in moved {
      assert moved * (keys + {key}) == moved * keys + {key};
    } else {
      assert moved * (keys + {key}) == moved * keys;
    }
  }

  /** How many of the first rows stay: all but the moved ones, which have distinct keys. */
  lemma {:induction false} UnmovedCount(list: seq<Row>, moved: set<string>)
    requires Keyed(list)
    ensures |Unmoved(list, moved)| + |moved * KeySet(list)| == |list|
  {
    if list == [] {
      assert moved * KeySet(list) == {};
    } else {
      var last := |list| - 1;
      UnmovedCount(list[..last], moved);
      var key := list[last].key;
      KeySetIff(list[..last], key);
      OneMoreKey(moved, KeySet(list[..last]), key);
    }
  }

  lemma {:induction false} UnmovedAppend(a: seq<Row>, b: seq<Row>, moved: set<string>)
    ensures Unmoved(a + b, moved) == Unmoved(a, moved) + Unmoved(b, moved)
  {
    if b == [] {
      assert a + b == a;
    } else {
      assert (a + b)[..|a + b| - 1] == a + b[..|b| - 1];
      UnmovedAppend(a, b[..|b| - 1], moved);
    }
  }

  lemma SubsetSize(a: set<string>, b: set<string>)
    requires a <= b
    ensures |a| <= |b|
  {
    assert b == a + (b - a);
  }

  lemma KeySetPrefix(a: seq<Row>, p: nat)
    requires p <= |a|
    ensures KeySet(a[..p]) <= KeySet(a)
  {
    forall key | key in KeySet(a[..p]) ensures key in KeySet(a) {
      KeySetIff(a[..p], key);
      KeySetIff(a, key);
      var i :| 0 <= i < p && a[..p][i].key == key;
      assert a[i].key == key;
    }
  }

  lemma UnmovedAt(a: seq<Row>, moved: set<string>, p: nat)
    requires p < |a| && a[p].key !in moved
    ensures At(Unmoved(a, moved), a[p], |Unmoved(a[..p], moved)|)
  {
    var before, x, after := a[..p], a[p], a[p + 1..];
    assert a == before + [x] + after;
    UnmovedAppend(before + [x], after, moved);
    assert (before + [x])[..p] == before;
  }

  /** A node that does not move itself never comes closer to the front. */
  lemma PositionGrows(a: seq<Row>, b: seq<Row>, moved: set<string>, p: nat) returns (q: nat)
    requires Keyed(a) && FrontMoves(a, b, moved) && p < |a| && a[p].key !in moved
    ensures p <= q && At(b, a[p], q)
  {
    var front :| b == front + Unmoved(a, moved) && moved * KeySet(a) <= KeySet(front);
    UnmovedAt(a, moved, p);
    UnmovedCount(a[..p], moved);
    KeySetPrefix(a, p);
    SubsetSize(moved * KeySet(a[..p]), KeySet(front));
    q := |front| + |Unmoved(a[..p], moved)|;
  }

  lemma {:induction false} KeySetAppend(a: seq<Row>, b: seq<Row>)
    ensures KeySet(a + b) == KeySet(a) + KeySet(b)
  {
    if b == [] {
      assert a + b == a;
    } else {
      assert (a + b)[..|a + b| - 1] == a + b[..|b| - 1];
      KeySetAppend(a, b[..|b| - 1]);
    }
  }

  lemma {:induction false} UnmovedKeys(a: seq<Row>, moved: set<string>)
    ensures KeySet(Unmoved(a, moved)) == KeySet(a) - moved
  {
    if a != [] {
      var front, x := a[..|a| - 1], a[|a| - 1];
      UnmovedKeys(front, moved);
      KeySetAppend(Unmoved(front, moved), [x]);
      assert KeySet([x]) == {x.key} by { assert [x][..0] == []; }
      assert Unmoved(front, moved) + [] == Unmoved(front, moved);
    }
  }

  lemma KeysGrow(a: seq<Row>, b: seq<Row>, moved: set<string>)
    requires FrontMoves(a, b, moved)
    ensures KeySet(a) <= KeySet(b)
  {
    var front :| b == front + Unmoved(a, moved) && moved * KeySet(a) <= KeySet(front);
    UnmovedKeys(a, moved);
    KeySetAppend(front, Unmoved(a, moved));
  }

  // ---- the paging theorem ----

  /** A list that only ever moves or gains rows at the front, at most `ceiling` long. */
  ghost predicate Feed(lists: nat -> seq<Row>, moved: nat -> set<string>, ceiling: nat) {
    && (forall k: nat :: Keyed(lists(k)) && |lists(k)| <= ceiling)
    && forall k: nat :: FrontMoves(lists(k), lists(k + 1), moved(k))
  }

  ghost predicate NeverMoves(moved: nat -> set<string>, key: string) { forall k: nat :: key !in moved(k) }

  lemma PageAt(list: seq<Row>, offset: nat, limit: nat, cap: nat, p: nat)
    requires limit <= cap && offset <= p < |list|
    ensures p < offset + limit ==> list[p] in Page(list, offset, limit, cap)
    ensures p >= offset + limit ==> |Page(list, offset, limit, cap)| == limit
  {
    if p < offset + limit { assert Page(list, offset, limit, cap)[p - offset] == list[p]; }
  }

  /** A node still ahead of the reading position is read by some later page. */
  lemma {:induction false} CollectFinds(lists: nat -> seq<Row>, moved: nat -> set<string>, cap: nat, pageSize: nat,
                                        safetyCap: nat, k: nat, offset: nat, x: Row, p: nat)
    requires 0 < pageSize <= cap && Feed(lists, moved, safetyCap) && NeverMoves(moved, x.key)
    requires At(lists(k), x, p) && offset <= p
    ensures var r := Collect(Serve(lists, cap), pageSize, safetyCap, k, offset); r.Some? && x in r.value
    decreases safetyCap - offset
  {
    PageAt(lists(k), offset, pageSize, cap, p);
    if p >= offset + pageSize {
      var q := NextPosition(lists, moved, safetyCap, k, x, p);
      CollectFinds(lists, moved, cap, pageSize, safetyCap, k + 1, offset + pageSize, x, q);
    } else {
      assert Serve(lists, cap)(k, offset, pageSize) == Some(Page(lists(k), offset, pageSize, cap));
      CollectSome(lists, cap, pageSize, safetyCap, k, offset);
    }
  }

  lemma NextPosition(lists: nat -> seq<Row>, moved: nat -> set<string>, ceiling: nat, k: nat, x: Row, p: nat)
    returns (q: nat)
    requires Feed(lists, moved, ceiling) && NeverMoves(moved, x.key) && At(lists(k), x, p)
    ensures p <= q && At(lists(k + 1), x, q) && p < ceiling
  {
    assert Keyed(lists(k)) && |lists(k)| <= ceiling;
    assert FrontMoves(lists(k), lists(k + 1), moved(k)) && x.key !in moved(k);
    q := PositionGrows(lists(k), lists(k + 1), moved(k), p);
  }

  lemma {:induction false} CollectSome(
      lists: nat -> seq<Row>, cap: nat, pageSize: nat, safetyCap: nat, k: nat, offset: nat)
    requires pageSize > 0
    ensures Collect(Serve(lists, cap), pageSize, safetyCap, k, offset).Some?
    decreases safetyCap - offset
  {
    if offset < safetyCap { CollectSome(lists, cap, pageSize, safetyCap, k + 1, offset + pageSize); }
  }

  /** Every collected row stands in the list of some request at or after the k-th. */
  ghost predicate Listed(lists: nat -> seq<Row>, row: Row, from: nat, to: nat) {
    exists j: nat :: from <= j <= to && row in lists(j)
  }

  lemma {:induction false} CollectListed(lists: nat -> seq<Row>, cap: nat, pageSize: nat, safetyCap: nat,
                                         k: nat, offset: nat, last: nat)
    requires pageSize > 0 && last >= k + safetyCap - offset
    ensures var r := Collect(Serve(lists, cap), pageSize, safetyCap, k, offset);
            r.Some? ==> forall row :: row in r.value ==> Listed(lists, row, k, last)
    decreases safetyCap - offset
  {
    if offset < safetyCap {
      CollectListed(lists, cap, pageSize, safetyCap, k + 1, offset + pageSize, last);
      var page := Page(lists(k), offset, pageSize, cap);
      assert Serve(lists, cap)(k, offset, pageSize) == Some(page);
      forall row | row in page ensures Listed(lists, row, k, last) { assert row in lists(k); }
      forall row | Listed(lists, row, k + 1, last) ensures Listed(lists, row, k, last) {
        var j: nat :| k + 1 <= j <= last && row in lists(j);
      }
    }
  }

  lemma {:induction false} KeysGrowTo(
      lists: nat -> seq<Row>, moved: nat -> set<string>, ceiling: nat, j: nat, last: nat)
    requires Feed(lists, moved, ceiling) && j <= last
    ensures KeySet(lists(j)) <= KeySet(lists(last))
    decreases last - j
  {
    if j < last {
      assert FrontMoves(lists(j), lists(j + 1), moved(j));
      KeysGrow(lists(j), lists(j + 1), moved(j));
      KeysGrowTo(lists, moved, ceiling, j + 1, last);
    }
  }

  /** In every later list the node is still there, unchanged, and is the only row with its key. */
  lemma {:induction false} StaysListed(
      lists: nat -> seq<Row>, moved: nat -> set<string>, ceiling: nat, x: Row, p: nat, k: nat)
    requires Feed(lists, moved, ceiling) && NeverMoves(moved, x.key) && At(lists(0), x, p)
    ensures x in lists(k) && forall row :: row in lists(k) && row.key == x.key ==> row == x
  {
    assert Keyed(lists(k));
    if k > 0 {
      StaysListed(lists, moved, ceiling, x, p, k - 1);
      var q :| 0 <= q < |lists(k - 1)| && lists(k - 1)[q] == x;
      assert Keyed(lists(k - 1)) && FrontMoves(lists(k - 1), lists(k - 1 + 1), moved(k - 1)) && x.key !in moved(k - 1);
      var _ := PositionGrows(lists(k - 1), lists(k), moved(k - 1), q);
    }
  }

  lemma {:induction false} DistinctSize(s: seq<string>, keys: set<string>)
    requires Distinct(s) && forall i :: 0 <= i < |s| ==> s[i] in keys
    ensures |s| <= |keys|
  {
    if s != [] {
      var last := |s| - 1;
      DistinctSize(s[..last], keys - {s[last]});
    }
  }

  /** All collected rows are keyed, and their keys fit under the ceiling. */
  lemma CollectedKeys(
      lists: nat -> seq<Row>, moved: nat -> set<string>, cap: nat, pageSize: nat, safetyCap: nat, rows: seq<Row>)
    requires pageSize > 0 && Feed(lists, moved, safetyCap)
    requires Collect(Serve(lists, cap), pageSize, safetyCap, 0, 0) == Some(rows)
    ensures forall i :: 0 <= i < |rows| ==> rows[i].key != "" && rows[i].key in KeySet(lists(safetyCap))
    ensures |IndexOf(rows).order| <= safetyCap
  {
    CollectListed(lists, cap, pageSize, safetyCap, 0, 0, safetyCap);
    forall i | 0 <= i < |rows| ensures rows[i].key != "" && rows[i].key in KeySet(lists(safetyCap)) {
      assert Listed(lists, rows[i], 0, safetyCap);
      var j: nat :| j <= safetyCap && rows[i] in lists(j);
      assert Keyed(lists(j));
      KeySetIff(lists(j), rows[i].key);
      KeysGrowTo(lists, moved, safetyCap, j, safetyCap);
    }
    IndexCoherent(rows);
    var order := IndexOf(rows).order;
    forall i | 0 <= i < |order| ensures order[i] in KeySet(lists(safetyCap)) {
      assert order[i] in order;
      IndexLatest(rows, order[i]);
    }
    DistinctSize(order, KeySet(lists(safetyCap)));
    assert Keyed(lists(safetyCap)) && |lists(safetyCap)| <= safetyCap;
  }

  /** Exactly one row of `nodes` has the key of `x`, and it is `x`. */
  ghost predicate ReturnedOnce(nodes: seq<Row>, x: Row) {
    exists i :: At(nodes, x, i) && forall j :: 0 <= j < |nodes| && nodes[j].key == x.key ==> j == i
  }

  /** The row filed under the key of an unmoved node is that node. */
  lemma OneRowPerKey(lists: nat -> seq<Row>, moved: nat -> set<string>, cap: nat, pageSize: nat,
                     safetyCap: nat, rows: seq<Row>, x: Row, p: nat)
    requires pageSize > 0 && Feed(lists, moved, safetyCap)
    requires At(lists(0), x, p) && NeverMoves(moved, x.key)
    requires Collect(Serve(lists, cap), pageSize, safetyCap, 0, 0) == Some(rows)
    requires x.key in IndexOf(rows).values
    ensures IndexOf(rows).values[x.key] == x
  {
    CollectedKeys(lists, moved, cap, pageSize, safetyCap, rows);
    IndexLatest(rows, x.key);
    var row := IndexOf(rows).values[x.key];
    var i :| 0 <= i < |rows| && MapKey(rows[i], i) == x.key && rows[i] == row;
    CollectListed(lists, cap, pageSize, safetyCap, 0, 0, safetyCap);
    assert Listed(lists, row, 0, safetyCap);
    var j: nat :| j <= safetyCap && row in lists(j);
    StaysListed(lists, moved, safetyCap, x, p, j);
  }

  lemma IndexedOnce(rows: seq<Row>, x: Row)
    requires forall i :: 0 <= i < |rows| ==> rows[i].key != ""
    requires x.key in IndexOf(rows).values && IndexOf(rows).values[x.key] == x
    ensures Coherent(IndexOf(rows)) && ReturnedOnce(Rows(IndexOf(rows)), x)
  {
    IndexCoherent(rows);
    var ix := IndexOf(rows);
    var nodes := Rows(ix);
    var i :| 0 <= i < |ix.order| && ix.order[i] == x.key;
    assert At(nodes, x, i);
    forall j | 0 <= j < |nodes| && nodes[j].key == x.key ensures j == i {
      assert ix.order[j] in ix.order;
      IndexLatest(rows, ix.order[j]);
      assert ix.order[j] == x.key;
    }
  }

  lemma UnderCeiling(server: Server, pageSize: nat, safetyCap: nat, rows: seq<Row>)
    requires pageSize > 0 && Collect(server, pageSize, safetyCap, 0, 0) == Some(rows)
    requires |IndexOf(rows).order| <= safetyCap
    ensures Coherent(IndexOf(rows)) && Fetched(server, pageSize, safetyCap) == Some(Rows(IndexOf(rows)))
  {
    IndexCoherent(rows);
    var nodes := Rows(IndexOf(rows));
    assert nodes[..|nodes|] == nodes;
  }

  /** Paging over a moving list: every node of the first list that does not move itself is returned
      exactly once, provided the server's cap is at least the page size and no list outgrows the ceiling. */
  lemma UnmovedNodesReturnedOnce(lists: nat -> seq<Row>, moved: nat -> set<string>, cap: nat, pageSize: nat,
                                 safetyCap: nat, x: Row, p: nat)
    requires 0 < pageSize <= cap && Feed(lists, moved, safetyCap)
    requires At(lists(0), x, p) && NeverMoves(moved, x.key)
    ensures var r := Fetched(Serve(lists, cap), pageSize, safetyCap); r.Some? && ReturnedOnce(r.value, x)
  {
    var server := Serve(lists, cap);
    CollectFinds(lists, moved, cap, pageSize, safetyCap, 0, 0, x, p);
    var rows := Collect(server, pageSize, safetyCap, 0, 0).value;
    CollectedKeys(lists, moved, cap, pageSize, safetyCap, rows);
    var m :| 0 <= m < |rows| && rows[m] == x;
    IndexComplete(rows, m);
    OneRowPerKey(lists, moved, cap, pageSize, safetyCap, rows, x, p);
    IndexedOnce(rows, x);
    UnderCeiling(server, pageSize, safetyCap, rows);
  }

  // ---- a list that stands still ----

  lemma {:induction false} DistinctRowsKept(rows: seq<Row>)
    requires Keyed(rows)
    ensures Coherent(IndexOf(rows)) && Rows(IndexOf(rows)) == rows
  {
    IndexCoherent(rows);
    if rows != [] {
      var front, x := rows[..|rows| - 1], rows[|rows| - 1];
      DistinctRowsKept(front);
      IndexCoherent(front);
      var ix := IndexOf(front);
      if x.key in ix.values {
        IndexLatest(front, x.key);
        assert false;
      }
      assert IndexOf(rows).order == ix.order + [x.key];
      forall i | 0 <= i < |ix.order| ensures Rows(IndexOf(rows))[i] == front[i] {
        assert ix.order[i] in ix.order;
        assert Rows(ix)[i] == front[i];
      }
    }
  }

  /** From any offset, full pages are read up to the end of the list or past the ceiling. */
  lemma {:induction false} StaticCollect(
      list: seq<Row>, cap: nat, pageSize: nat, safetyCap: nat, k: nat, offset: nat)
    returns (n: nat)
    requires 0 < pageSize <= cap && offset <= |list|
    ensures offset <= n <= |list| && Min(|list|, safetyCap) <= n
    ensures Collect(Serve(_ => list, cap), pageSize, safetyCap, k, offset) == Some(list[offset..n])
    decreases safetyCap - offset
  {
    if offset >= safetyCap {
      n := offset;
      assert list[offset..n] == [];
    } else {
      var page := Page(list, offset, pageSize, cap);
      assert Serve(_ => list, cap)(k, offset, pageSize) == Some(page);
      if |page| < pageSize {
        n := |list|;
        assert page == list[offset..n];
      } else {
        n := StaticCollect(list, cap, pageSize, safetyCap, k + 1, offset + pageSize);
        assert page + list[offset + pageSize..n] == list[offset..n];
      }
    }
  }

  lemma KeyedPrefix(list: seq<Row>, n: nat)
    requires Keyed(list) && n <= |list|
    ensures Keyed(list[..n])
  {}

  /** What a list that stands still yields: everything up to the ceiling, unless the server's cap is
      below the page size; then the first page already looks like the last. */
  lemma StaticFetch(list: seq<Row>, cap: nat, pageSize: nat, safetyCap: nat)
    requires pageSize > 0 && Keyed(list)
    ensures Fetched(Serve(_ => list, cap), pageSize, safetyCap)
            == Some(list[..Min(Min(|list|, safetyCap), if cap < pageSize then cap else |list|)])
  {
    var server := Serve(_ => list, cap);
    var n;
    if pageSize <= cap {
      n := StaticCollect(list, cap, pageSize, safetyCap, 0, 0);
      assert list[0..n] == list[..n];
    } else {
      n := if safetyCap == 0 then 0 else Min(cap, |list|);
      assert server(0, 0, pageSize) == Some(Page(list, 0, pageSize, cap));
      assert Page(list, 0, pageSize, cap) == list[..Min(cap, |list|)];
    }
    assert Collect(server, pageSize, safetyCap, 0, 0) == Some(list[..n]);
    KeyedPrefix(list, n);
    DistinctRowsKept(list[..n]);
    assert list[..n][..Min(n, safetyCap)] == list[..Min(n, safetyCap)];
  }

  /** The fetch is complete exactly if the list fits under the ceiling and either the page size
      respects the server's cap or one response holds everything. */
  lemma CompleteIff(list: seq<Row>, cap: nat, pageSize: nat, safetyCap: nat)
    requires pageSize > 0 && Keyed(list)
    ensures Fetched(Serve(_ => list, cap), pageSize, safetyCap) == Some(list)
            <==> |list| <= safetyCap && (pageSize <= cap || |list| <= cap)
  {
    StaticFetch(list, cap, pageSize, safetyCap);
    var n := Min(Min(|list|, safetyCap), if cap < pageSize then cap else |list|);
    if n == |list| { assert list[..n] == list; }
  }

  // ---- exactly which requests are made, and which rows are read ----

  function Answer(server: Server, pageSize: nat, k: nat): (r: Option<seq<Row>>) { server(k, k * pageSize, pageSize) }

  /** The k-th request is made: it stays below the ceiling, and all answers before it were full pages. */
  ghost predicate Asked(server: Server, pageSize: nat, safetyCap: nat, from: nat, k: nat) {
    && from <= k && k * pageSize < safetyCap
    && forall j: nat | from <= j < k :: FullAnswer(server, pageSize, j)
  }

  predicate FullAnswer(server: Server, pageSize: nat, j: nat) {
    Answer(server, pageSize, j).Some? && |Answer(server, pageSize, j).value| >= pageSize
  }

  /** Some request that is made fails. */
  ghost predicate Fails(server: Server, pageSize: nat, safetyCap: nat, from: nat) {
    exists k: nat :: Asked(server, pageSize, safetyCap, from, k) && Answer(server, pageSize, k).None?
  }

  /** Some request that is made is answered with the row. */
  ghost predicate Answered(server: Server, pageSize: nat, safetyCap: nat, from: nat, x: Row) {
    exists k: nat :: Asked(server, pageSize, safetyCap, from, k) && InAnswer(server, pageSize, k, x)
  }

  predicate InAnswer(server: Server, pageSize: nat, k: nat, x: Row) {
    Answer(server, pageSize, k).Some? && x in Answer(server, pageSize, k).value
  }

  lemma Below(a: nat, b: nat, m: nat)
    requires a <= b
    ensures a * m <= b * m
  {
  }

  lemma NothingAsked(server: Server, pageSize: nat, safetyCap: nat, from: nat)
    requires from * pageSize >= safetyCap
    ensures !Fails(server, pageSize, safetyCap, from)
    ensures forall x :: !Answered(server, pageSize, safetyCap, from, x)
  {
    forall k: nat ensures !Asked(server, pageSize, safetyCap, from, k) {
      if from <= k { Below(from, k, pageSize); }
    }
  }

  /** A later request is made exactly if this answer is a full page and the request is made after it. */
  lemma AskedOn(server: Server, pageSize: nat, safetyCap: nat, from: nat, k: nat)
    requires from < k
    ensures Asked(server, pageSize, safetyCap, from, k)
            <==> FullAnswer(server, pageSize, from) && Asked(server, pageSize, safetyCap, from + 1, k)
  {
  }

  lemma FailsOn(server: Server, pageSize: nat, safetyCap: nat, from: nat)
    requires from * pageSize < safetyCap
    ensures Fails(server, pageSize, safetyCap, from)
            <==> || Answer(server, pageSize, from).None?
                 || (FullAnswer(server, pageSize, from) && Fails(server, pageSize, safetyCap, from + 1))
  {
    if Answer(server, pageSize, from).None? {
      assert Asked(server, pageSize, safetyCap, from, from);
    }
    if FullAnswer(server, pageSize, from) && Fails(server, pageSize, safetyCap, from + 1) {
      var k: nat :| Asked(server, pageSize, safetyCap, from + 1, k) && Answer(server, pageSize, k).None?;
      AskedOn(server, pageSize, safetyCap, from, k);
    }
    if Fails(server, pageSize, safetyCap, from) && Answer(server, pageSize, from).Some? {
      var k: nat :| Asked(server, pageSize, safetyCap, from, k) && Answer(server, pageSize, k).None?;
      AskedOn(server, pageSize, safetyCap, from, k);
    }
  }

  lemma AnsweredOn(server: Server, pageSize: nat, safetyCap: nat, from: nat, x: Row)
    requires from * pageSize < safetyCap
    ensures Answered(server, pageSize, safetyCap, from, x)
            <==> || InAnswer(server, pageSize, from, x)
                 || (FullAnswer(server, pageSize, from) && Answered(server, pageSize, safetyCap, from + 1, x))
  {
    if InAnswer(server, pageSize, from, x) {
      assert Asked(server, pageSize, safetyCap, from, from);
    }
    if FullAnswer(server, pageSize, from) && Answered(server, pageSize, safetyCap, from + 1, x) {
      var k: nat :| Asked(server, pageSize, safetyCap, from + 1, k) && InAnswer(server, pageSize, k, x);
      AskedOn(server, pageSize, safetyCap, from, k);
    }
    if Answered(server, pageSize, safetyCap, from, x) && !InAnswer(server, pageSize, from, x) {
      var k: nat :| Asked(server, pageSize, safetyCap, from, k) && InAnswer(server, pageSize, k, x);
      AskedOn(server, pageSize, safetyCap, from, k);
    }
  }

  lemma {:induction false} CollectFails(server: Server, pageSize: nat, safetyCap: nat, k: nat, offset: nat)
    requires pageSize > 0 && offset == k * pageSize
    ensures Collect(server, pageSize, safetyCap, k, offset) == None <==> Fails(server, pageSize, safetyCap, k)
    decreases safetyCap - offset
  {
    if offset >= safetyCap {
      NothingAsked(server, pageSize, safetyCap, k);
    } else {
      assert (k + 1) * pageSize == offset + pageSize;
      CollectFails(server, pageSize, safetyCap, k + 1, offset + pageSize);
      FailsOn(server, pageSize, safetyCap, k);
    }
  }

  lemma {:induction false} CollectHolds(server: Server, pageSize: nat, safetyCap: nat, k: nat, offset: nat, x: Row)
    requires pageSize > 0 && offset == k * pageSize && Collect(server, pageSize, safetyCap, k, offset).Some?
    ensures x in Collect(server, pageSize, safetyCap, k, offset).value <==> Answered(server, pageSize, safetyCap, k, x)
    decreases safetyCap - offset
  {
    if offset >= safetyCap {
      NothingAsked(server, pageSize, safetyCap, k);
    } else {
      AnsweredOn(server, pageSize, safetyCap, k, x);
      if FullAnswer(server, pageSize, k) {
        assert (k + 1) * pageSize == offset + pageSize;
        CollectHolds(server, pageSize, safetyCap, k + 1, offset + pageSize, x);
      }
    }
  }

  /** For every server: the fetch fails exactly if some request that is actually made fails. */
  lemma FetchFailsIff(server: Server, pageSize: nat, safetyCap: nat)
    requires pageSize > 0
    ensures Fetched(server, pageSize, safetyCap) == None <==> Fails(server, pageSize, safetyCap, 0)
  {
    CollectFails(server, pageSize, safetyCap, 0, 0);
    if Collect(server, pageSize, safetyCap, 0, 0).Some? {
      IndexCoherent(Collect(server, pageSize, safetyCap, 0, 0).value);
    }
  }

  /** The k-th request of a serving list is made: below the ceiling, and after full pages only. */
  ghost predicate Requested(lists: nat -> seq<Row>, cap: nat, pageSize: nat, safetyCap: nat, k: nat) {
    k * pageSize < safetyCap && forall j: nat | j < k :: FullPage(lists, cap, pageSize, j)
  }

  ghost predicate FullPage(lists: nat -> seq<Row>, cap: nat, pageSize: nat, j: nat) {
    pageSize <= cap && j * pageSize + pageSize <= |lists(j)|
  }

  /** At the k-th request the row stands in the part of the list that the server sends. */
  ghost predicate InWindow(lists: nat -> seq<Row>, cap: nat, pageSize: nat, k: nat, x: Row) {
    exists p: nat :: k * pageSize <= p < k * pageSize + Min(pageSize, cap) && At(lists(k), x, p)
  }

  lemma PageWindow(list: seq<Row>, offset: nat, limit: nat, cap: nat, x: Row)
    ensures x in Page(list, offset, limit, cap)
            <==> exists p: nat :: offset <= p < offset + Min(limit, cap) && At(list, x, p)
    ensures |Page(list, offset, limit, cap)| >= limit <==> limit == 0 || (limit <= cap && offset + limit <= |list|)
  {
    var page := Page(list, offset, limit, cap);
    if x in page {
      var i :| 0 <= i < |page| && page[i] == x;
      assert At(list, x, offset + i);
    }
    forall p: nat | offset <= p < offset + Min(limit, cap) && At(list, x, p) ensures x in page {
      assert page[p - offset] == x;
    }
  }

  lemma ServeWindow(lists: nat -> seq<Row>, cap: nat, pageSize: nat, k: nat, x: Row)
    requires pageSize > 0
    ensures FullAnswer(Serve(lists, cap), pageSize, k) <==> FullPage(lists, cap, pageSize, k)
    ensures InAnswer(Serve(lists, cap), pageSize, k, x) <==> InWindow(lists, cap, pageSize, k, x)
    ensures Answer(Serve(lists, cap), pageSize, k).Some?
  {
    PageWindow(lists(k), k * pageSize, pageSize, cap, x);
  }

  /** Whatever the list does between requests, a row is collected exactly if at some request that is
      actually made it stands in that request's window. A node that moves or is behind a deleted row is
      missed exactly if its position is outside the window each time. */
  lemma CollectedIff(lists: nat -> seq<Row>, cap: nat, pageSize: nat, safetyCap: nat, x: Row)
    requires pageSize > 0
    ensures var r := Collect(Serve(lists, cap), pageSize, safetyCap, 0, 0);
            && r.Some?
            && (x in r.value
                <==> exists k: nat ::
                       Requested(lists, cap, pageSize, safetyCap, k) && InWindow(lists, cap, pageSize, k, x))
  {
    var server := Serve(lists, cap);
    forall k: nat
      ensures FullAnswer(server, pageSize, k) <==> FullPage(lists, cap, pageSize, k)
      ensures InAnswer(server, pageSize, k, x) <==> InWindow(lists, cap, pageSize, k, x)
      ensures Answer(server, pageSize, k).Some?
    {
      ServeWindow(lists, cap, pageSize, k, x);
    }
    CollectFails(server, pageSize, safetyCap, 0, 0);
    CollectHolds(server, pageSize, safetyCap, 0, 0, x);
    forall k: nat ensures Asked(server, pageSize, safetyCap, 0, k) <==> Requested(lists, cap, pageSize, safetyCap, k) {}
  }

  // ---- both side conditions on the list are needed ----

  lemma FullThenMore(server: Server, pageSize: nat, safetyCap: nat, k: nat, offset: nat, page: seq<Row>, rest: seq<Row>)
    requires offset < safetyCap && pageSize > 0 && server(k, offset, pageSize) == Some(page) && |page| == pageSize
    requires Collect(server, pageSize, safetyCap, k + 1, offset + pageSize) == Some(rest)
    ensures Collect(server, pageSize, safetyCap, k, offset) == Some(page + rest)
  {
  }

  lemma OneNode(a: Row, rows: seq<Row>)
    requires a.key != "" && (rows == [a] || rows == [a, a])
    ensures IndexOf(rows) == Index([a.key], map[a.key := a])
  {
    assert IndexOf([a]) == Index([a.key], map[a.key := a]) by { assert [a][..0] == []; }
    if rows == [a, a] {
      assert rows[..1] == [a];
      assert IndexOf(rows) == Insert(IndexOf([a]), a.key, a);
    }
  }

  lemma TwoRequests(lists: nat -> seq<Row>, a: Row)
    requires a.key != ""
    requires Page(lists(0), 0, 1, 1) == [a]
    requires Page(lists(1), 1, 1, 1) == [] || (Page(lists(1), 1, 1, 1) == [a] && Page(lists(2), 2, 1, 1) == [])
    ensures Fetched(Serve(lists, 1), 1, 10) == Some([a])
  {
    var server := Serve(lists, 1);
    assert server(0, 0, 1) == Some(Page(lists(0), 0, 1, 1));
    assert server(1, 1, 1) == Some(Page(lists(1), 1, 1, 1));
    var rest: seq<Row> := Page(lists(1), 1, 1, 1);
    if rest == [a] {
      assert server(2, 2, 1) == Some(Page(lists(2), 2, 1, 1));
      assert Collect(server, 1, 10, 2, 2) == Some([]);
      FullThenMore(server, 1, 10, 1, 1, [a], []);
      assert [a] + [] == [a];
    }
    FullThenMore(server, 1, 10, 0, 0, [a], rest);
    OneFetched(server, a, [a] + rest);
  }

  lemma OneFetched(server: Server, a: Row, rows: seq<Row>)
    requires a.key != "" && (rows == [a] || rows == [a, a]) && Collect(server, 1, 10, 0, 0) == Some(rows)
    ensures Fetched(server, 1, 10) == Some([a])
  {
    OneNode(a, rows);
    UnderCeiling(server, 1, 10, rows);
    assert Rows(IndexOf(rows)) == [a];
  }

  /** A node that moves to the front between two requests can be missed. */
  lemma MovedNodeMissed(a: Row, b: Row)
    requires a.key != "" && b.key != "" && a.key != b.key
    ensures Fetched(Serve(k => if k == 0 then [a, b] else [b, a], 1), 1, 10) == Some([a])
  {
    TwoRequests(k => if k == 0 then [a, b] else [b, a], a);
  }

  /** A node behind a row that is deleted between two requests can be missed. */
  lemma DeletionHidesNode(a: Row, b: Row)
    requires a.key != "" && b.key != "" && a.key != b.key
    ensures Fetched(Serve(k => if k == 0 then [a, b] else [b], 1), 1, 10) == Some([a])
  {
    TwoRequests(k => if k == 0 then [a, b] else [b], a);
  }
}
