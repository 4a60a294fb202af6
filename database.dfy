/** The extraction store of `src-tauri/src/database.rs`: the `files` and
    `extracted_items` tables of an in-memory SQLite database, with their
    AUTOINCREMENT ids, and the two aggregate queries the command layer runs. */
module Database {
  import opened Text
  import opened Models

  /** One row of `files`; `processed_at` holds the CURRENT_TIMESTAMP default. */
  datatype FileRow = FileRow(id: int, fileName: string, sourceId: int, content: string, processedAt: string)

  /** One row of `extracted_items`; `item_type` is free text ("phone", "email", "ip"). */
  datatype ItemRow = ItemRow(id: int, value: string, itemType: string, sourceId: int, fileId: int)

  /** AUTOINCREMENT: ids grow along the table and stay below the next id to hand out. */
  ghost predicate FileIdsBelow(files: seq<FileRow>, next: int)
  {
    && next > 0
    && (forall k :: 0 <= k < |files| ==> 0 < files[k].id < next)
    && (forall i, j :: 0 <= i < j < |files| ==> files[i].id < files[j].id)
  }

  ghost predicate ItemIdsBelow(items: seq<ItemRow>, next: int)
  {
    && next > 0
    && (forall k :: 0 <= k < |items| ==> 0 < items[k].id < next)
    && (forall i, j :: 0 <= i < j < |items| ==> items[i].id < items[j].id)
  }

  // ---------------------------------------------------------------------------
  // Result order: count descending, then value in byte order (the source id
  // breaks the ties SQL leaves open)

  predicate Before(a: ExtractedItem, b: ExtractedItem)
  {
    || a.count > b.count
    || (a.count == b.count && LexLess(a.value, b.value))
    || (a.count == b.count && a.value == b.value && a.source < b.source)
  }

  predicate SameKey(a: ExtractedItem, b: ExtractedItem)
  {
    a.count == b.count && a.value == b.value && a.source == b.source
  }

  lemma BeforeIrreflexive(a: ExtractedItem)
    ensures !Before(a, a)
  {
    LexLessIrreflexive(a.value);
  }

  lemma BeforeTotal(a: ExtractedItem, b: ExtractedItem)
    requires !SameKey(a, b)
    ensures Before(a, b) || Before(b, a)
  {
    LexLessTotal(a.value, b.value);
  }

  lemma BeforeTransitive(a: ExtractedItem, b: ExtractedItem, c: ExtractedItem)
    requires Before(a, b) && Before(b, c)
    ensures Before(a, c)
  {
    if a.count == b.count == c.count {
      if LexLess(a.value, b.value) && LexLess(b.value, c.value) {
        LexLessTransitive(a.value, b.value, c.value);
      }
    }
  }

  predicate StrictlySorted(s: seq<ExtractedItem>)
  {
    forall i, j :: 0 <= i < j < |s| ==> Before(s[i], s[j])
  }

  predicate DistinctKeys(s: seq<ExtractedItem>)
  {
    forall i, j :: 0 <= i < j < |s| ==> !SameKey(s[i], s[j])
  }

  lemma HeadBeforeRest(s: seq<ExtractedItem>)
    requires StrictlySorted(s) && |s| > 0
    ensures forall y :: y in s[1..] ==> Before(s[0], y)
  {
    forall y | y in s[1..] ensures Before(s[0], y) {
      var j :| 0 <= j < |s[1..]| && s[1..][j] == y;
      assert s[j + 1] == y;
    }
  }

  lemma BeforeAll(x: ExtractedItem, s: seq<ExtractedItem>)
    requires StrictlySorted(s) && |s| > 0 && Before(x, s[0])
    ensures forall y :: y in s ==> Before(x, y)
  {
    HeadBeforeRest(s);
    forall y | y in s ensures Before(x, y) {
      if y != s[0] {
        assert s == [s[0]] + s[1..];
        BeforeTransitive(x, s[0], y);
      }
    }
  }

  lemma ConsSorted(a: ExtractedItem, s: seq<ExtractedItem>)
    requires StrictlySorted(s)
    requires forall y :: y in s ==> Before(a, y)
    ensures StrictlySorted([a] + s)
  {
    var r := [a] + s;
    forall i, j | 0 <= i < j < |r| ensures Before(r[i], r[j]) {
      assert r[j] == s[j - 1];
      if i == 0 { assert s[j - 1] in s; } else { assert r[i] == s[i - 1]; }
    }
  }

  lemma HeadKeyUnique(s: seq<ExtractedItem>)
    requires DistinctKeys(s) && |s| > 0
    ensures DistinctKeys(s[1..])
    ensures forall y :: y in s[1..] ==> !SameKey(s[0], y)
  {
    forall y | y in s[1..] ensures !SameKey(s[0], y) {
      var j :| 0 <= j < |s[1..]| && s[1..][j] == y;
      assert s[j + 1] == y;
    }
    forall i, j | 0 <= i < j < |s[1..]| ensures !SameKey(s[1..][i], s[1..][j]) {
      assert s[1..][i] == s[i + 1] && s[1..][j] == s[j + 1];
    }
  }

  /** Inserts `x` into a sorted sequence whose keys all differ from its own. */
  function Insert(x: ExtractedItem, s: seq<ExtractedItem>): (r: seq<ExtractedItem>)
    requires StrictlySorted(s)
    requires forall y :: y in s ==> !SameKey(x, y)
    ensures forall y :: y in r <==> y == x || y in s
    ensures StrictlySorted(r)
    ensures multiset(r) == multiset(s) + multiset{x}
  {
    if |s| == 0 then [x]
    else if Before(s[0], x) then
      assert s == [s[0]] + s[1..];
      assert forall y :: y in s[1..] ==> y in s;
      var rest := Insert(x, s[1..]);
      HeadBeforeRest(s);
      ConsSorted(s[0], rest);
      [s[0]] + rest
    else
      BeforeTotal(x, s[0]);
      BeforeAll(x, s);
      ConsSorted(x, s);
      [x] + s
  }

  /** The `ORDER BY` of both queries, on entries whose keys are distinct. */
  function SortItems(s: seq<ExtractedItem>): (r: seq<ExtractedItem>)
    requires DistinctKeys(s)
    ensures forall y :: y in r <==> y in s
    ensures StrictlySorted(r)
    ensures multiset(r) == multiset(s)
  {
    if |s| == 0 then []
    else
      HeadKeyUnique(s);
      var rest := SortItems(s[1..]);
      assert s == [s[0]] + s[1..];
      Insert(s[0], rest)
  }

  /** The SQL order: count descending, then value ascending. */
  lemma {:induction false} SortedByCountThenValue(s: seq<ExtractedItem>, i: int, j: int)
    requires StrictlySorted(s) && 0 <= i < j < |s|
    ensures s[i].count >= s[j].count
    ensures s[i].count == s[j].count ==> !LexLess(s[j].value, s[i].value)
    ensures !SameKey(s[i], s[j])
  {
    assert Before(s[i], s[j]);
    LexLessIrreflexive(s[i].value);
    if s[i].count == s[j].count && LexLess(s[i].value, s[j].value) {
      LexLessAsymmetric(s[i].value, s[j].value);
    }
  }

  // ---------------------------------------------------------------------------
  // get_extracted_items_by_type: GROUP BY value, source_id over one type

  /** The label of the result entries; any unrecognised type string reads as a phone. */
  function Label(itemType: string): (t: ItemType)
    ensures t == Email <==> itemType == "email"
    ensures t == Ip <==> itemType == "ip"
    ensures t == Phone <==> itemType != "email" && itemType != "ip"
  {
    if itemType == "phone" then Phone
    else if itemType == "email" then Email
    else if itemType == "ip" then Ip
    else Phone
  }

  predicate InGroup(r: ItemRow, t: string, v: string, s: int)
  {
    r.itemType == t && r.value == v && r.sourceId == s
  }

  /** `COUNT(*)` of one (value, source_id) group among the rows of type `t`. */
  function CountGroup(rows: seq<ItemRow>, t: string, v: string, s: int): nat
  {
    if |rows| == 0 then 0
    else CountGroup(rows[..|rows| - 1], t, v, s) + (if InGroup(rows[|rows| - 1], t, v, s) then 1 else 0)
  }

  lemma {:induction false} CountGroupPositive(rows: seq<ItemRow>, k: int)
    requires 0 <= k < |rows|
    ensures CountGroup(rows, rows[k].itemType, rows[k].value, rows[k].sourceId) > 0
  {
    if k < |rows| - 1 {
      CountGroupPositive(rows[..|rows| - 1], k);
    }
  }

  /** The distinct (value, source_id) pairs among the rows of type `t`. */
  function GroupKeys(rows: seq<ItemRow>, t: string): (keys: seq<(string, int)>)
    ensures forall v, s :: (v, s) in keys <==> CountGroup(rows, t, v, s) > 0
    ensures forall i, j :: 0 <= i < j < |keys| ==> keys[i] != keys[j]
  {
    if |rows| == 0 then []
    else
      var keys := GroupKeys(rows[..|rows| - 1], t);
      var r := rows[|rows| - 1];
      if r.itemType == t && (r.value, r.sourceId) !in keys then keys + [(r.value, r.sourceId)] else keys
  }

  function GroupEntries(rows: seq<ItemRow>, t: string, keys: seq<(string, int)>): (r: seq<ExtractedItem>)
    ensures |r| == |keys|
    ensures forall i :: 0 <= i < |r| ==> r[i] == ExtractedItem(keys[i].0, keys[i].1, CountGroup(rows, t, keys[i].0, keys[i].1), Label(t))
  {
    seq(|keys|, i requires 0 <= i < |keys| => ExtractedItem(keys[i].0, keys[i].1, CountGroup(rows, t, keys[i].0, keys[i].1), Label(t)))
  }

  function ItemsByType(rows: seq<ItemRow>, t: string): seq<ExtractedItem>
  {
    var entries := GroupEntries(rows, t, GroupKeys(rows, t));
    assert DistinctKeys(entries);
    SortItems(entries)
  }

  /** What the query promises: one entry per distinct (value, source_id) among
      the rows of that type, counting them, labelled, in SQL order. */
  ghost predicate ByTypeResult(rows: seq<ItemRow>, t: string, r: seq<ExtractedItem>)
  {
    && (forall i :: 0 <= i < |r| ==>
          r[i].itemType == Label(t) && r[i].count == CountGroup(rows, t, r[i].value, r[i].source) > 0)
    && (forall k :: 0 <= k < |rows| && rows[k].itemType == t ==>
          exists i :: 0 <= i < |r| && r[i].value == rows[k].value && r[i].source == rows[k].sourceId)
    && (forall i, j :: 0 <= i < j < |r| ==> (r[i].value, r[i].source) != (r[j].value, r[j].source))
    && (forall i, j :: 0 <= i < j < |r| ==>
          r[i].count >= r[j].count && (r[i].count == r[j].count ==> !LexLess(r[j].value, r[i].value)))
  }

  lemma ItemsByTypeIsGrouping(rows: seq<ItemRow>, t: string)
    ensures ByTypeResult(rows, t, ItemsByType(rows, t))
  {
    var keys := GroupKeys(rows, t);
    var entries := GroupEntries(rows, t, keys);
    var r := ItemsByType(rows, t);
    forall i | 0 <= i < |r|
      ensures r[i].itemType == Label(t) && r[i].count == CountGroup(rows, t, r[i].value, r[i].source) > 0
    {
      assert r[i] in entries;
      var e :| 0 <= e < |entries| && entries[e] == r[i];
      assert keys[e] in keys;
    }
    forall k | 0 <= k < |rows| && rows[k].itemType == t
      ensures exists i :: 0 <= i < |r| && r[i].value == rows[k].value && r[i].source == rows[k].sourceId
    {
      CountGroupPositive(rows, k);
      var key := (rows[k].value, rows[k].sourceId);
      assert key in keys;
      var e :| 0 <= e < |keys| && keys[e] == key;
      assert entries[e] in r;
    }
    forall i, j | 0 <= i < j < |r|
      ensures (r[i].value, r[i].source) != (r[j].value, r[j].source)
      ensures r[i].count >= r[j].count && (r[i].count == r[j].count ==> !LexLess(r[j].value, r[i].value))
    {
      SortedByCountThenValue(r, i, j);
    }
  }

  // ---------------------------------------------------------------------------
  // get_cross_reference_items

  /** The `EXISTS` filter: another row carries the same value from another source. */
  predicate HasOtherSource(rows: seq<ItemRow>, k: int)
    requires 0 <= k < |rows|
  {
    exists j :: 0 <= j < |rows| && rows[j].value == rows[k].value && rows[j].sourceId != rows[k].sourceId
  }

  /** The rows among the first `n` that pass the `EXISTS` filter, in table order. */
  function Passing(rows: seq<ItemRow>, n: nat): (p: seq<ItemRow>)
    requires n <= |rows|
    ensures forall x :: x in p ==> x in rows[..n]
  {
    if n == 0 then []
    else Passing(rows, n - 1) + (if HasOtherSource(rows, n - 1) then [rows[n - 1]] else [])
  }

  function CountValue(rows: seq<ItemRow>, v: string): nat
  {
    if |rows| == 0 then 0
    else CountValue(rows[..|rows| - 1], v) + (if rows[|rows| - 1].value == v then 1 else 0)
  }

  /** `COUNT(DISTINCT source_id)` of one value group. */
  function SourcesOf(rows: seq<ItemRow>, v: string): set<int>
  {
    set k | 0 <= k < |rows| && rows[k].value == v :: rows[k].sourceId
  }

  /** The distinct values of `rows`, in order of first appearance. */
  function Values(rows: seq<ItemRow>): (vs: seq<string>)
    ensures forall v :: v in vs <==> CountValue(rows, v) > 0
    ensures forall i, j :: 0 <= i < j < |vs| ==> vs[i] != vs[j]
  {
    if |rows| == 0 then []
    else
      var vs := Values(rows[..|rows| - 1]);
      var v := rows[|rows| - 1].value;
      if v !in vs then vs + [v] else vs
  }

  /** `HAVING source_count > 1`, then the projection to result entries. */
  function Having(p: seq<ItemRow>, vs: seq<string>): (r: seq<ExtractedItem>)
    ensures forall x :: x in r ==> x.value in vs && |SourcesOf(p, x.value)| > 1
    ensures forall x :: x in r ==> x == ExtractedItem(x.value, 0, CountValue(p, x.value), Phone)
    ensures forall v :: v in vs && |SourcesOf(p, v)| > 1 ==> ExtractedItem(v, 0, CountValue(p, v), Phone) in r
    ensures (forall i, j :: 0 <= i < j < |vs| ==> vs[i] != vs[j]) ==> DistinctKeys(r)
  {
    if |vs| == 0 then []
    else
      var rest := Having(p, vs[..|vs| - 1]);
      var v := vs[|vs| - 1];
      assert forall x :: x in vs[..|vs| - 1] ==> x in vs;
      if |SourcesOf(p, v)| > 1 then rest + [ExtractedItem(v, 0, CountValue(p, v), Phone)] else rest
  }

  function CrossReference(rows: seq<ItemRow>): seq<ExtractedItem>
  {
    var p := Passing(rows, |rows|);
    SortItems(Having(p, Values(p)))
  }

  /** The value occurs under two different source ids. */
  ghost predicate SpansTwoSources(rows: seq<ItemRow>, v: string)
  {
    exists i, j :: 0 <= i < |rows| && 0 <= j < |rows| && rows[i].value == v && rows[j].value == v
      && rows[i].sourceId != rows[j].sourceId
  }

  lemma SpansWitness(rows: seq<ItemRow>, v: string, i: int, j: int)
    requires 0 <= i < |rows| && 0 <= j < |rows| && rows[i].value == v && rows[j].value == v
    requires rows[i].sourceId != rows[j].sourceId
    ensures SpansTwoSources(rows, v)
  {
  }

  lemma CountValueSnoc(p: seq<ItemRow>, x: ItemRow, v: string)
    ensures CountValue(p + [x], v) == CountValue(p, v) + (if x.value == v then 1 else 0)
  {
    assert (p + [x])[..|p + [x]| - 1] == p;
  }

  /** Every row of a value that spans two sources passes the `EXISTS` filter. */
  lemma SpanningRowPasses(rows: seq<ItemRow>, v: string, k: int)
    requires 0 <= k < |rows| && rows[k].value == v && SpansTwoSources(rows, v)
    ensures HasOtherSource(rows, k)
  {
    var i, j :| 0 <= i < |rows| && 0 <= j < |rows| && rows[i].value == v && rows[j].value == v
      && rows[i].sourceId != rows[j].sourceId;
    if rows[i].sourceId != rows[k].sourceId {
      assert rows[i].value == rows[k].value;
    } else {
      assert rows[j].value == rows[k].value && rows[j].sourceId != rows[k].sourceId;
    }
  }

  /** A row that passes the filter belongs to a value spanning two sources. */
  lemma PassingRowSpans(rows: seq<ItemRow>, k: int)
    requires 0 <= k < |rows| && HasOtherSource(rows, k)
    ensures SpansTwoSources(rows, rows[k].value)
  {
    var j :| 0 <= j < |rows| && rows[j].value == rows[k].value && rows[j].sourceId != rows[k].sourceId;
    SpansWitness(rows, rows[k].value, k, j);
  }

  /** A value that spans two sources keeps all its rows through the filter. */
  lemma {:induction false} PassingKeepsSpanning(rows: seq<ItemRow>, n: nat, v: string)
    requires n <= |rows| && SpansTwoSources(rows, v)
    ensures CountValue(Passing(rows, n), v) == CountValue(rows[..n], v)
  {
    if n > 0 {
      PassingKeepsSpanning(rows, n - 1, v);
      var x := rows[n - 1];
      assert rows[..n] == rows[..n - 1] + [x];
      CountValueSnoc(rows[..n - 1], x, v);
      if x.value == v { SpanningRowPasses(rows, v, n - 1); }
      if HasOtherSource(rows, n - 1) {
        assert Passing(rows, n) == Passing(rows, n - 1) + [x];
        CountValueSnoc(Passing(rows, n - 1), x, v);
      } else {
        assert Passing(rows, n) == Passing(rows, n - 1);
      }
    }
  }

  /** Any other value keeps none. */
  lemma {:induction false} PassingDropsOthers(rows: seq<ItemRow>, n: nat, v: string)
    requires n <= |rows| && !SpansTwoSources(rows, v)
    ensures CountValue(Passing(rows, n), v) == 0
  {
    if n > 0 {
      PassingDropsOthers(rows, n - 1, v);
      var x := rows[n - 1];
      if HasOtherSource(rows, n - 1) {
        PassingRowSpans(rows, n - 1);
        assert Passing(rows, n) == Passing(rows, n - 1) + [x];
        CountValueSnoc(Passing(rows, n - 1), x, v);
      } else {
        assert Passing(rows, n) == Passing(rows, n - 1);
      }
    }
  }

  /** A passing row sits in the filtered table. */
  lemma {:induction false} PassingHolds(rows: seq<ItemRow>, n: nat, k: int)
    requires 0 <= k < n <= |rows| && HasOtherSource(rows, k)
    ensures rows[k] in Passing(rows, n)
  {
    if k < n - 1 { PassingHolds(rows, n - 1, k); }
  }

  lemma {:induction false} CountValuePositive(rows: seq<ItemRow>, k: int)
    requires 0 <= k < |rows|
    ensures CountValue(rows, rows[k].value) > 0
  {
    if k < |rows| - 1 { CountValuePositive(rows[..|rows| - 1], k); }
  }

  /** Two distinct members make a set of at least two. */
  lemma TwoMembers(s: set<int>, a: int, b: int)
    requires a in s && b in s && a != b
    ensures |s| > 1
  {
    var t := s - {a};
    assert b in t;
    assert s == t + {a};
    assert t * {a} == {};
  }

  /** What the query promises: a value is listed exactly when its rows span two
      source ids, with the count of all its rows of every type, source 0 and
      the phone label, in SQL order. */
  ghost predicate CrossReferenceResult(rows: seq<ItemRow>, r: seq<ExtractedItem>)
  {
    && (forall i :: 0 <= i < |r| ==> SpansTwoSources(rows, r[i].value))
    && (forall k :: 0 <= k < |rows| && SpansTwoSources(rows, rows[k].value) ==>
          exists i :: 0 <= i < |r| && r[i].value == rows[k].value)
    && (forall i :: 0 <= i < |r| ==>
          r[i].count == CountValue(rows, r[i].value) && r[i].source == 0 && r[i].itemType == Phone)
    && (forall i, j :: 0 <= i < j < |r| ==>
          r[i].value != r[j].value && r[i].count >= r[j].count
          && (r[i].count == r[j].count ==> LexLess(r[i].value, r[j].value)))
  }

  /** Each listed value spans two sources and carries the count of all its rows. */
  lemma CrossReferenceEntries(rows: seq<ItemRow>, i: int)
    requires 0 <= i < |CrossReference(rows)|
    ensures var e := CrossReference(rows)[i];
      && SpansTwoSources(rows, e.value)
      && e.count == CountValue(rows, e.value) && e.source == 0 && e.itemType == Phone
  {
    var p := Passing(rows, |rows|);
    var e := CrossReference(rows)[i];
    assert e in Having(p, Values(p));
    if !SpansTwoSources(rows, e.value) {
      PassingDropsOthers(rows, |rows|, e.value);
      assert false;
    }
    PassingKeepsSpanning(rows, |rows|, e.value);
    assert rows[..|rows|] == rows;
  }

  /** Every value that spans two sources is listed. */
  lemma CrossReferenceComplete(rows: seq<ItemRow>, k: int)
    requires 0 <= k < |rows| && SpansTwoSources(rows, rows[k].value)
    ensures exists i :: 0 <= i < |CrossReference(rows)| && CrossReference(rows)[i].value == rows[k].value
  {
    var p := Passing(rows, |rows|);
    var v := rows[k].value;
    var a, b :| 0 <= a < |rows| && 0 <= b < |rows| && rows[a].value == v && rows[b].value == v
      && rows[a].sourceId != rows[b].sourceId;
    SpanningRowPasses(rows, v, a);
    SpanningRowPasses(rows, v, b);
    PassingHolds(rows, |rows|, a);
    PassingHolds(rows, |rows|, b);
    var ia :| 0 <= ia < |p| && p[ia] == rows[a];
    var ib :| 0 <= ib < |p| && p[ib] == rows[b];
    assert p[ia].sourceId in SourcesOf(p, v) && p[ib].sourceId in SourcesOf(p, v);
    TwoMembers(SourcesOf(p, v), rows[a].sourceId, rows[b].sourceId);
    CountValuePositive(p, ia);
    var x := ExtractedItem(v, 0, CountValue(p, v), Phone);
    assert x in CrossReference(rows);
  }

  /** Listed values are distinct, by total count descending, then value ascending. */
  lemma CrossReferenceOrder(rows: seq<ItemRow>, i: int, j: int)
    requires 0 <= i < j < |CrossReference(rows)|
    ensures var r := CrossReference(rows);
      && r[i].value != r[j].value && r[i].count >= r[j].count
      && (r[i].count == r[j].count ==> LexLess(r[i].value, r[j].value))
  {
    var r := CrossReference(rows);
    var p := Passing(rows, |rows|);
    assert r[i] in Having(p, Values(p)) && r[j] in Having(p, Values(p));
    SortedByCountThenValue(r, i, j);
    if r[i].count == r[j].count { LexLessTotal(r[i].value, r[j].value); }
  }

  lemma CrossReferenceIsSpanning(rows: seq<ItemRow>)
    ensures CrossReferenceResult(rows, CrossReference(rows))
  {
    var r := CrossReference(rows);
    forall i | 0 <= i < |r|
      ensures SpansTwoSources(rows, r[i].value)
      ensures r[i].count == CountValue(rows, r[i].value) && r[i].source == 0 && r[i].itemType == Phone
    {
      CrossReferenceEntries(rows, i);
    }
    forall k | 0 <= k < |rows| && SpansTwoSources(rows, rows[k].value)
      ensures exists i :: 0 <= i < |r| && r[i].value == rows[k].value
    {
      CrossReferenceComplete(rows, k);
    }
    forall i, j | 0 <= i < j < |r|
      ensures r[i].value != r[j].value && r[i].count >= r[j].count
      ensures r[i].count == r[j].count ==> LexLess(r[i].value, r[j].value)
    {
      CrossReferenceOrder(rows, i, j);
    }
  }

  // ---------------------------------------------------------------------------
  // The store

  class Database {
    var files: seq<FileRow>
    var items: seq<ItemRow>
    /** The AUTOINCREMENT counters (`sqlite_sequence`) plus one. */
    var nextFileId: int
    var nextItemId: int

    ghost predicate Valid()
      reads this
    {
      FileIdsBelow(files, nextFileId) && ItemIdsBelow(items, nextItemId)
    }

    /** `new_memory`: a fresh database with both tables created empty. */
    constructor NewMemory()
      ensures Valid()
      ensures files == [] && items == []
      ensures nextFileId == 1 && nextItemId == 1
    {
      files := [];
      items := [];
      nextFileId := 1;
      nextItemId := 1;
    }

    /** `insert_file`: appends one file row and returns its fresh id. */
    method InsertFile(fileName: string, sourceId: int, content: string, now: string) returns (id: int)
      requires Valid()
      modifies this
      ensures Valid()
      ensures forall k :: 0 <= k < |old(files)| ==> old(files)[k].id < id
      ensures files == old(files) + [FileRow(id, fileName, sourceId, content, now)]
      ensures items == old(items) && nextItemId == old(nextItemId)
      ensures id == old(nextFileId) && nextFileId == id + 1
    {
      id := nextFileId;
      files := files + [FileRow(id, fileName, sourceId, content, now)];
      nextFileId := nextFileId + 1;
    }

    /** `insert_extracted_item`: appends exactly one item row. */
    method InsertExtractedItem(value: string, itemType: string, sourceId: int, fileId: int)
      requires Valid()
      modifies this
      ensures Valid()
      ensures items == old(items) + [ItemRow(old(nextItemId), value, itemType, sourceId, fileId)]
      ensures forall k :: 0 <= k < |old(items)| ==> old(items)[k].id < old(nextItemId)
      ensures files == old(files) && nextFileId == old(nextFileId)
      ensures nextItemId == old(nextItemId) + 1
    {
      items := items + [ItemRow(nextItemId, value, itemType, sourceId, fileId)];
      nextItemId := nextItemId + 1;
    }

    /** `clear_all`: deletes every row; AUTOINCREMENT ids are not reused afterwards. */
    method ClearAll()
      requires Valid()
      modifies this
      ensures Valid()
      ensures files == [] && items == []
      ensures nextFileId == old(nextFileId) && nextItemId == old(nextItemId)
    {
      items := [];
      files := [];
    }

    /** `get_all_files`: every file row, in id order. */
    function GetAllFiles(): (r: seq<FileRecord>)
      reads this
      requires Valid()
      ensures |r| == |files|
      ensures forall k :: 0 <= k < |r| ==>
        r[k] == FileRecord(Some(files[k].id), files[k].fileName, files[k].sourceId, files[k].content, Some(files[k].processedAt))
      ensures forall i, j :: 0 <= i < j < |r| ==> r[i].id.value < r[j].id.value
    {
      seq(|files|, k requires 0 <= k < |files| reads this =>
        FileRecord(Some(files[k].id), files[k].fileName, files[k].sourceId, files[k].content, Some(files[k].processedAt)))
    }

    /** `get_extracted_items_by_type`. */
    function GetExtractedItemsByType(itemType: string): (r: seq<ExtractedItem>)
      reads this
      ensures ByTypeResult(items, itemType, r)
    {
      ItemsByTypeIsGrouping(items, itemType);
      ItemsByType(items, itemType)
    }

    /** `get_cross_reference_items`. */
    function GetCrossReferenceItems(): (r: seq<ExtractedItem>)
      reads this
      ensures CrossReferenceResult(items, r)
    {
      CrossReferenceIsSpanning(items);
      CrossReference(items)
    }
  }
}
