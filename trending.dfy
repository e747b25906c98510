/**
 * The category panel of the home page (`fetchCategories` in src/app/page.tsx):
 * count the rows of each non-empty category into a dictionary, sort the
 * entries by count, highest first, and publish the whole list and the top
 * three. Each row is the query's `category` column; None stands for null.
 */
module Trending {
  import opened Wrappers

  type Row = Option<string>

  datatype CategoryCount = CategoryCount(category: string, count: nat)

  // ------------------------------------------------------ reference counts

  /** The number of rows carrying category c. */
  function CountOf(rows: seq<Row>, c: string): nat
  {
    if rows == [] then 0
    else CountOf(rows[..|rows| - 1], c) + (if rows[|rows| - 1] == Some(c) then 1 else 0)
  }

  /** The number of rows the reduction counts: those whose category is truthy. */
  function CountedRows(rows: seq<Row>): nat
  {
    if rows == [] then 0
    else CountedRows(rows[..|rows| - 1]) + (if Truthy(rows[|rows| - 1]) then 1 else 0)
  }

  /** The distinct truthy categories in order of first appearance: the dictionary's key order. */
  function FirstSeen(rows: seq<Row>): seq<string>
  {
    if rows == [] then []
    else
      var earlier := FirstSeen(rows[..|rows| - 1]);
      var last := rows[|rows| - 1];
      if Truthy(last) && last.value !in earlier then earlier + [last.value] else earlier
  }

  predicate Distinct(xs: seq<string>) {
    forall i, j :: 0 <= i < j < |xs| ==> xs[i] != xs[j]
  }

  lemma {:induction false} FirstSeenExact(rows: seq<Row>)
    ensures Distinct(FirstSeen(rows))
    ensures forall c :: c in FirstSeen(rows) <==> c != "" && Some(c) in rows
  {
    if rows != [] {
      var p := rows[..|rows| - 1];
      FirstSeenExact(p);
      assert rows == p + [rows[|rows| - 1]];
    }
  }

  /** A category that no row carries counts zero. */
  lemma {:induction false} CountOfAbsent(rows: seq<Row>, c: string)
    requires Some(c) !in rows
    ensures CountOf(rows, c) == 0
  {
    if rows != [] {
      var p := rows[..|rows| - 1];
      assert forall r :: r in p ==> r in rows;
      CountOfAbsent(p, c);
    }
  }

  // ------------------------------------------------------------- reduction

  /**
   * The `reduce` into `acc`: `acc[category] = (acc[category] || 0) + 1` for
   * each truthy category. `order` is the dictionary's key insertion order.
   */
  method CountCategories(rows: seq<Row>) returns (counts: map<string, nat>, order: seq<string>)
    ensures order == FirstSeen(rows)
    ensures forall c :: c in counts <==> c in order
    ensures forall c :: c in counts ==> counts[c] == CountOf(rows, c)
  {
    counts, order := map[], [];
    var i := 0;
    while i < |rows|
      invariant 0 <= i <= |rows|
      invariant order == FirstSeen(rows[..i])
      invariant forall c :: c in counts <==> c in order
      invariant "" !in counts
      invariant forall c :: c in counts ==> counts[c] == CountOf(rows[..i], c)
    {
      var row := rows[i];
      assert rows[..i + 1][..i] == rows[..i];
      assert rows[..i + 1][i] == row;
      assert forall c :: CountOf(rows[..i + 1], c) == CountOf(rows[..i], c) + (if row == Some(c) then 1 else 0);
      if row.Some? && row.value != "" {
        var category := row.value;
        if category in counts {
          counts := counts[category := counts[category] + 1];
        } else {
          FirstSeenExact(rows[..i]);
          CountOfAbsent(rows[..i], category);
          counts := counts[category := 1];
          order := order + [category];
        }
      }
      i := i + 1;
    }
    assert rows[..i] == rows;
  }

  /** `Object.entries(categoryCounts).map(...)`: the entries in key order. */
  function Entries(counts: map<string, nat>, order: seq<string>): (es: seq<CategoryCount>)
    requires forall c :: c in order ==> c in counts
    ensures |es| == |order|
    ensures forall i :: 0 <= i < |order| ==> es[i] == CategoryCount(order[i], counts[order[i]])
  {
    seq(|order|, i requires 0 <= i < |order| => CategoryCount(order[i], counts[order[i]]))
  }

  /** The entries the reduction produces, stated from the rows alone. */
  function Histogram(rows: seq<Row>): (es: seq<CategoryCount>)
  {
    var keys := FirstSeen(rows);
    seq(|keys|, i requires 0 <= i < |keys| => CategoryCount(keys[i], CountOf(rows, keys[i])))
  }

  function Names(es: seq<CategoryCount>): (names: seq<string>)
    ensures |names| == |es|
    ensures forall i :: 0 <= i < |es| ==> names[i] == es[i].category
  {
    if es == [] then [] else [es[0].category] + Names(es[1..])
  }

  function Total(es: seq<CategoryCount>): nat
  {
    if es == [] then 0 else es[0].count + Total(es[1..])
  }

  /** Every category in the histogram is non-empty and counted exactly as often as it occurs. */
  lemma HistogramCounts(rows: seq<Row>)
    ensures Distinct(Names(Histogram(rows)))
    ensures forall c :: c in Names(Histogram(rows)) <==> c != "" && Some(c) in rows
    ensures forall e :: e in Histogram(rows) ==> e.count == CountOf(rows, e.category) && e.count >= 1
  {
    FirstSeenExact(rows);
    var h := Histogram(rows);
    assert Names(h) == FirstSeen(rows);
    forall e | e in h ensures e.count >= 1 {
      var i :| 0 <= i < |h| && h[i] == e;
      CountPositive(rows, e.category);
    }
  }

  lemma {:induction false} CountPositive(rows: seq<Row>, c: string)
    requires Some(c) in rows
    ensures CountOf(rows, c) >= 1
  {
    var p := rows[..|rows| - 1];
    if rows[|rows| - 1] != Some(c) {
      assert rows == p + [rows[|rows| - 1]];
      CountPositive(p, c);
    }
  }

  // ------------------------------------------------------- the total count

  /** The sum, over a list of distinct categories, of how often each occurs. */
  function SumCounts(keys: seq<string>, rows: seq<Row>): nat
  {
    if keys == [] then 0 else CountOf(rows, keys[0]) + SumCounts(keys[1..], rows)
  }

  lemma {:induction false} SumCountsStep(keys: seq<string>, rows: seq<Row>, r: Row)
    requires Distinct(keys)
    ensures SumCounts(keys, rows + [r])
      == SumCounts(keys, rows) + (if r.Some? && r.value in keys then 1 else 0)
  {
    if keys != [] {
      assert (rows + [r])[..|rows + [r]| - 1] == rows;
      SumCountsStep(keys[1..], rows, r);
      assert keys[0] in keys;
      assert r.Some? && r.value in keys[1..] ==> r.value != keys[0];
      assert r.Some? && r.value in keys && r.value != keys[0] ==> r.value in keys[1..];
    }
  }

  lemma {:induction false} SumCountsAppend(keys: seq<string>, c: string, rows: seq<Row>)
    ensures SumCounts(keys + [c], rows) == SumCounts(keys, rows) + CountOf(rows, c)
  {
    if keys == [] {
      assert [c][1..] == [];
    } else {
      assert (keys + [c])[1..] == keys[1..] + [c];
      SumCountsAppend(keys[1..], c, rows);
    }
  }

  /** The counts add up to the number of rows with a non-empty category. */
  lemma {:induction false} CountsSumToRows(rows: seq<Row>)
    ensures SumCounts(FirstSeen(rows), rows) == CountedRows(rows)
  {
    if rows != [] {
      var p := rows[..|rows| - 1];
      var r := rows[|rows| - 1];
      assert rows == p + [r];
      CountsSumToRows(p);
      FirstSeenExact(p);
      SumCountsStep(FirstSeen(p), p, r);
      if Truthy(r) && r.value !in FirstSeen(p) {
        SumCountsAppend(FirstSeen(p), r.value, rows);
        CountOfAbsent(p, r.value);
      }
    }
  }

  lemma {:induction false} TotalIsSumCounts(keys: seq<string>, rows: seq<Row>)
    ensures Total(seq(|keys|, i requires 0 <= i < |keys| => CategoryCount(keys[i], CountOf(rows, keys[i]))))
      == SumCounts(keys, rows)
  {
    var es := seq(|keys|, i requires 0 <= i < |keys| => CategoryCount(keys[i], CountOf(rows, keys[i])));
    if keys != [] {
      var tail := seq(|keys[1..]|, i requires 0 <= i < |keys[1..]| => CategoryCount(keys[1..][i], CountOf(rows, keys[1..][i])));
      assert es[1..] == tail;
      TotalIsSumCounts(keys[1..], rows);
    }
  }

  lemma HistogramTotal(rows: seq<Row>)
    ensures Total(Histogram(rows)) == CountedRows(rows)
  {
    TotalIsSumCounts(FirstSeen(rows), rows);
    CountsSumToRows(rows);
  }

  // ------------------------------------------------------------------ sort

  /** Place e after every entry with a count at least as high (so ties keep their order). */
  function Insert(e: CategoryCount, sorted: seq<CategoryCount>): (r: seq<CategoryCount>)
  {
    if sorted == [] then [e]
    else if sorted[0].count >= e.count then [sorted[0]] + Insert(e, sorted[1..])
    else [e] + sorted
  }

  /** `.sort((a, b) => b.count - a.count)`: a stable sort, highest count first. */
  function SortByCount(es: seq<CategoryCount>): (r: seq<CategoryCount>)
  {
    if es == [] then [] else Insert(es[|es| - 1], SortByCount(es[..|es| - 1]))
  }

  predicate NonIncreasing(es: seq<CategoryCount>) {
    forall i, j :: 0 <= i < j < |es| ==> es[i].count >= es[j].count
  }

  /** The entries with a given count, in order: the sort must keep this for every count. */
  function WithCount(es: seq<CategoryCount>, n: nat): seq<CategoryCount>
  {
    if es == [] then [] else (if es[0].count == n then [es[0]] else []) + WithCount(es[1..], n)
  }

  lemma {:induction false} WithCountAppend(a: seq<CategoryCount>, e: CategoryCount, n: nat)
    ensures WithCount(a + [e], n) == WithCount(a, n) + (if e.count == n then [e] else [])
  {
    if a != [] {
      assert (a + [e])[1..] == a[1..] + [e];
      WithCountAppend(a[1..], e, n);
    }
  }

  lemma {:induction false} InsertMultiset(e: CategoryCount, s: seq<CategoryCount>)
    ensures multiset(Insert(e, s)) == multiset(s) + multiset{e}
  {
    if s != [] && s[0].count >= e.count {
      InsertMultiset(e, s[1..]);
      assert s == [s[0]] + s[1..];
    }
  }

  lemma {:induction false} InsertSorted(e: CategoryCount, s: seq<CategoryCount>)
    requires NonIncreasing(s)
    ensures NonIncreasing(Insert(e, s))
  {
    if s != [] && s[0].count >= e.count {
      var tail := Insert(e, s[1..]);
      InsertSorted(e, s[1..]);
      InsertMultiset(e, s[1..]);
      forall k | 0 <= k < |tail| ensures s[0].count >= tail[k].count {
        assert tail[k] in multiset(tail);
        assert tail[k] in s[1..] || tail[k] == e;
      }
      assert Insert(e, s) == [s[0]] + tail;
    }
  }

  lemma WithCountCons(x: CategoryCount, t: seq<CategoryCount>, n: nat)
    ensures WithCount([x] + t, n) == (if x.count == n then [x] else []) + WithCount(t, n)
  {
    assert ([x] + t)[1..] == t;
  }

  lemma {:induction false} InsertWithCount(e: CategoryCount, s: seq<CategoryCount>, n: nat)
    requires NonIncreasing(s)
    ensures WithCount(Insert(e, s), n) == WithCount(s, n) + (if e.count == n then [e] else [])
  {
    var me := if e.count == n then [e] else [];
    if s == [] {
      WithCountCons(e, [], n);
    } else if s[0].count >= e.count {
      var h := if s[0].count == n then [s[0]] else [];
      var tail := Insert(e, s[1..]);
      InsertWithCount(e, s[1..], n);
      WithCountCons(s[0], tail, n);
      assert s == [s[0]] + s[1..];
      WithCountCons(s[0], s[1..], n);
      calc {
        WithCount(Insert(e, s), n);
        h + WithCount(tail, n);
        h + (WithCount(s[1..], n) + me);
        (h + WithCount(s[1..], n)) + me;
        WithCount(s, n) + me;
      }
    } else {
      WithCountCons(e, s, n);
      if e.count == n {
        WithCountNone(s, n);
      }
    }
  }

  lemma {:induction false} InsertTotal(e: CategoryCount, s: seq<CategoryCount>)
    ensures Total(Insert(e, s)) == Total(s) + e.count
  {
    if s != [] && s[0].count >= e.count {
      InsertTotal(e, s[1..]);
      assert Insert(e, s)[1..] == Insert(e, s[1..]);
    } else if s != [] {
      assert ([e] + s)[1..] == s;
    }
  }

  /** In a list whose head is below n, and no entry above its head, nothing has count n. */
  lemma {:induction false} WithCountNone(s: seq<CategoryCount>, n: nat)
    requires NonIncreasing(s)
    requires s != [] ==> s[0].count < n
    ensures WithCount(s, n) == []
  {
    if s != [] {
      WithCountNone(s[1..], n);
    }
  }

  lemma NamesCons(e: CategoryCount, s: seq<CategoryCount>)
    ensures Names([e] + s) == [e.category] + Names(s)
  {
    assert ([e] + s)[1..] == s;
  }

  lemma DistinctCons(x: string, ys: seq<string>)
    ensures Distinct([x] + ys) <==> x !in ys && Distinct(ys)
  {
    var xs := [x] + ys;
    if x !in ys && Distinct(ys) {
      forall i, j | 0 <= i < j < |xs| ensures xs[i] != xs[j] {
        assert xs[j] == ys[j - 1];
        if i > 0 {
          assert xs[i] == ys[i - 1];
        }
      }
    }
    if Distinct(xs) {
      forall i, j | 0 <= i < j < |ys| ensures ys[i] != ys[j] {
        assert ys[i] == xs[i + 1] && ys[j] == xs[j + 1];
      }
    }
    if x in ys {
      var k :| 0 <= k < |ys| && ys[k] == x;
      assert xs[k + 1] == xs[0];
    }
  }

  /** Inserting adds exactly the entry's name. */
  lemma {:induction false} InsertNames(e: CategoryCount, s: seq<CategoryCount>)
    ensures forall c :: c in Names(Insert(e, s)) <==> c == e.category || c in Names(s)
  {
    if s != [] && s[0].count >= e.count {
      assert s == [s[0]] + s[1..];
      InsertNames(e, s[1..]);
      NamesCons(s[0], s[1..]);
      NamesCons(s[0], Insert(e, s[1..]));
    } else {
      NamesCons(e, s);
    }
  }

  lemma {:induction false} InsertNamesDistinct(e: CategoryCount, s: seq<CategoryCount>)
    requires Distinct(Names(s)) && e.category !in Names(s)
    ensures Distinct(Names(Insert(e, s)))
  {
    if s != [] && s[0].count >= e.count {
      assert s == [s[0]] + s[1..];
      NamesCons(s[0], s[1..]);
      DistinctCons(s[0].category, Names(s[1..]));
      InsertNamesDistinct(e, s[1..]);
      InsertNames(e, s[1..]);
      NamesCons(s[0], Insert(e, s[1..]));
      DistinctCons(s[0].category, Names(Insert(e, s[1..])));
    } else {
      NamesCons(e, s);
      DistinctCons(e.category, Names(s));
    }
  }

  /** The sort is non-increasing, a permutation, and stable: ties keep their order. */
  lemma {:induction false} SortFacts(es: seq<CategoryCount>)
    ensures NonIncreasing(SortByCount(es))
    ensures multiset(SortByCount(es)) == multiset(es)
    ensures forall n :: WithCount(SortByCount(es), n) == WithCount(es, n)
    ensures Total(SortByCount(es)) == Total(es)
  {
    if es != [] {
      var p := es[..|es| - 1];
      var last := es[|es| - 1];
      assert es == p + [last];
      SortFacts(p);
      InsertSorted(last, SortByCount(p));
      InsertMultiset(last, SortByCount(p));
      InsertTotal(last, SortByCount(p));
      TotalAppend(p, last);
      forall n ensures WithCount(SortByCount(es), n) == WithCount(es, n) {
        InsertWithCount(last, SortByCount(p), n);
        WithCountAppend(p, last, n);
      }
    }
  }

  lemma {:induction false} TotalAppend(a: seq<CategoryCount>, e: CategoryCount)
    ensures Total(a + [e]) == Total(a) + e.count
  {
    if a != [] {
      assert (a + [e])[1..] == a[1..] + [e];
      TotalAppend(a[1..], e);
    }
  }

  lemma {:induction false} SortNames(es: seq<CategoryCount>)
    requires Distinct(Names(es))
    ensures Distinct(Names(SortByCount(es)))
    ensures forall c :: c in Names(SortByCount(es)) <==> c in Names(es)
  {
    if es != [] {
      var p := es[..|es| - 1];
      var last := es[|es| - 1];
      assert Names(es) == Names(p) + [last.category] by { NamesAppend(p, last); assert es == p + [last]; }
      assert Distinct(Names(p));
      assert last.category !in Names(p);
      SortNames(p);
      InsertNames(last, SortByCount(p));
      InsertNamesDistinct(last, SortByCount(p));
    }
  }

  lemma {:induction false} NamesAppend(a: seq<CategoryCount>, e: CategoryCount)
    ensures Names(a + [e]) == Names(a) + [e.category]
  {
  }

  // ----------------------------------------------------------------- results

  /** The sorted entries of the home page's category panel. */
  function Ranked(rows: seq<Row>): seq<CategoryCount>
  {
    SortByCount(Histogram(rows))
  }

  /** What `fetchCategories` promises of its sorted list. */
  lemma RankedFacts(rows: seq<Row>)
    ensures NonIncreasing(Ranked(rows))
    ensures Distinct(Names(Ranked(rows)))
    ensures forall c :: c in Names(Ranked(rows)) <==> c != "" && Some(c) in rows
    ensures forall e :: e in Ranked(rows) ==> e.count == CountOf(rows, e.category) && e.count >= 1
    ensures Total(Ranked(rows)) == CountedRows(rows)
    // ties keep the order in which the categories were first seen
    ensures forall n :: WithCount(Ranked(rows), n) == WithCount(Histogram(rows), n)
  {
    HistogramCounts(rows);
    HistogramTotal(rows);
    SortFacts(Histogram(rows));
    SortNames(Histogram(rows));
    forall e | e in Ranked(rows) ensures e in Histogram(rows) {
      assert e in multiset(Ranked(rows));
    }
  }

  function Min(a: int, b: int): int { if a < b then a else b }

  /** `sortedCategories.slice(0, 3)`. */
  function TopThree(sorted: seq<CategoryCount>): (top: seq<CategoryCount>)
    ensures |top| == Min(3, |sorted|)
    ensures top == sorted[..|top|]
  {
    sorted[..Min(3, |sorted|)]
  }

  /** The top three are the first names of the full list, and none is outranked by a later entry. */
  lemma TopThreeFacts(rows: seq<Row>)
    ensures var top := TopThree(Ranked(rows));
      && |top| == Min(3, |FirstSeen(rows)|)
      && Names(top) == Names(Ranked(rows))[..|top|]
      && forall i, j :: 0 <= i < |top| <= j < |Ranked(rows)| ==> top[i].count >= Ranked(rows)[j].count
  {
    SortFacts(Histogram(rows));
    assert |Ranked(rows)| == |multiset(Ranked(rows))| == |multiset(Histogram(rows))| == |FirstSeen(rows)|;
    RankedFacts(rows);
  }

  /** A query result: an error, or the returned rows (None standing for a null payload). */
  datatype QueryResult = QueryFailed | QueryRows(data: Option<seq<Row>>)

  /** `categories || []`. */
  function RowsOf(data: Option<seq<Row>>): seq<Row>
  {
    match data
    case Some(rows) => rows
    case None => []
  }

  /** The category state of the home page. */
  class HomeState {
    var categories: seq<string>
    var topCategories: seq<string>

    constructor ()
      ensures categories == [] && topCategories == []
    {
      categories := [];
      topCategories := [];
    }

    /**
     * `fetchCategories`: nothing happens without a configured key; a query
     * error empties both lists; otherwise the full list is every category,
     * most frequent first, and the top list its first three.
     */
    method FetchCategories(keyConfigured: bool, result: QueryResult)
      modifies this
      ensures !keyConfigured ==> categories == old(categories) && topCategories == old(topCategories)
      ensures keyConfigured && result.QueryFailed? ==> categories == [] && topCategories == []
      ensures keyConfigured && result.QueryRows? ==>
        && categories == Names(Ranked(RowsOf(result.data)))
        && topCategories == Names(TopThree(Ranked(RowsOf(result.data))))
    {
      if !keyConfigured {
        return;
      }
      match result
      case QueryFailed =>
        categories := [];
        topCategories := [];
      case QueryRows(data) =>
        var rows := RowsOf(data);
        var counts, order := CountCategories(rows);
        var entries := Entries(counts, order);
        assert entries == Histogram(rows);
        var sorted := SortByCount(entries);
        categories := Names(sorted);
        topCategories := Names(TopThree(sorted));
    }
  }

  // ------------------------------------------- the accumulator as written

  /**
   * The reduction is written against a plain object literal `{}`, whose
   * missing keys fall through to Object.prototype. The values it can meet
   * are a number, a string, an inherited object (named by its string form)
   * and undefined.
   */
  datatype JsValue = Num(n: nat) | Str(s: string) | Obj(text: string) | Undefined

  /** The string form of what a fresh object literal inherits under a key, if it inherits one. */
  function Inherited(key: string): Option<string>
  {
    if key == "__proto__" then Some("[object Object]")
    else if key == "constructor" then Some("function Object() { [native code] }")
    else if key in InheritedMethods then Some("function " + key + "() { [native code] }")
    else None
  }

  const InheritedMethods: set<string> := {
    "hasOwnProperty", "isPrototypeOf", "propertyIsEnumerable",
    "toLocaleString", "toString", "valueOf", "__defineGetter__", "__defineSetter__",
    "__lookupGetter__", "__lookupSetter__"}

  /** Own properties of the accumulator, in insertion order. */
  datatype JsObject = JsObject(keys: seq<string>, values: map<string, JsValue>)

  /** `acc[key]`: an own property, else what Object.prototype supplies. */
  function JsGet(acc: JsObject, key: string): JsValue
  {
    if key in acc.values then acc.values[key]
    else match Inherited(key)
      case Some(text) => Obj(text)
      case None => Undefined
  }

  /** `(v || 0) + 1` — numeric addition on a number, string concatenation otherwise. */
  function PlusOne(v: JsValue): JsValue
  {
    match v
    case Num(n) => Num(n + 1)
    case Str(t) => if t == "" then Num(1) else Str(t + "1")
    case Obj(text) => Str(text + "1")
    case Undefined => Num(1)
  }

  /** `acc[key] = v`: a primitive assigned to `__proto__` is ignored by its setter. */
  function JsSet(acc: JsObject, key: string, v: JsValue): JsObject
  {
    if key == "__proto__" then acc
    else if key in acc.values then JsObject(acc.keys, acc.values[key := v])
    else JsObject(acc.keys + [key], acc.values[key := v])
  }

  /** The `reduce` exactly as written, over a fresh object literal. */
  function ReduceAsWritten(rows: seq<Row>): JsObject
  {
    if rows == [] then JsObject([], map[])
    else
      var acc := ReduceAsWritten(rows[..|rows| - 1]);
      var row := rows[|rows| - 1];
      if Truthy(row) then JsSet(acc, row.value, PlusOne(JsGet(acc, row.value))) else acc
  }

  /** A category named `__proto__` is dropped from the list the page shows. */
  lemma ProtoCategoryDropped()
    ensures ReduceAsWritten([Some("__proto__")]).keys == []
    ensures FirstSeen([Some("__proto__")]) == ["__proto__"]
  {
    var rows: seq<Row> := [Some("__proto__")];
    assert rows[..0] == [];
  }

  /** A category named `constructor` is counted as a string, not as 1. */
  lemma ConstructorCategoryMiscounted()
    ensures ReduceAsWritten([Some("constructor")]).values["constructor"]
      == Str("function Object() { [native code] }1")
    ensures CountOf([Some("constructor")], "constructor") == 1
  {
    var rows: seq<Row> := [Some("constructor")];
    assert rows[..0] == [];
  }

  /** Away from the inherited names, the object literal counts exactly as intended. */
  lemma {:induction false} ReduceAsWrittenAgrees(rows: seq<Row>)
    requires forall k :: 0 <= k < |rows| && rows[k].Some? ==> Inherited(rows[k].value).None?
    ensures ReduceAsWritten(rows).keys == FirstSeen(rows)
    ensures forall c :: c in ReduceAsWritten(rows).values <==> c in FirstSeen(rows)
    ensures forall c :: c in ReduceAsWritten(rows).values ==>
      ReduceAsWritten(rows).values[c] == Num(CountOf(rows, c))
  {
    if rows != [] {
      var p := rows[..|rows| - 1];
      ReduceAsWrittenAgrees(p);
      FirstSeenExact(p);
      var row := rows[|rows| - 1];
      if Truthy(row) && row.value !in FirstSeen(p) {
        CountOfAbsent(p, row.value);
      }
    }
  }
}
