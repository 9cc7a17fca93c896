/**
 * The query layer: the inner join of results with their samples, the
 * filter each query function chooses from its argument, and the
 * flattening of every (Result, Sample) pair into an ordered row.
 */
module Query {
  import opened Values

  // ---------------------------------------------------------------------
  // Ordered dictionaries
  // ---------------------------------------------------------------------

  /** An ordered dictionary: (key, value) entries in insertion order. */
  type Dict = seq<(string, Value)>

  /** The keys of `d`, in order. */
  function Keys(d: Dict): (ks: seq<string>)
    ensures |ks| == |d|
    ensures forall i :: 0 <= i < |d| ==> ks[i] == d[i].0
  {
    if d == [] then [] else [d[0].0] + Keys(d[1..])
  }

  /** No key occurs twice, as in every Python dict. */
  predicate UniqueKeys(d: Dict)
  {
    forall i, j :: 0 <= i < j < |d| ==> d[i].0 != d[j].0
  }

  /** `d[k]`, or `None` when `k` is not a key. */
  function Get(d: Dict, k: string): (r: Option<Value>)
    ensures r.Some? <==> k in Keys(d)
  {
    if d == [] then None
    else if d[0].0 == k then Some(d[0].1)
    else Get(d[1..], k)
  }

  /**
   * `d[k] = v` on an ordered dictionary: an existing key keeps its
   * position and takes the new value; a new key goes last.
   */
  function SetItem(d: Dict, k: string, v: Value): Dict
  {
    if d == [] then [(k, v)]
    else if d[0].0 == k then [(k, v)] + d[1..]
    else [d[0]] + SetItem(d[1..], k, v)
  }

  /** Setting a key never moves an existing key; a new key is appended. */
  lemma {:induction false} SetItemKeys(d: Dict, k: string, v: Value)
    ensures |SetItem(d, k, v)| >= |d|
    ensures forall i :: 0 <= i < |d| ==> SetItem(d, k, v)[i].0 == d[i].0
    ensures k !in Keys(d) ==> SetItem(d, k, v) == d + [(k, v)]
    ensures k in Keys(d) ==> |SetItem(d, k, v)| == |d|
  {
    if d != [] && d[0].0 != k {
      assert Keys(d) == [d[0].0] + Keys(d[1..]);
      SetItemKeys(d[1..], k, v);
    }
  }

  /** After `d[k] = v`, `k` reads `v` and every other key reads as before. */
  lemma {:induction false} SetItemGet(d: Dict, k: string, v: Value, k': string)
    ensures Get(SetItem(d, k, v), k') == if k' == k then Some(v) else Get(d, k')
  {
    if d != [] && d[0].0 != k {
      SetItemGet(d[1..], k, v, k');
    }
  }

  /** The tail of a unique-keyed dictionary is unique-keyed and lacks the head's key. */
  lemma UniqueTail(d: Dict)
    requires UniqueKeys(d) && d != []
    ensures UniqueKeys(d[1..]) && d[0].0 !in Keys(d[1..])
  {
  }

  /** On a dictionary with unique keys, `d[k] = v` changes the value of `k` only, in place. */
  lemma {:induction false} SetItemUnique(d: Dict, k: string, v: Value)
    requires UniqueKeys(d)
    ensures UniqueKeys(SetItem(d, k, v))
    ensures k in Keys(d) ==>
      |SetItem(d, k, v)| == |d| &&
      forall i :: 0 <= i < |d| ==> SetItem(d, k, v)[i] == (if d[i].0 == k then (k, v) else d[i])
  {
    SetItemKeys(d, k, v);
    if d != [] {
      UniqueTail(d);
      if d[0].0 != k {
        SetItemUnique(d[1..], k, v);
        SetItemKeys(d[1..], k, v);
        var r := SetItem(d, k, v);
        assert Keys(d) == [d[0].0] + Keys(d[1..]);
        forall i, j | 0 <= i < j < |r| ensures r[i].0 != r[j].0 {
          if i == 0 {
            if j - 1 < |d[1..]| {
              assert r[j].0 == d[1..][j - 1].0;
            } else {
              assert r[j].0 == k;
            }
          }
        }
      } else {
        assert Keys(d) == [d[0].0] + Keys(d[1..]);
      }
    }
  }

  /** `d.update(items)`: `d[k] = v` for every entry of `items`, in order. */
  function Update(d: Dict, items: Dict): Dict
    decreases |items|
  {
    if items == [] then d
    else Update(SetItem(d, items[0].0, items[0].1), items[1..])
  }

  /** The entries of `items` whose key is not in `ks`, in order. */
  function NewEntries(ks: seq<string>, items: Dict): Dict
  {
    if items == [] then []
    else (if items[0].0 in ks then [] else [items[0]]) + NewEntries(ks, items[1..])
  }

  /** `d` with the value of every key that `items` also has taken from `items`. */
  function Overwrite(d: Dict, items: Dict): Dict
  {
    seq(|d|, i requires 0 <= i < |d| =>
      (d[i].0, match Get(items, d[i].0) case Some(v) => v case None => d[i].1))
  }

  /** A key that `items` lacks makes no difference to which entries of `items` are new. */
  lemma {:induction false} NewEntriesSkipsAbsent(ks: seq<string>, k: string, items: Dict)
    requires k !in Keys(items)
    ensures NewEntries(ks + [k], items) == NewEntries(ks, items)
  {
    if items != [] {
      assert Keys(items) == [items[0].0] + Keys(items[1..]);
      NewEntriesSkipsAbsent(ks, k, items[1..]);
    }
  }

  /** Setting an existing key first and overwriting from the rest is overwriting from all of `items`. */
  lemma OverwriteStepExisting(d: Dict, items: Dict)
    requires UniqueKeys(d) && UniqueKeys(items) && items != [] && items[0].0 in Keys(d)
    ensures Keys(SetItem(d, items[0].0, items[0].1)) == Keys(d)
    ensures Overwrite(SetItem(d, items[0].0, items[0].1), items[1..]) == Overwrite(d, items)
  {
    var x, rest := items[0], items[1..];
    UniqueTail(items);
    var d' := SetItem(d, x.0, x.1);
    SetItemKeys(d, x.0, x.1);
    SetItemUnique(d, x.0, x.1);
    assert Get(rest, x.0) == None;
    assert Keys(d') == Keys(d);
    forall i | 0 <= i < |d| ensures Overwrite(d', rest)[i] == Overwrite(d, items)[i] {
      if d[i].0 != x.0 {
        assert Get(items, d[i].0) == Get(rest, d[i].0);
      }
    }
  }

  /** Appending a new key first and overwriting from the rest is overwriting from all of `items`, then that key. */
  lemma OverwriteStepNew(d: Dict, items: Dict)
    requires UniqueKeys(items) && items != [] && items[0].0 !in Keys(d)
    ensures Keys(SetItem(d, items[0].0, items[0].1)) == Keys(d) + [items[0].0]
    ensures Overwrite(SetItem(d, items[0].0, items[0].1), items[1..]) == Overwrite(d, items) + [items[0]]
  {
    var x, rest := items[0], items[1..];
    UniqueTail(items);
    SetItemKeys(d, x.0, x.1);
    var d' := d + [x];
    assert Get(rest, x.0) == None;
    assert Keys(d') == Keys(d) + [x.0];
    forall i | 0 <= i < |d'| ensures Overwrite(d', rest)[i] == (Overwrite(d, items) + [x])[i] {
      if i < |d| {
        assert d[i].0 != x.0 by { assert Keys(d)[i] == d[i].0; }
        assert Get(items, d[i].0) == Get(rest, d[i].0);
      }
    }
  }

  /** Regrouping an entry between two parts of a dictionary. */
  lemma AppendRegroup(u: Dict, o: Dict, x: (string, Value), n: Dict, m: Dict)
    requires u == (o + [x]) + n && m == [x] + n
    ensures u == o + m
  {
  }

  /** One step of `UpdateShape` when the first key of `items` is already in `d`. */
  lemma ShapeStepExisting(d: Dict, items: Dict)
    requires UniqueKeys(d) && UniqueKeys(items) && items != [] && items[0].0 in Keys(d)
    requires var d' := SetItem(d, items[0].0, items[0].1);
      Update(d', items[1..]) == Overwrite(d', items[1..]) + NewEntries(Keys(d'), items[1..])
    ensures Update(d, items) == Overwrite(d, items) + NewEntries(Keys(d), items)
  {
    OverwriteStepExisting(d, items);
    assert NewEntries(Keys(d), items) == NewEntries(Keys(d), items[1..]);
  }

  /** One step of `UpdateShape` when the first key of `items` is new to `d`. */
  lemma ShapeStepNew(d: Dict, items: Dict)
    requires UniqueKeys(items) && items != [] && items[0].0 !in Keys(d)
    requires var d' := SetItem(d, items[0].0, items[0].1);
      Update(d', items[1..]) == Overwrite(d', items[1..]) + NewEntries(Keys(d'), items[1..])
    ensures Update(d, items) == Overwrite(d, items) + NewEntries(Keys(d), items)
  {
    var x, rest := items[0], items[1..];
    var o, n := Overwrite(d, items), NewEntries(Keys(d), rest);
    assert Update(d, items) == (o + [x]) + n by {
      UniqueTail(items);
      OverwriteStepNew(d, items);
      NewEntriesSkipsAbsent(Keys(d), x.0, rest);
    }
    assert NewEntries(Keys(d), items) == [x] + n;
    AppendRegroup(Update(d, items), o, x, n, NewEntries(Keys(d), items));
  }

  /**
   * The reference shape of an update: the old entries in their old order,
   * each with its value from `items` when `items` has its key, followed by
   * the entries of `items` with new keys, in the order of `items`.
   */
  lemma {:induction false} UpdateShape(d: Dict, items: Dict)
    requires UniqueKeys(d) && UniqueKeys(items)
    ensures Update(d, items) == Overwrite(d, items) + NewEntries(Keys(d), items)
    decreases |items|
  {
    if items == [] {
      assert Overwrite(d, items) == d;
    } else {
      UniqueTail(items);
      SetItemUnique(d, items[0].0, items[0].1);
      UpdateShape(SetItem(d, items[0].0, items[0].1), items[1..]);
      if items[0].0 in Keys(d) {
        ShapeStepExisting(d, items);
      } else {
        ShapeStepNew(d, items);
      }
    }
  }

  /** The keys of an update are the old keys and the keys of `items`. */
  lemma {:induction false} UpdateKeys(d: Dict, items: Dict)
    ensures forall k :: k in Keys(Update(d, items)) <==> k in Keys(d) || k in Keys(items)
    decreases |items|
  {
    if items != [] {
      var d' := SetItem(d, items[0].0, items[0].1);
      UpdateKeys(d', items[1..]);
      assert Keys(items) == [items[0].0] + Keys(items[1..]);
      forall k ensures k in Keys(d') <==> k in Keys(d) || k == items[0].0 {
        SetItemGet(d, items[0].0, items[0].1, k);
      }
    }
  }

  /** After an update, a key of `items` has its value from `items`; any other key keeps its old value. */
  lemma {:induction false} UpdateGet(d: Dict, items: Dict, k: string)
    requires UniqueKeys(items)
    ensures Get(Update(d, items), k) == if k in Keys(items) then Get(items, k) else Get(d, k)
    decreases |items|
  {
    if items != [] {
      UniqueTail(items);
      assert Keys(items) == [items[0].0] + Keys(items[1..]);
      SetItemGet(d, items[0].0, items[0].1, k);
      UpdateGet(SetItem(d, items[0].0, items[0].1), items[1..], k);
    }
  }

  /** An update keeps keys unique. */
  lemma {:induction false} UpdateUnique(d: Dict, items: Dict)
    requires UniqueKeys(d)
    ensures UniqueKeys(Update(d, items))
    decreases |items|
  {
    if items != [] {
      SetItemUnique(d, items[0].0, items[0].1);
      UpdateUnique(SetItem(d, items[0].0, items[0].1), items[1..]);
    }
  }

  /** An update never moves an existing key: the old keys stay a prefix. */
  lemma {:induction false} UpdateKeepsPositions(d: Dict, items: Dict)
    ensures |Update(d, items)| >= |d|
    ensures forall i :: 0 <= i < |d| ==> Update(d, items)[i].0 == d[i].0
    decreases |items|
  {
    if items != [] {
      SetItemKeys(d, items[0].0, items[0].1);
      UpdateKeepsPositions(SetItem(d, items[0].0, items[0].1), items[1..]);
    }
  }

  /** Setting a key to the value it already has changes nothing. */
  lemma {:induction false} SetItemAgreeing(d: Dict, k: string, v: Value)
    requires UniqueKeys(d) && Get(d, k) == Some(v)
    ensures SetItem(d, k, v) == d
  {
    if d[0].0 != k {
      UniqueTail(d);
      SetItemAgreeing(d[1..], k, v);
    }
  }

  /** Merging entries that the dictionary already holds changes nothing. */
  lemma {:induction false} UpdateAgreeing(d: Dict, items: Dict)
    requires UniqueKeys(d) && UniqueKeys(items)
    requires forall k :: k in Keys(items) ==> Get(d, k) == Get(items, k)
    ensures Update(d, items) == d
    decreases |items|
  {
    if items != [] {
      UniqueTail(items);
      assert Keys(items) == [items[0].0] + Keys(items[1..]);
      SetItemAgreeing(d, items[0].0, items[0].1);
      forall k | k in Keys(items[1..]) ensures Get(d, k) == Get(items[1..], k) {
        assert Get(items, k) == Get(items[1..], k);
      }
      UpdateAgreeing(d, items[1..]);
    }
  }

  /** Merging the same entries a second time changes nothing. */
  lemma UpdateIdempotent(d: Dict, items: Dict)
    requires UniqueKeys(d) && UniqueKeys(items)
    ensures Update(Update(d, items), items) == Update(d, items)
  {
    var e := Update(d, items);
    UpdateUnique(d, items);
    UpdateKeys(d, items);
    forall k | k in Keys(items) ensures Get(e, k) == Get(items, k) {
      UpdateGet(d, items, k);
    }
    UpdateAgreeing(e, items);
  }

  // ---------------------------------------------------------------------
  // Rows of the join and their flattening
  // ---------------------------------------------------------------------

  /** A stored sample: its generated key, its name and its analysis's key. */
  datatype Sample = Sample(sample_id: int, sample_name: string, analysis_id: int)

  /** A stored result: its generated key, the key of its sample, and its metrics object. */
  datatype Result = Result(result_id: int, sample_id: int, metrics: Dict)

  /** One row of `session.query(Result, Sample).join(Sample)`. */
  type Pair = (Result, Sample)

  /** The row's two leading columns, taken from the sample. */
  function Header(s: Sample): Dict
  {
    [("sample_name", Text(s.sample_name)), ("analysis_id", Integer(s.analysis_id))]
  }

  /** The flattened row of one pair: the header, then the metrics merged in. */
  function RowOf(p: Pair): Dict
  {
    Update(Header(p.1), p.0.metrics)
  }

  /**
   * A row starts with `sample_name` and `analysis_id`; its keys are those
   * two and the metric keys, each once; every metric key carries its metric
   * value; a header value survives unless a metric of the same name
   * replaces it; and the rest of the row is the other metrics in order.
   */
  lemma RowShape(p: Pair)
    requires UniqueKeys(p.0.metrics)
    ensures var row := RowOf(p);
      && |row| >= 2 && row[0].0 == "sample_name" && row[1].0 == "analysis_id"
      && UniqueKeys(row)
      && (forall k :: k in Keys(row) <==> k == "sample_name" || k == "analysis_id" || k in Keys(p.0.metrics))
      && (forall k :: k in Keys(p.0.metrics) ==> Get(row, k) == Get(p.0.metrics, k))
      && ("sample_name" !in Keys(p.0.metrics) ==> Get(row, "sample_name") == Some(Text(p.1.sample_name)))
      && ("analysis_id" !in Keys(p.0.metrics) ==> Get(row, "analysis_id") == Some(Integer(p.1.analysis_id)))
      && row[2..] == NewEntries(["sample_name", "analysis_id"], p.0.metrics)
  {
    var h, m := Header(p.1), p.0.metrics;
    assert Keys(h) == ["sample_name", "analysis_id"];
    UpdateShape(h, m);
    UpdateUnique(h, m);
    UpdateKeys(h, m);
    forall k ensures Get(RowOf(p), k) == if k in Keys(m) then Get(m, k) else Get(h, k) {
      UpdateGet(h, m, k);
    }
  }

  /** Re-merging a row's own metrics into it is a no-op. */
  lemma RowReflattenNoop(p: Pair)
    requires UniqueKeys(p.0.metrics)
    ensures Update(RowOf(p), p.0.metrics) == RowOf(p)
  {
    UpdateIdempotent(Header(p.1), p.0.metrics);
  }

  /** `return_dataframe`: one row per pair, in the order of the pairs. */
  method ReturnDataframe(query: seq<Pair>) returns (rows: seq<Dict>)
    ensures |rows| == |query|
    ensures forall i :: 0 <= i < |query| ==> rows[i] == RowOf(query[i])
    ensures forall i :: 0 <= i < |query| ==>
      |rows[i]| >= 2 && rows[i][0].0 == "sample_name" && rows[i][1].0 == "analysis_id"
  {
    rows := [];
    var i := 0;
    while i < |query|
      invariant 0 <= i <= |query|
      invariant |rows| == i
      invariant forall j :: 0 <= j < i ==> rows[j] == RowOf(query[j])
      invariant forall j :: 0 <= j < i ==>
        |rows[j]| >= 2 && rows[j][0].0 == "sample_name" && rows[j][1].0 == "analysis_id"
    {
      var (result, sample) := query[i];
      var row := Header(sample);
      UpdateKeepsPositions(row, result.metrics);
      row := Update(row, result.metrics);
      rows := rows + [row];
      i := i + 1;
    }
  }

  // ---------------------------------------------------------------------
  // The join
  // ---------------------------------------------------------------------

  /** The pairs of `r` with each sample it references. */
  function JoinOne(r: Result, samples: seq<Sample>): seq<Pair>
  {
    if samples == [] then []
    else (if r.sample_id == samples[0].sample_id then [(r, samples[0])] else []) + JoinOne(r, samples[1..])
  }

  /** The inner join of the results table with the samples table, in one fixed order. */
  function InnerJoin(results: seq<Result>, samples: seq<Sample>): seq<Pair>
  {
    if results == [] then [] else JoinOne(results[0], samples) + InnerJoin(results[1..], samples)
  }

  /** A pair is joined for `r` exactly when it is `r` with a stored sample that `r` references. */
  lemma {:induction false} JoinOneMembers(r: Result, samples: seq<Sample>, p: Pair)
    ensures p in JoinOne(r, samples) <==> p.0 == r && p.1 in samples && r.sample_id == p.1.sample_id
  {
    if samples != [] {
      JoinOneMembers(r, samples[1..], p);
    }
  }

  /** A pair is in the join exactly when its result references its sample. */
  lemma {:induction false} InnerJoinMembers(results: seq<Result>, samples: seq<Sample>, p: Pair)
    ensures p in InnerJoin(results, samples) <==>
      p.0 in results && p.1 in samples && p.0.sample_id == p.1.sample_id
  {
    if results != [] {
      JoinOneMembers(results[0], samples, p);
      InnerJoinMembers(results[1..], samples, p);
    }
  }

  // ---------------------------------------------------------------------
  // Filter selection
  // ---------------------------------------------------------------------

  /** A query argument: `None`, a scalar, or a list of scalars. */
  datatype Arg<T> = Absent | One(value: T) | Many(values: seq<T>)

  /** Python truthiness of an argument whose falsy scalar is `falsy` (`0`, `''`). */
  predicate Truthy<T(==)>(a: Arg<T>, falsy: T)
  {
    match a
    case Absent => false
    case One(v) => v != falsy
    case Many(vs) => vs != []
  }

  /** The filter applied to the join: `in_`, `==`, or none. */
  datatype Filter<T> = NoFilter | Equals(value: T) | Within(values: seq<T>)

  /** `if arg and isinstance(arg, list)`, then `elif arg`, else no filter. */
  function ChooseFilter<T(==)>(a: Arg<T>, falsy: T): (f: Filter<T>)
    ensures f.Within? <==> a.Many? && a.values != []
    ensures f.Equals? <==> a.One? && a.value != falsy
    ensures f.NoFilter? <==> !Truthy(a, falsy)
    ensures f.Within? ==> f.values == a.values
    ensures f.Equals? ==> f.value == a.value
  {
    if Truthy(a, falsy) && a.Many? then Within(a.values)
    else if Truthy(a, falsy) then Equals(a.value)
    else NoFilter
  }

  /** `x` passes the filter: always without a filter, by equality, or by list membership. */
  predicate Accepts<T(==)>(f: Filter<T>, x: T)
  {
    match f
    case NoFilter => true
    case Equals(v) => x == v
    case Within(vs) => x in vs
  }

  /** The pairs whose sample's `column` passes `f`, each as often as in `joined`. */
  function Select<T(==)>(joined: seq<Pair>, f: Filter<T>, column: Sample -> T): (q: seq<Pair>)
    ensures forall p :: multiset(q)[p] == if Accepts(f, column(p.1)) then multiset(joined)[p] else 0
  {
    if joined == [] then []
    else
      assert joined == [joined[0]] + joined[1..];
      (if Accepts(f, column(joined[0].1)) then [joined[0]] else []) + Select(joined[1..], f, column)
  }

  /** Without a filter the selection is the join itself, in its order. */
  lemma {:induction false} SelectNoFilter<T>(joined: seq<Pair>, column: Sample -> T)
    ensures Select(joined, NoFilter, column) == joined
  {
    if joined != [] {
      SelectNoFilter(joined[1..], column);
    }
  }

  /** The three cases of the analysis query, stated on one sample. */
  predicate KeepsByAnalysis(a: Arg<int>, s: Sample)
  {
    match a
    case Absent => true
    case One(v) => v == 0 || s.analysis_id == v
    case Many(vs) => vs == [] || s.analysis_id in vs
  }

  /** The three cases of the sample query, stated on one sample. */
  predicate KeepsBySample(a: Arg<string>, s: Sample)
  {
    match a
    case Absent => true
    case One(v) => v == "" || s.sample_name == v
    case Many(vs) => vs == [] || s.sample_name in vs
  }

  /**
   * The pairs `get_results_by_analysis` passes on: a non-empty list keeps
   * the samples whose `analysis_id` is listed, a non-zero id the samples
   * with that id, and anything falsy the whole join.
   */
  function ResultsByAnalysis(joined: seq<Pair>, analysisId: Arg<int>): (q: seq<Pair>)
    ensures forall p :: multiset(q)[p] == if KeepsByAnalysis(analysisId, p.1) then multiset(joined)[p] else 0
    ensures !Truthy(analysisId, 0) ==> q == joined
  {
    var f := ChooseFilter(analysisId, 0);
    SelectNoFilter(joined, (s: Sample) => s.analysis_id);
    Select(joined, f, (s: Sample) => s.analysis_id)
  }

  /** `get_results_by_sample`: the same three cases on `sample_name`. */
  function ResultsBySample(joined: seq<Pair>, sampleName: Arg<string>): (q: seq<Pair>)
    ensures forall p :: multiset(q)[p] == if KeepsBySample(sampleName, p.1) then multiset(joined)[p] else 0
    ensures !Truthy(sampleName, "") ==> q == joined
  {
    var f := ChooseFilter(sampleName, "");
    SelectNoFilter(joined, (s: Sample) => s.sample_name);
    Select(joined, f, (s: Sample) => s.sample_name)
  }

  /**
   * Whatever order the database returns the join in, an analysis query
   * returns a sub-multiset of the inner join, and every pair it returns
   * pairs a stored result with the stored sample that result references.
   */
  lemma ResultsByAnalysisFromJoin(results: seq<Result>, samples: seq<Sample>, joined: seq<Pair>, analysisId: Arg<int>)
    requires multiset(joined) == multiset(InnerJoin(results, samples))
    ensures multiset(ResultsByAnalysis(joined, analysisId)) <= multiset(InnerJoin(results, samples))
    ensures forall p :: p in ResultsByAnalysis(joined, analysisId) ==>
      p.0 in results && p.1 in samples && p.0.sample_id == p.1.sample_id && KeepsByAnalysis(analysisId, p.1)
  {
    var q := ResultsByAnalysis(joined, analysisId);
    forall p | p in q
      ensures p.0 in results && p.1 in samples && p.0.sample_id == p.1.sample_id && KeepsByAnalysis(analysisId, p.1)
    {
      assert p in multiset(InnerJoin(results, samples));
      InnerJoinMembers(results, samples, p);
    }
  }

  /** The same for a sample query. */
  lemma ResultsBySampleFromJoin(results: seq<Result>, samples: seq<Sample>, joined: seq<Pair>, sampleName: Arg<string>)
    requires multiset(joined) == multiset(InnerJoin(results, samples))
    ensures multiset(ResultsBySample(joined, sampleName)) <= multiset(InnerJoin(results, samples))
    ensures forall p :: p in ResultsBySample(joined, sampleName) ==>
      p.0 in results && p.1 in samples && p.0.sample_id == p.1.sample_id && KeepsBySample(sampleName, p.1)
  {
    var q := ResultsBySample(joined, sampleName);
    forall p | p in q
      ensures p.0 in results && p.1 in samples && p.0.sample_id == p.1.sample_id && KeepsBySample(sampleName, p.1)
    {
      assert p in multiset(InnerJoin(results, samples));
      InnerJoinMembers(results, samples, p);
    }
  }

  /** `get_results_by_analysis`: the selected pairs, flattened. */
  method GetResultsByAnalysis(joined: seq<Pair>, analysisId: Arg<int>) returns (rows: seq<Dict>)
    ensures |rows| == |ResultsByAnalysis(joined, analysisId)|
    ensures forall i :: 0 <= i < |rows| ==>
      rows[i] == RowOf(ResultsByAnalysis(joined, analysisId)[i]) &&
      KeepsByAnalysis(analysisId, ResultsByAnalysis(joined, analysisId)[i].1)
  {
    var q := ResultsByAnalysis(joined, analysisId);
    assert forall p :: p in q ==> multiset(q)[p] > 0;
    rows := ReturnDataframe(q);
  }

  /** `get_results_by_sample`: the selected pairs, flattened. */
  method GetResultsBySample(joined: seq<Pair>, sampleName: Arg<string>) returns (rows: seq<Dict>)
    ensures |rows| == |ResultsBySample(joined, sampleName)|
    ensures forall i :: 0 <= i < |rows| ==>
      rows[i] == RowOf(ResultsBySample(joined, sampleName)[i]) &&
      KeepsBySample(sampleName, ResultsBySample(joined, sampleName)[i].1)
  {
    var q := ResultsBySample(joined, sampleName);
    assert forall p :: p in q ==> multiset(q)[p] > 0;
    rows := ReturnDataframe(q);
  }
}
