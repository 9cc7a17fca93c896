/**
 * The metadata-to-record mapping of the insert command: a parsed metadata
 * document becomes one Analysis record and one Sample record per element
 * of its `Samples` array, all staged in one session and committed once.
 */
module Insert {
  import opened Values

  /** A JSON object of the metadata document. */
  type Mapping = map<string, Value>

  /** The allow-list of the `Analysis` block, in the order the code visits it. */
  const AnalysisFields: seq<string> := ["analysis_name", "date", "department", "analyst"]

  /** The allow-list of each element of the `Samples` array. */
  const SampleFields: seq<string> := ["sample_name", "sample_type", "sample_description"]

  /**
   * The parsed metadata document, reduced to the two top-level fields the
   * code reads; `None` is a document that lacks that field.
   */
  datatype Metadata = Metadata(analysis: Option<Mapping>, samples: Option<seq<Mapping>>)

  /** The entries of `block` whose key is one of `fields`. */
  function Restrict(block: Mapping, fields: seq<string>): Mapping
  {
    map k | k in block && k in fields :: block[k]
  }

  /** The set of names in an allow-list. */
  function FieldSet(fields: seq<string>): set<string>
  {
    set f | f in fields
  }

  /**
   * One `for field in [...]` loop: copies each allow-listed field that the
   * block has and skips the ones it lacks.
   */
  method ExtractFields(block: Mapping, fields: seq<string>) returns (data: Mapping)
    ensures data.Keys == block.Keys * FieldSet(fields)
    ensures forall k :: k in data ==> data[k] == block[k]
    ensures data == Restrict(block, fields)
  {
    data := map[];
    var i := 0;
    while i < |fields|
      invariant 0 <= i <= |fields|
      invariant data.Keys == block.Keys * FieldSet(fields[..i])
      invariant forall k :: k in data ==> data[k] == block[k]
    {
      assert fields[..i + 1] == fields[..i] + [fields[i]];
      var field := fields[i];
      if field in block {
        data := data[field := block[field]];
      }
      i := i + 1;
    }
    assert fields[..i] == fields;
  }

  /** Restriction is idempotent: extracting again from extracted data changes nothing. */
  lemma RestrictIdempotent(block: Mapping, fields: seq<string>)
    ensures Restrict(Restrict(block, fields), fields) == Restrict(block, fields)
  {
  }

  /** A key outside the allow-list never reaches the record, whatever its value. */
  lemma RestrictExcludes(block: Mapping, fields: seq<string>, k: string)
    requires k !in fields
    ensures k !in Restrict(block, fields)
  {
  }

  /** An allow-listed key that the block lacks is skipped silently. */
  lemma RestrictSkipsMissing(block: Mapping, fields: seq<string>, k: string)
    requires k in fields && k !in block
    ensures k !in Restrict(block, fields)
    ensures Restrict(block, fields) == Restrict(block, RemoveField(fields, k))
  {
  }

  /** `fields` without every occurrence of `k`. */
  function RemoveField(fields: seq<string>, k: string): (r: seq<string>)
    ensures forall f :: f in r <==> f in fields && f != k
  {
    if fields == [] then []
    else (if fields[0] == k then [] else [fields[0]]) + RemoveField(fields[1..], k)
  }

  /** What one invocation builds from a document, before any object exists. */
  datatype Plan = Plan(analysis: Mapping, samples: seq<Mapping>)

  /** Either a plan or the top-level key whose lookup raised `KeyError`. */
  datatype Outcome = Planned(plan: Plan) | Missing(key: string)

  /** How an invocation ends. */
  datatype Status = Committed | KeyError(key: string) | IntegrityError

  /**
   * The data of every record the insert command builds: the `Analysis`
   * block restricted to its allow-list, then each element of `Samples`
   * restricted to its allow-list, in order. `Analysis` is looked up first.
   */
  function Build(doc: Metadata): Outcome
  {
    match doc.analysis
    case None => Missing("Analysis")
    case Some(block) =>
      match doc.samples
      case None => Missing("Samples")
      case Some(elements) =>
        Planned(Plan(Restrict(block, AnalysisFields),
                     seq(|elements|, i requires 0 <= i < |elements| => Restrict(elements[i], SampleFields))))
  }

  /**
   * The analysis data has exactly the allow-listed keys the block has,
   * each with the block's value; one sample datum per element, in order,
   * each the element's allow-listed entries.
   */
  lemma BuildRestricts(doc: Metadata)
    requires doc.analysis.Some? && doc.samples.Some?
    ensures var p := Build(doc).plan;
      && p.analysis.Keys == doc.analysis.value.Keys * FieldSet(AnalysisFields)
      && (forall k :: k in p.analysis ==> p.analysis[k] == doc.analysis.value[k])
      && |p.samples| == |doc.samples.value|
      && (forall i :: 0 <= i < |p.samples| ==>
            && p.samples[i].Keys == doc.samples.value[i].Keys * FieldSet(SampleFields)
            && forall k :: k in p.samples[i] ==> p.samples[i][k] == doc.samples.value[i][k])
  {
  }

  /** An `Analysis` object, keyword-constructed from its extracted data. */
  class AnalysisRecord {
    const data: Mapping

    constructor (data: Mapping)
      ensures this.data == data
    {
      this.data := data;
    }
  }

  /** A `Sample` object: its extracted data and the `analysis` relationship. */
  class SampleRecord {
    const data: Mapping
    const analysis: AnalysisRecord

    constructor (data: Mapping, analysis: AnalysisRecord)
      ensures this.data == data && this.analysis == analysis
    {
      this.data := data;
      this.analysis := analysis;
    }
  }

  /** An object handed to `session.add`. */
  datatype Staged = StagedAnalysis(analysis: AnalysisRecord) | StagedSample(sample: SampleRecord)

  /** `key` is set to a non-null value. */
  predicate Present(data: Mapping, key: string)
  {
    key in data && data[key] != Null
  }

  /** The record satisfies its table's NOT NULL column (`analysis_name`, `sample_name`). */
  predicate NotNull(r: Staged)
  {
    match r
    case StagedAnalysis(a) => Present(a.data, "analysis_name")
    case StagedSample(s) => Present(s.data, "sample_name")
  }

  /** Every record of the batch satisfies its NOT NULL column. */
  predicate AllNotNull(batch: seq<Staged>)
  {
    forall i :: 0 <= i < |batch| ==> NotNull(batch[i])
  }

  /**
   * A unit of work: the objects added since the last commit, and the
   * batches already made durable, one per successful commit.
   */
  class Session {
    var pending: seq<Staged>
    var commits: seq<seq<Staged>>

    constructor ()
      ensures pending == [] && commits == []
    {
      pending := [];
      commits := [];
    }

    method Add(r: Staged)
      modifies this
      ensures pending == old(pending) + [r]
      ensures commits == old(commits)
    {
      pending := pending + [r];
    }

    /**
     * Flushes the pending batch as one transaction; a record that leaves a
     * NOT NULL column empty makes the whole batch fail and nothing is written.
     */
    method Commit() returns (ok: bool)
      modifies this
      ensures ok <==> AllNotNull(old(pending))
      ensures ok ==> commits == old(commits) + [old(pending)] && pending == []
      ensures !ok ==> commits == old(commits) && pending == old(pending)
    {
      ok := forall i | 0 <= i < |pending| :: NotNull(pending[i]);
      if ok {
        commits := commits + [pending];
        pending := [];
      }
    }
  }

  /**
   * `batch` is the plan's analysis followed by its samples, in order, and
   * every sample is linked to that one analysis object.
   */
  ghost predicate Realizes(batch: seq<Staged>, p: Plan)
  {
    && |batch| == 1 + |p.samples|
    && batch[0].StagedAnalysis?
    && batch[0].analysis.data == p.analysis
    && forall i :: 1 <= i < |batch| ==>
         && batch[i].StagedSample?
         && batch[i].sample.data == p.samples[i - 1]
         && batch[i].sample.analysis == batch[0].analysis
  }

  /** The plan meets both NOT NULL constraints. */
  predicate PlanValid(p: Plan)
  {
    Present(p.analysis, "analysis_name") && forall i :: 0 <= i < |p.samples| ==> Present(p.samples[i], "sample_name")
  }

  /** A realized batch passes the commit's NOT NULL check exactly when its plan is valid. */
  lemma RealizesNotNull(batch: seq<Staged>, p: Plan)
    requires Realizes(batch, p)
    ensures AllNotNull(batch) <==> PlanValid(p)
  {
    if AllNotNull(batch) {
      forall i | 0 <= i < |p.samples| ensures Present(p.samples[i], "sample_name") {
        assert NotNull(batch[i + 1]);
        assert batch[i + 1].sample.data == p.samples[i];
      }
      assert NotNull(batch[0]);
    }
    if PlanValid(p) {
      forall i | 0 <= i < |batch| ensures NotNull(batch[i]) {
        if i > 0 {
          assert Present(p.samples[i - 1], "sample_name");
        }
      }
    }
  }

  /**
   * A valid plan is exactly a document whose `Analysis` block and every
   * `Samples` element carry a non-null name: restriction keeps both names.
   */
  lemma PlanValidIffNamesPresent(doc: Metadata)
    requires doc.analysis.Some? && doc.samples.Some?
    ensures PlanValid(Build(doc).plan) <==>
      Present(doc.analysis.value, "analysis_name") &&
      forall i :: 0 <= i < |doc.samples.value| ==> Present(doc.samples.value[i], "sample_name")
  {
    var p := Build(doc).plan;
    assert "analysis_name" in AnalysisFields;
    assert "sample_name" in SampleFields;
    assert forall i :: 0 <= i < |p.samples| ==> p.samples[i] == Restrict(doc.samples.value[i], SampleFields);
  }

  /**
   * The insert command. A missing `Analysis` raises before anything is
   * staged; a missing `Samples` raises after the analysis is staged; both
   * leave nothing committed. Otherwise the analysis and then every sample
   * are staged and committed in one transaction.
   */
  method InsertRecords(doc: Metadata) returns (session: Session, status: Status)
    ensures fresh(session)
    ensures doc.analysis.None? ==>
      status == KeyError("Analysis") && session.commits == [] && session.pending == []
    ensures doc.analysis.Some? && doc.samples.None? ==>
      && status == KeyError("Samples") && session.commits == []
      && |session.pending| == 1 && session.pending[0].StagedAnalysis?
      && session.pending[0].analysis.data == Restrict(doc.analysis.value, AnalysisFields)
    ensures Build(doc).Planned? ==>
      && (status == Committed <==> PlanValid(Build(doc).plan))
      && (status == Committed ==>
            session.pending == [] && |session.commits| == 1 && Realizes(session.commits[0], Build(doc).plan)
            && fresh(session.commits[0][0].analysis)
            && forall r :: r in session.commits[0][1..] ==>
                 r.StagedSample? && r.sample.analysis == session.commits[0][0].analysis)
      && (status != Committed ==>
            status == IntegrityError && session.commits == [] && Realizes(session.pending, Build(doc).plan))
  {
    session := new Session();
    if doc.analysis.None? {
      status := KeyError("Analysis");
      return;
    }
    var analysisData := ExtractFields(doc.analysis.value, AnalysisFields);
    var analysis := new AnalysisRecord(analysisData);
    session.Add(StagedAnalysis(analysis));
    if doc.samples.None? {
      status := KeyError("Samples");
      return;
    }
    var elements := doc.samples.value;
    var i := 0;
    while i < |elements|
      invariant 0 <= i <= |elements|
      invariant fresh(session) && fresh(analysis)
      invariant session.commits == []
      invariant |session.pending| == 1 + i
      invariant session.pending[0] == StagedAnalysis(analysis)
      invariant analysis.data == Restrict(doc.analysis.value, AnalysisFields)
      invariant forall j :: 1 <= j <= i ==>
        && session.pending[j].StagedSample?
        && session.pending[j].sample.data == Restrict(elements[j - 1], SampleFields)
        && session.pending[j].sample.analysis == analysis
    {
      var sampleData := ExtractFields(elements[i], SampleFields);
      var sample := new SampleRecord(sampleData, analysis);
      ghost var before := session.pending;
      session.Add(StagedSample(sample));
      assert forall j :: 0 <= j < |before| ==> session.pending[j] == before[j];
      i := i + 1;
    }
    ghost var batch := session.pending;
    ghost var p := Build(doc).plan;
    assert forall j :: 0 <= j < |p.samples| ==> p.samples[j] == Restrict(elements[j], SampleFields);
    assert Realizes(batch, p);
    RealizesNotNull(batch, p);
    var ok := session.Commit();
    status := if ok then Committed else IntegrityError;
  }
}
