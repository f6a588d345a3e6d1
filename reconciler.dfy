/** initialize_run without its database and file writes: the matched samples reconciled
    with the samples already known, their categories set, the metadata flags updated and
    the run's issue summary built. */
module Reconciler {
  import opened Strings
  import opened Records
  import opened Metadata
  import opened Matcher

  /** The component whose id and name every category records. */
  datatype Component = Component(id: Doc, name: Doc)

  /** What the pipeline takes from outside its own code: bifrostlib's
      `sample_name_generator`, the document its `Sample(name=...)` constructor starts from
      for a given name, `to_reference`, the component, `os.path.abspath` of a file of the
      input folder, and `os.getcwd()`. */
  datatype Env = Env(
    nameGen: string -> string,
    sampleInit: string -> map<string, Doc>,
    runRef: map<string, Doc> -> Doc,
    sampleRef: map<string, Doc> -> Doc,
    component: Component,
    absPath: string -> string,
    cwd: string)

  function ComponentDoc(env: Env): Doc
  {
    Dict(map["id" := env.component.id, "name" := env.component.name])
  }

  /** The `paired_reads` category: the absolute paths of the group's two files. */
  function PairedReads(env: Env, files: seq<string>): Doc
    requires |files| == 2
  {
    Dict(map[
      "name" := Str("paired_reads"),
      "component" := ComponentDoc(env),
      "summary" := Dict(map["data" := List([Str(env.absPath(files[0])), Str(env.absPath(files[1]))])])])
  }

  /** The `sample_info` category: the metadata row's fields. */
  function SampleInfo(env: Env, summary: map<string, Doc>): Doc
  {
    Dict(map["name" := Str("sample_info"), "component" := ComponentDoc(env), "summary" := Dict(summary)])
  }

  /** `doc["name"] == k`. */
  predicate NamedAs(doc: map<string, Doc>, k: string)
  {
    "name" in doc && doc["name"] == Str(k)
  }

  predicate NamedIn(docs: seq<map<string, Doc>>, k: string)
  {
    exists j | 0 <= j < |docs| :: NamedAs(docs[j], k)
  }

  /** The position of the last document named `k`, or -1: the scan over `samples` keeps
      the last match. */
  function LastNamed(docs: seq<map<string, Doc>>, k: string): (r: int)
    ensures -1 <= r < |docs|
    ensures r >= 0 ==> NamedAs(docs[r], k) && forall j :: r < j < |docs| ==> !NamedAs(docs[j], k)
    ensures r == -1 <==> !NamedIn(docs, k)
  {
    if docs == [] then -1
    else if NamedAs(docs[|docs| - 1], k) then |docs| - 1
    else
      var r := LastNamed(docs[..|docs| - 1], k);
      assert forall j :: 0 <= j < |docs| - 1 ==> docs[..|docs| - 1][j] == docs[j];
      r
  }

  /** The document of a sample first seen in this run. */
  function NewSampleDoc(env: Env, runReference: Doc, k: string): map<string, Doc>
  {
    var n := env.nameGen(k);
    env.sampleInit(n)["name" := Str(n)]["run" := runReference]["display_name" := Str(k)]
  }

  /** A metadata row with both `haveReads` and `haveMetaData` set. */
  function Marked(row: MetaRow): MetaRow
  {
    row.(haveReads := true, haveMetaData := true)
  }

  /** `metadata.loc[metadata["sample_name"] == k, col] = True` for both flags. */
  function MarkHave(rows: seq<MetaRow>, k: string): (r: seq<MetaRow>)
    ensures |r| == |rows| && NamesOf(r) == NamesOf(rows)
    ensures forall i :: 0 <= i < |rows| ==> r[i] == if rows[i].sampleName == k then Marked(rows[i]) else rows[i]
  {
    seq(|rows|, i requires 0 <= i < |rows| => if rows[i].sampleName == k then Marked(rows[i]) else rows[i])
  }

  /** The first row named `k`: what the lookup of line 105 evidently means to find. */
  function FirstRowNamed(rows: seq<MetaRow>, k: string): (i: nat)
    requires k in NamesOf(rows)
    ensures i < |rows| && rows[i].sampleName == k
    ensures forall j :: 0 <= j < i ==> rows[j].sampleName != k
  {
    if rows[0].sampleName == k then 0
    else
      assert k in NamesOf(rows[1..]) by {
        var i :| 0 <= i < |rows| && NamesOf(rows)[i] == k;
        assert NamesOf(rows[1..])[i - 1] == k;
      }
      FirstRowNamed(rows[1..], k) + 1
  }

  /** The lookup as written: `iloc` is handed the index label of the first row named `k`,
      and reads the row at that position of the table left after unnamed rows were dropped. */
  function RowByLabelAsWritten(rows: seq<MetaRow>, k: string): Result<MetaRow>
    requires k in NamesOf(rows)
  {
    var indexLabel := rows[FirstRowNamed(rows, k)].position;
    if indexLabel < |rows| then Ok(rows[indexLabel]) else Err(RowOutOfRange(indexLabel))
  }

  /** The documents and the metadata while the matched samples are processed. */
  datatype Pass = Pass(docs: seq<map<string, Doc>>, rows: seq<MetaRow>)

  /** The document a turn starts from: the last sample named `k`, or a new one. */
  function BaseDoc(docs: seq<map<string, Doc>>, k: string, env: Env, runReference: Doc): map<string, Doc>
  {
    var idx := LastNamed(docs, k);
    if idx >= 0 then docs[idx] else NewSampleDoc(env, runReference, k)
  }

  /** That document with its `paired_reads` and `sample_info` categories set, the latter
      from the first row named `k` once the flags of the turn are set. */
  function Reconciled(p: Pass, k: string, files: seq<string>, env: Env, runReference: Doc): map<string, Doc>
    requires |files| == 2 && k in NamesOf(p.rows)
  {
    Categorised(BaseDoc(p.docs, k, env, runReference), MarkHave(p.rows, k), k, files, env)
  }

  /** A document with the two categories of a turn set, given the flagged rows. */
  function Categorised(doc: map<string, Doc>, rows: seq<MetaRow>, k: string, files: seq<string>, env: Env): map<string, Doc>
    requires |files| == 2 && k in NamesOf(rows)
  {
    var info := SampleInfo(env, RowSummary(rows[FirstRowNamed(rows, k)]));
    WithCategory(WithCategory(doc, "paired_reads", PairedReads(env, files)), "sample_info", info)
  }

  /** The documents after a turn: the reused one replaced, or the new one appended. */
  function Placed(docs: seq<map<string, Doc>>, idx: int, doc: map<string, Doc>): seq<map<string, Doc>>
    requires -1 <= idx < |docs|
  {
    if idx >= 0 then docs[idx := doc] else docs + [doc]
  }

  /** One turn of the loop over `sample_dict`: flag the rows, reuse the last sample named
      `k` or start a new one, set its two categories, append it if it is new. */
  function Step(p: Pass, k: string, files: seq<string>, env: Env, runReference: Doc): (r: Pass)
    requires |files| == 2 && k in NamesOf(p.rows)
    ensures NamesOf(r.rows) == NamesOf(p.rows)
  {
    Pass(Placed(p.docs, LastNamed(p.docs, k), Reconciled(p, k, files, env, runReference)), MarkHave(p.rows, k))
  }

  /** Every key to come has a pair of files and names a metadata row. */
  predicate Reconcilable(rows: seq<MetaRow>, keys: seq<string>, files: map<string, seq<string>>)
  {
    forall k | k in keys :: k in files && |files[k]| == 2 && k in NamesOf(rows)
  }

  /** The loop over `sample_dict` from some key on. */
  function Reconcile(p: Pass, keys: seq<string>, files: map<string, seq<string>>, env: Env, runReference: Doc): (r: Pass)
    requires Reconcilable(p.rows, keys, files)
    ensures |r.rows| == |p.rows|
    decreases |keys|
  {
    if keys == [] then p
    else Reconcile(Step(p, keys[0], files[keys[0]], env, runReference), keys[1..], files, env, runReference)
  }

  /** Which of the four row flags an issue list collects. */
  datatype Flag = Duplicated | Changed | NoReads | NoMetaData

  predicate Flagged(row: MetaRow, f: Flag)
  {
    match f
    case Duplicated => row.duplicatedSampleName
    case Changed => row.changedSampleName
    case NoReads => !row.haveReads
    case NoMetaData => !row.haveMetaData
  }

  /** The positions of the rows that carry flag `f`: each flagged row once, in row order. */
  function FlaggedIndices(rows: seq<MetaRow>, f: Flag): (idx: seq<nat>)
    ensures forall k :: 0 <= k < |idx| ==> idx[k] < |rows| && Flagged(rows[idx[k]], f)
    ensures forall k, l :: 0 <= k < l < |idx| ==> idx[k] < idx[l]
    ensures forall i :: 0 <= i < |rows| && Flagged(rows[i], f) ==> i in idx
  {
    if rows == [] then []
    else
      var n := |rows| - 1;
      assert forall i :: 0 <= i < n ==> rows[..n][i] == rows[i];
      FlaggedIndices(rows[..n], f) + if Flagged(rows[n], f) then [n] else []
  }

  /** `list(metadata[metadata[col] == ...]["sample_name"])`: the names of the flagged
      rows, in row order. */
  function NamesFlagged(rows: seq<MetaRow>, f: Flag): (names: seq<string>)
    ensures forall n :: n in names <==> exists i :: 0 <= i < |rows| && Flagged(rows[i], f) && rows[i].sampleName == n
  {
    if rows == [] then []
    else
      var n := |rows| - 1;
      assert forall i :: 0 <= i < n ==> rows[..n][i] == rows[i];
      NamesFlagged(rows[..n], f) + if Flagged(rows[n], f) then [rows[n].sampleName] else []
  }

  /** The names a flag collects are the names of the flagged rows, one per flagged row
      and in row order. */
  lemma {:induction false} NamesFlaggedInOrder(rows: seq<MetaRow>, f: Flag)
    ensures var names, idx := NamesFlagged(rows, f), FlaggedIndices(rows, f);
      |names| == |idx| && forall k :: 0 <= k < |idx| ==> names[k] == rows[idx[k]].sampleName
  {
    if rows != [] {
      var n := |rows| - 1;
      assert forall i :: 0 <= i < n ==> rows[..n][i] == rows[i];
      NamesFlaggedInOrder(rows[..n], f);
    }
  }

  /** `run["issues"]`. */
  function IssuesOf(rows: seq<MetaRow>, unused: seq<string>): Issues
  {
    Issues(
      NamesFlagged(rows, Duplicated), NamesFlagged(rows, Changed), unused,
      NamesFlagged(rows, NoReads), NamesFlagged(rows, NoMetaData))
  }

  /** `[i.to_reference() for i in samples]`. */
  function SampleRefs(env: Env, docs: seq<map<string, Doc>>): (refs: seq<Doc>)
    ensures |refs| == |docs| && forall i :: 0 <= i < |docs| ==> refs[i] == env.sampleRef(docs[i])
  {
    seq(|docs|, i requires 0 <= i < |docs| => env.sampleRef(docs[i]))
  }

  function TypeDoc(runType: Option<string>): Doc
  {
    match runType
    case Some(t) => Str(t)
    case None => Null
  }

  /** The run's document after `run["type"]`, `run["path"]` and `run["issues"]` are set. */
  function RunDocAfter(doc: map<string, Doc>, runType: Option<string>, env: Env, issues: Issues): map<string, Doc>
  {
    doc["type" := TypeDoc(runType)]["path" := Str(env.cwd)]["issues" := IssuesDoc(issues)]
  }

  /** The run document keeps every other field and gains `type`, `path` and `issues`. */
  lemma RunDocAfterFields(doc: map<string, Doc>, runType: Option<string>, env: Env, issues: Issues)
    ensures var r := RunDocAfter(doc, runType, env, issues);
      && r.Keys == doc.Keys + {"type", "path", "issues"}
      && r["type"] == TypeDoc(runType) && r["path"] == Str(env.cwd) && r["issues"] == IssuesDoc(issues)
      && (forall k :: k in doc && k !in {"type", "path", "issues"} ==> r[k] == doc[k])
  {
    assert "type"[0] != "path"[0] && "type"[0] != "issues"[0] && "path"[0] != "issues"[0];
  }

  /** `list(s)` of a Python set: each element once, in an order Python does not fix.
      `file_names_in_metadata` and `unused_files` are such lists. */
  ghost predicate ListsOnce<T(!new)>(order: seq<T>, items: set<T>)
  {
    && (forall g :: g in order <==> g in items)
    && (forall i, j | 0 <= i < j < |order| :: order[i] != order[j])
  }

  /** Everything initialize_run leaves behind: the sample documents, the run's document,
      its issues and its sample references. */
  datatype Outcome = Outcome(docs: seq<map<string, Doc>>, runDoc: map<string, Doc>, issues: Issues, refs: seq<Doc>)

  /** What the run and its samples hold once the matched samples are reconciled;
      `unusedOrder` is the order `list(unused_files)` gives the unused files. */
  function RunOutcome(
    runDoc: map<string, Doc>, docs: seq<map<string, Doc>>, env: Env, rows: seq<MetaRow>, m: Matching,
    unusedOrder: seq<string>, runType: Option<string>): Outcome
    requires Reconcilable(rows, m.dict.keys, m.dict.files)
  {
    var p := Reconcile(Pass(docs, rows), m.dict.keys, m.dict.files, env, env.runRef(runDoc));
    var issues := IssuesOf(p.rows, unusedOrder);
    Outcome(p.docs, RunDocAfter(runDoc, runType, env, issues), issues, SampleRefs(env, p.docs))
  }

  /** `initialize_run` on values. */
  function InitializeRunSpec(
    runDoc: map<string, Doc>, docs: seq<map<string, Doc>>, env: Env, table: Table,
    listing: seq<string>, metadataFile: string, order: seq<seq<string>>, unusedOrder: seq<string>,
    runType: Option<string>): (r: Result<Outcome>)
    requires WellFormed(table)
  {
    var rows :- FormatMetadata(table);
    var m :- ParseDirectorySpec(listing, order, rows, metadataFile);
    MatchedKeysReconcilable(listing, order, rows, metadataFile);
    Ok(RunOutcome(runDoc, docs, env, rows, m, unusedOrder, runType))
  }

  /** The keys parse_directory produces name metadata rows and map to pairs of files. */
  lemma MatchedKeysReconcilable(listing: seq<string>, order: seq<seq<string>>, rows: seq<MetaRow>, metadataFile: string)
    requires ParseDirectorySpec(listing, order, rows, metadataFile).Ok?
    ensures var d := ParseDirectorySpec(listing, order, rows, metadataFile).value.dict;
      Reconcilable(rows, d.keys, d.files)
  {
    ParseDirectoryOutcome(listing, order, rows, metadataFile);
    var d := ParseDirectorySpec(listing, order, rows, metadataFile).value.dict;
    var taken := Taken(Files(listing), order);
    forall k | k in d.keys
      ensures k in d.files && |d.files[k]| == 2 && k in NamesOf(rows)
    {
      assert k in d.files;
      var t :| 0 <= t < |taken| && Carries(rows, taken[t], k) && d.files[k] == taken[t];
      var i :| 0 <= i < |rows| && rows[i].filenames == taken[t] && rows[i].sampleName == k;
      assert NamesOf(rows)[i] == k;
    }
  }

  /** The scan `for i in range(len(samples))`: the last sample named `k`, or the new
      sample when there is none. */
  method FindExisting(current: seq<Sample>, k: string, created: Sample) returns (sample: Sample, exists_: bool)
    ensures var idx := LastNamed(DocsOf(current), k);
      && (exists_ <==> idx >= 0)
      && sample == if idx >= 0 then current[idx] else created
  {
    sample := created;
    exists_ := false;
    for i := 0 to |current|
      invariant var idx := LastNamed(DocsOf(current)[..i], k);
        && (exists_ <==> idx >= 0) && sample == if idx >= 0 then current[idx] else created
    {
      assert DocsOf(current)[..i + 1][..i] == DocsOf(current)[..i];
      if "name" in current[i].doc && current[i].doc["name"] == Str(k) {
        exists_ := true;
        sample := current[i];
      }
    }
    assert DocsOf(current)[..|current|] == DocsOf(current);
  }

  /** The frame the loop keeps: the samples first given come first and in order, and
      none appears twice. */
  ghost predicate Extends(current: seq<Sample>, samples: seq<Sample>)
    reads set s | s in current
  {
    && |samples| <= |current| && current[..|samples|] == samples
    && (forall i, j :: 0 <= i < j < |current| ==> current[i] != current[j])
  }

  /** `Sample(name=run.sample_name_generator(k))` with its `run` and `display_name` set. */
  method NewSample(env: Env, runReference: Doc, k: string) returns (sample: Sample)
    ensures fresh(sample) && sample.doc == NewSampleDoc(env, runReference, k)
  {
    sample := new Sample(env.sampleInit(env.nameGen(k)), env.nameGen(k));
    sample.Put("run", runReference);
    sample.Put("display_name", Str(k));
  }

  /** The sample a turn works on: the last one named `k`, or a new one. */
  method TakeSample(current: seq<Sample>, k: string, env: Env, runReference: Doc) returns (sample: Sample, isNew: bool)
    ensures var idx := LastNamed(DocsOf(current), k);
      && (isNew <==> idx == -1)
      && (!isNew ==> sample == current[idx])
      && (isNew ==> fresh(sample) && sample !in current)
      && sample.doc == BaseDoc(DocsOf(current), k, env, runReference)
  {
    var created := NewSample(env, runReference, k);
    var found;
    sample, found := FindExisting(current, k, created);
    isNew := !found;
  }

  /** `sample.set_category(paired_reads)` and `sample.set_category(sample_info)`. */
  method SetCategories(sample: Sample, rows: seq<MetaRow>, k: string, files: seq<string>, env: Env)
    requires |files| == 2 && k in NamesOf(rows)
    modifies sample
    ensures sample.doc == Categorised(old(sample.doc), rows, k, files, env)
    ensures sample.doc.Keys == old(sample.doc).Keys + {"categories"}
  {
    sample.SetCategory("paired_reads", PairedReads(env, files));
    var sampleMetadata := RowSummary(rows[FirstRowNamed(rows, k)]);
    sample.SetCategory("sample_info", SampleInfo(env, sampleMetadata));
  }

  /** The documents of the list after one turn, when only the turn's sample changed. */
  lemma PlacedDocs(before: seq<map<string, Doc>>, current: seq<Sample>, idx: int, sample: Sample, next: seq<Sample>)
    requires |before| == |current| && -1 <= idx < |current|
    requires forall j :: 0 <= j < |current| && j != idx ==> current[j].doc == before[j]
    requires idx >= 0 ==> current[idx] == sample && next == current
    requires idx == -1 ==> next == current + [sample]
    ensures DocsOf(next) == Placed(before, idx, sample.doc)
  {
    assert |DocsOf(next)| == |Placed(before, idx, sample.doc)|;
    forall j | 0 <= j < |next|
      ensures DocsOf(next)[j] == Placed(before, idx, sample.doc)[j]
    {
      if j < |current| && j != idx {
        assert next[j] == current[j];
      } else {
        assert next[j] == sample;
      }
    }
  }

  /** `if not sample_exists: samples.append(sample)`. */
  method Place(current: seq<Sample>, sample: Sample, isNew: bool) returns (next: seq<Sample>)
    requires forall i, j :: 0 <= i < j < |current| ==> current[i] != current[j]
    requires isNew ==> sample !in current
    ensures next == if isNew then current + [sample] else current
    ensures forall i, j :: 0 <= i < j < |next| ==> next[i] != next[j]
  {
    next := current;
    if isNew {
      next := current + [sample];
      forall i, j | 0 <= i < j < |next|
        ensures next[i] != next[j]
      {
        if j == |current| {
          assert next[i] == current[i] && next[j] == sample;
        } else {
          assert next[i] == current[i] && next[j] == current[j];
        }
      }
    }
  }

  /** One turn of `for sample_name in sample_dict`, on the objects. */
  method ReconcileOne(current: seq<Sample>, metadata: seq<MetaRow>, sampleName: string, files: seq<string>, env: Env, runReference: Doc)
    returns (next: seq<Sample>, rows: seq<MetaRow>)
    requires |files| == 2 && sampleName in NamesOf(metadata)
    requires forall i, j :: 0 <= i < j < |current| ==> current[i] != current[j]
    modifies set s | s in current
    ensures |current| <= |next| <= |current| + 1 && forall j :: 0 <= j < |current| ==> next[j] == current[j]
    ensures forall i, j :: 0 <= i < j < |next| ==> next[i] != next[j]
    ensures |next| == |current| + 1 ==> fresh(next[|current|])
    ensures Pass(DocsOf(next), rows) == Step(Pass(old(DocsOf(current)), metadata), sampleName, files, env, runReference)
  {
    ghost var before := DocsOf(current);
    ghost var idx := LastNamed(before, sampleName);
    rows := MarkHave(metadata, sampleName);
    var sample, isNew := TakeSample(current, sampleName, env, runReference);
    SetCategories(sample, rows, sampleName, files, env);
    forall j | 0 <= j < |current| && j != idx
      ensures current[j].doc == before[j]
    {
      assert current[j] != sample;
    }
    next := Place(current, sample, isNew);
    PlacedDocs(before, current, idx, sample, next);
  }

  lemma ReconcileUnfold(p: Pass, k: string, keys: seq<string>, files: map<string, seq<string>>, env: Env, runReference: Doc)
    requires keys != [] && keys[0] == k && Reconcilable(p.rows, keys, files)
    ensures Reconcilable(Step(p, k, files[k], env, runReference).rows, keys[1..], files)
    ensures Reconcile(p, keys, files, env, runReference)
         == Reconcile(Step(p, k, files[k], env, runReference), keys[1..], files, env, runReference)
  {
  }

  /** One turn, stated against the whole loop: what is left of the loop after it yields
      what the loop from this key on yields before it. */
  method Turn(current: seq<Sample>, metadata: seq<MetaRow>, keys: seq<string>, n: nat, files: map<string, seq<string>>, env: Env, runReference: Doc, ghost before: Pass)
    returns (next: seq<Sample>, rows: seq<MetaRow>, ghost after: Pass)
    requires n < |keys| && Reconcilable(metadata, keys[n..], files)
    requires before == Pass(DocsOf(current), metadata)
    requires forall i, j :: 0 <= i < j < |current| ==> current[i] != current[j]
    modifies set s | s in current
    ensures |current| <= |next| <= |current| + 1 && forall j :: 0 <= j < |current| ==> next[j] == current[j]
    ensures forall i, j :: 0 <= i < j < |next| ==> next[i] != next[j]
    ensures |next| == |current| + 1 ==> fresh(next[|current|])
    ensures after == Pass(DocsOf(next), rows)
    ensures Reconcilable(after.rows, keys[n + 1..], files)
    ensures Reconcile(after, keys[n + 1..], files, env, runReference) == Reconcile(before, keys[n..], files, env, runReference)
  {
    var sampleName := keys[n];
    assert keys[n..][1..] == keys[n + 1..];
    next, rows := ReconcileOne(current, metadata, sampleName, files[sampleName], env, runReference);
    after := Pass(DocsOf(next), rows);
    ReconcileUnfold(before, sampleName, keys[n..], files, env, runReference);
  }

  /** `for sample_name in sample_dict`, on the objects. */
  method ReconcileAll(samples: seq<Sample>, metadata: seq<MetaRow>, sampleDict: SampleDict, env: Env, runReference: Doc)
    returns (current: seq<Sample>, rows: seq<MetaRow>)
    requires Reconcilable(metadata, sampleDict.keys, sampleDict.files)
    requires forall i, j :: 0 <= i < j < |samples| ==> samples[i] != samples[j]
    modifies set s | s in samples
    ensures |samples| <= |current| && forall j :: 0 <= j < |samples| ==> current[j] == samples[j]
    ensures forall i, j :: 0 <= i < j < |current| ==> current[i] != current[j]
    ensures Pass(DocsOf(current), rows) == Reconcile(Pass(old(DocsOf(samples)), metadata), sampleDict.keys, sampleDict.files, env, runReference)
  {
    ghost var pass := Pass(DocsOf(samples), metadata);
    ghost var spec := Reconcile(pass, sampleDict.keys, sampleDict.files, env, runReference);
    current := samples;
    rows := metadata;
    for n := 0 to |sampleDict.keys|
      invariant |samples| <= |current| && forall j :: 0 <= j < |samples| ==> current[j] == samples[j]
      invariant forall i, j :: 0 <= i < j < |current| ==> current[i] != current[j]
      invariant forall j :: |samples| <= j < |current| ==> fresh(current[j])
      invariant pass == Pass(DocsOf(current), rows)
      invariant Reconcilable(pass.rows, sampleDict.keys[n..], sampleDict.files)
      invariant Reconcile(pass, sampleDict.keys[n..], sampleDict.files, env, runReference) == spec
    {
      ghost var prev := current;
      current, rows, pass := Turn(current, rows, sampleDict.keys, n, sampleDict.files, env, runReference, pass);
      forall j | |samples| <= j < |current|
        ensures fresh(current[j])
      {
        if j < |prev| {
          assert current[j] == prev[j];
        } else {
          assert j == |prev|;
        }
      }
    }
  }

  /** `run["type"]`, `run["path"]`, `run["issues"]` and `run.samples` set once the loop
      is done. */
  method RecordRun(run: Run, metadata: seq<MetaRow>, unusedFiles: seq<string>, docs: seq<map<string, Doc>>, env: Env, runType: Option<string>)
    modifies run
    ensures run.doc == RunDocAfter(old(run.doc), runType, env, IssuesOf(metadata, unusedFiles))
    ensures run.samples == SampleRefs(env, docs)
  {
    run.Put("type", TypeDoc(runType));
    run.Put("path", Str(env.cwd));
    run.Put("issues", IssuesDoc(IssuesOf(metadata, unusedFiles)));
    run.samples := SampleRefs(env, docs);
  }

  /** The part of `initialize_run` after the folder is parsed. */
  method CompleteRun(
    run: Run, samples: seq<Sample>, metadata: seq<MetaRow>, matching: Matching, unusedOrder: seq<string>,
    env: Env, runType: Option<string>)
    returns (current: seq<Sample>)
    requires Reconcilable(metadata, matching.dict.keys, matching.dict.files)
    requires forall i, j :: 0 <= i < j < |samples| ==> samples[i] != samples[j]
    modifies run, set s | s in samples
    ensures |samples| <= |current| && forall j :: 0 <= j < |samples| ==> current[j] == samples[j]
    ensures forall i, j :: 0 <= i < j < |current| ==> current[i] != current[j]
    ensures var o := RunOutcome(old(run.doc), old(DocsOf(samples)), env, metadata, matching, unusedOrder, runType);
      && DocsOf(current) == o.docs && run.doc == o.runDoc && run.samples == o.refs
  {
    var runReference := env.runRef(run.doc);
    var rows;
    current, rows := ReconcileAll(samples, metadata, matching.dict, env, runReference);
    RecordRun(run, rows, unusedOrder, DocsOf(current), env, runType);
  }

  /** `initialize_run(run, samples, component, input_folder, run_metadata, run_type)`
      with the metadata table already read, the folder's listing given, and the orders of
      `get_file_pairs` and of `list(unused_files)` given. The returned list extends
      `samples` with the new samples. */
  method InitializeRun(
    run: Run, samples: seq<Sample>, env: Env, table: Table, listing: seq<string>,
    metadataFile: string, pairOrder: seq<seq<string>>, unusedOrder: seq<string>, runType: Option<string>)
    returns (result: Result<seq<Sample>>)
    requires WellFormed(table)
    requires FormatMetadata(table).Ok? ==> ListsOnce(pairOrder, FilePairs(FormatMetadata(table).value))
    requires FormatMetadata(table).Ok? && ParseDirectorySpec(listing, pairOrder, FormatMetadata(table).value, metadataFile).Ok?
      ==> ListsOnce(unusedOrder, ParseDirectorySpec(listing, pairOrder, FormatMetadata(table).value, metadataFile).value.unused)
    requires forall i, j :: 0 <= i < j < |samples| ==> samples[i] != samples[j]
    modifies run, set s | s in samples
    ensures var spec := InitializeRunSpec(old(run.doc), old(DocsOf(samples)), env, table, listing, metadataFile, pairOrder, unusedOrder, runType);
      && (result.Err? <==> spec.Err?)
      && (result.Err? ==> result.error == spec.error && unchanged(run) && unchanged(set s | s in samples))
      && (result.Ok? ==>
            && |samples| <= |result.value| && (forall j :: 0 <= j < |samples| ==> result.value[j] == samples[j])
            && (forall i, j :: 0 <= i < j < |result.value| ==> result.value[i] != result.value[j])
            && DocsOf(result.value) == spec.value.docs
            && run.doc == spec.value.runDoc && run.samples == spec.value.refs)
  {
    var formatted := FormatMetadata(table);
    if formatted.Err? {
      return Err(formatted.error);
    }
    var metadata := formatted.value;
    var parsed := ParseDirectory(listing, pairOrder, metadata, metadataFile);
    if parsed.Err? {
      return Err(parsed.error);
    }
    MatchedKeysReconcilable(listing, pairOrder, metadata, metadataFile);
    var current := CompleteRun(run, samples, metadata, parsed.value, unusedOrder, env, runType);
    return Ok(current);
  }
}
