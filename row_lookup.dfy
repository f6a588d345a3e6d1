/** The metadata row a turn of initialize_run summarises into its `sample_info` category.
    The lookup as written hands an index label to a positional lookup; the two agree only
    while no row of the table was dropped for lacking a sample name. */
module RowLookup {
  import opened Strings
  import opened Records
  import opened Metadata
  import opened Reconciler

  /** Formatted rows carry strictly increasing labels, so each label is at least the row's
      position plus the label of the first row. */
  lemma {:induction false} LabelsAtLeastPositions(rows: seq<MetaRow>, i: nat)
    requires forall a, b :: 0 <= a < b < |rows| ==> rows[a].position < rows[b].position
    requires i < |rows|
    ensures rows[i].position >= rows[0].position + i
  {
    if i > 0 {
      LabelsAtLeastPositions(rows, i - 1);
    }
  }

  /** When every label is past its position, the lookup as written never finds the first
      row named `k`: it reads a later row, or fails with an out-of-range label. */
  lemma ShiftedLabelsMiss(rows: seq<MetaRow>, k: string)
    requires forall a, b :: 0 <= a < b < |rows| ==> rows[a].position < rows[b].position
    requires rows != [] && rows[0].position > 0
    requires k in NamesOf(rows)
    ensures RowByLabelAsWritten(rows, k) != Ok(rows[FirstRowNamed(rows, k)])
  {
    var f := FirstRowNamed(rows, k);
    var at := rows[f].position;
    LabelsAtLeastPositions(rows, f);
    if at < |rows| {
      LabelsAtLeastPositions(rows, at);
    }
  }

  /** When the first row of the table has no sample name, format_metadata drops it, and the
      lookup as written never finds the first row named `k`. */
  lemma LabelLookupMisses(t: Table, k: string)
    requires WellFormed(t) && FormatMetadata(t).Ok?
    requires |t.rows| > 0 && "sample_name" in t.rows[0] && t.rows[0]["sample_name"].Missing?
    requires k in NamesOf(FormatMetadata(t).value)
    ensures var rows := FormatMetadata(t).value;
      RowByLabelAsWritten(rows, k) != Ok(rows[FirstRowNamed(rows, k)])
  {
    var rows := FormatMetadata(t).value;
    assert FormattedFrom(rows, t);
    assert NormalisedFrom(rows[0], t.rows[rows[0].position]);
    ShiftedLabelsMiss(rows, k);
  }

  /** A concrete table: an unnamed row, then `a`, then `b`. The lookup of `a` reads the row
      of `b`, and the lookup of `b` is out of range. */
  lemma LabelLookupExample()
    ensures var a := MetaRow(1, "a", "a", ["a_R1", "a_R2"], false, false, false, true, map[]);
      var b := MetaRow(2, "b", "b", ["b_R1", "b_R2"], false, false, false, true, map[]);
      && NamesOf([a, b]) == ["a", "b"]
      && RowByLabelAsWritten([a, b], "a") == Ok(b)
      && RowByLabelAsWritten([a, b], "b") == Err(RowOutOfRange(2))
  {
    var a := MetaRow(1, "a", "a", ["a_R1", "a_R2"], false, false, false, true, map[]);
    var b := MetaRow(2, "b", "b", ["b_R1", "b_R2"], false, false, false, true, map[]);
    assert NamesOf([a, b])[0] == "a" && NamesOf([a, b])[1] == "b";
  }

  /** Without dropped rows every label is its position, and the lookup as written finds the
      first row named `k`. */
  lemma LabelLookupWithoutDrops(rows: seq<MetaRow>, k: string)
    requires forall i :: 0 <= i < |rows| ==> rows[i].position == i
    requires k in NamesOf(rows)
    ensures RowByLabelAsWritten(rows, k) == Ok(rows[FirstRowNamed(rows, k)])
  {
  }

  /** The corrected lookup: the `sample_info` a turn records summarises the first metadata
      row named by its key, with both of its flags set. */
  lemma ReconciledSampleInfo(p: Pass, k: string, files: seq<string>, env: Env, runReference: Doc)
    requires |files| == 2 && k in NamesOf(p.rows)
    ensures var d, i := Reconciled(p, k, files, env, runReference), FirstRowNamed(p.rows, k);
      && "sample_info" in Categories(d)
      && Categories(d)["sample_info"] == SampleInfo(env, RowSummary(Marked(p.rows[i])))
      && p.rows[i].sampleName == k
      && forall j :: 0 <= j < i ==> p.rows[j].sampleName != k
  {
    var rows := MarkHave(p.rows, k);
    var i := FirstRowNamed(p.rows, k);
    assert FirstRowNamed(rows, k) == i by {
      var f := FirstRowNamed(rows, k);
      assert NamesOf(rows)[f] == NamesOf(p.rows)[f] && NamesOf(rows)[i] == NamesOf(p.rows)[i];
    }
  }
}
