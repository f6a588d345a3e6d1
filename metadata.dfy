/** format_metadata, get_sample_names and get_file_pairs: the run metadata table,
    already parsed into rows, normalised into one record per named sample. */
module Metadata {
  import opened Strings
  import opened Records

  /** A cell of the parsed table: its text, or missing (pandas' NaN). */
  datatype Cell = Text(text: string) | Missing

  type RawRow = map<string, Cell>

  /** The table as the tab-separated reader leaves it: its column names and, per row,
      the cells keyed by column. Row i carries the index label i. */
  datatype Table = Table(columns: set<string>, rows: seq<RawRow>)

  predicate WellFormed(t: Table)
  {
    forall i :: 0 <= i < |t.rows| ==> t.rows[i].Keys == t.columns
  }

  /** The columns format_metadata writes itself; any other column is carried along. */
  const Reserved: set<string> := {
    "sample_name", "filenames", "temp_sample_name", "changed_sample_names",
    "duplicated_sample_names", "haveReads", "haveMetaData"}

  /** One normalised metadata row. `position` is the row's index label, which survives
      the dropping of unnamed rows. */
  datatype MetaRow = MetaRow(
    position: nat,
    sampleName: string,
    tempSampleName: string,
    filenames: seq<string>,
    changedSampleName: bool,
    duplicatedSampleName: bool,
    haveReads: bool,
    haveMetaData: bool,
    extra: map<string, Cell>)

  /** The characters `[a-zA-Z0-9-_]` a cleaned sample name is made of. */
  predicate IsNameChar(c: char) { IsAsciiLetter(c) || IsAsciiDigit(c) || c == '-' || c == '_' }

  predicate AllNameChars(s: string) { forall i :: 0 <= i < |s| ==> IsNameChar(s[i]) }

  /** Every character outside `[a-zA-Z0-9-_]` replaced by one `_`. */
  function CleanName(s: string): (r: string)
    ensures |r| == |s| && AllNameChars(r)
    ensures forall i :: 0 <= i < |s| ==> (r[i] == s[i] <==> IsNameChar(s[i]))
    ensures forall i :: 0 <= i < |s| && !IsNameChar(s[i]) ==> r[i] == '_'
  {
    seq(|s|, i requires 0 <= i < |s| => if IsNameChar(s[i]) then s[i] else '_')
  }

  /** A sample name is flagged as changed exactly when it holds a character outside
      `[a-zA-Z0-9-_]`; surrounding whitespace counts, since the comparison is with the
      untrimmed original. */
  lemma ChangedExactlyWhenUnclean(original: string)
    ensures CleanName(Strip(original)) != original <==> !AllNameChars(original)
  {
    if AllNameChars(original) {
      CleanNameKeepsClean(original);
    } else {
      assert AllNameChars(CleanName(Strip(original)));
    }
  }

  /** A name of `[a-zA-Z0-9-_]` only has no surrounding whitespace and is its own clean name. */
  lemma CleanNameKeepsClean(original: string)
    requires AllNameChars(original)
    ensures CleanName(Strip(original)) == original
  {
    if original != [] {
      NameCharIsNotSpace(original[0]);
      NameCharIsNotSpace(original[|original| - 1]);
    }
    StripUnchanged(original);
    assert CleanName(original) == original;
  }

  lemma NameCharIsNotSpace(c: char)
    requires IsNameChar(c)
    ensures !IsSpace(c)
  {
  }

  /** The columns left once pandas' `Unnamed: n` columns are dropped. */
  function KeptColumns(t: Table): set<string>
  {
    set c | c in t.columns && !StartsWith(c, "Unnamed")
  }

  /** The labels, from `from` on, of the rows whose sample name is present, in order. */
  function SurvivingLabels(rows: seq<RawRow>, from: nat): (r: seq<nat>)
    requires from <= |rows|
    requires forall i :: 0 <= i < |rows| ==> "sample_name" in rows[i]
    ensures forall k :: 0 <= k < |r| ==> from <= r[k] < |rows| && rows[r[k]]["sample_name"].Text?
    ensures forall k, l :: 0 <= k < l < |r| ==> r[k] < r[l]
    ensures forall i :: from <= i < |rows| && rows[i]["sample_name"].Text? ==> i in r
    decreases |rows| - from
  {
    if from == |rows| then []
    else if rows[from]["sample_name"].Text? then [from] + SurvivingLabels(rows, from + 1)
    else SurvivingLabels(rows, from + 1)
  }

  function CellDoc(c: Cell): Doc
  {
    match c
    case Text(s) => Str(s)
    case Missing => Null
  }

  /** What normalising keeps of a raw row and makes of it: the original name, the
      trimmed original cleaned, the changed flag, `filenames` split on `/`,
      and no reads yet but metadata. */
  ghost predicate NormalisedFrom(row: MetaRow, raw: RawRow)
  {
    && "sample_name" in raw && raw["sample_name"] == Text(row.tempSampleName)
    && row.sampleName == CleanName(Strip(row.tempSampleName))
    && (row.changedSampleName <==> row.sampleName != row.tempSampleName)
    && !row.haveReads && row.haveMetaData
    && "filenames" in raw && raw["filenames"].Text?
    && Join(row.filenames, '/') == Strip(raw["filenames"].text)
    && (forall k :: 0 <= k < |row.filenames| ==> '/' !in row.filenames[k])
  }

  /** One row of the normalised table: the original name kept, the name trimmed and
      cleaned, `filenames` trimmed and split on `/`, the flags initialised. The duplicate
      flag is left clear here; it is a property of the whole column. */
  function NormaliseRow(position: nat, raw: RawRow, kept: set<string>): (r: MetaRow)
    requires "sample_name" in raw && raw["sample_name"].Text?
    requires "filenames" in raw && raw["filenames"].Text?
    ensures r.position == position && !r.duplicatedSampleName
    ensures NormalisedFrom(r, raw)
    ensures forall c :: c in r.extra <==> c in raw && c in kept && c !in Reserved
    ensures forall c :: c in r.extra ==> r.extra[c] == raw[c]
  {
    var original := raw["sample_name"].text;
    var name := CleanName(Strip(original));
    MetaRow(
      position, name, original, Split(Strip(raw["filenames"].text), '/'),
      name != original, false, false, true,
      map c | c in raw && c in kept && c !in Reserved :: raw[c])
  }

  /** The rows at `labels`, normalised in order. */
  function NormaliseRows(t: Table, labels: seq<nat>, kept: set<string>): (rows: seq<MetaRow>)
    requires forall k :: 0 <= k < |labels| ==> labels[k] < |t.rows|
    requires forall k :: 0 <= k < |labels| ==>
      var raw := t.rows[labels[k]];
      "sample_name" in raw && raw["sample_name"].Text? && "filenames" in raw && raw["filenames"].Text?
    ensures |rows| == |labels|
    ensures forall i :: 0 <= i < |rows| ==>
      rows[i].position == labels[i] && !rows[i].duplicatedSampleName && NormalisedFrom(rows[i], t.rows[labels[i]])
  {
    seq(|labels|, k requires 0 <= k < |labels| => NormaliseRow(labels[k], t.rows[labels[k]], kept))
  }

  /** The names of a prefix of rows. */
  function NamesOf(rows: seq<MetaRow>): (names: seq<string>)
    ensures |names| == |rows| && forall i :: 0 <= i < |rows| ==> names[i] == rows[i].sampleName
  {
    seq(|rows|, i requires 0 <= i < |rows| => rows[i].sampleName)
  }

  /** pandas' `duplicated(subset="sample_name", keep="first")` written into the rows. */
  function FlagDuplicates(rows: seq<MetaRow>): (r: seq<MetaRow>)
    ensures |r| == |rows|
    ensures forall i :: 0 <= i < |rows| ==>
      r[i] == rows[i].(duplicatedSampleName := r[i].duplicatedSampleName)
    ensures KeepFirstFlags(r)
  {
    var names := NamesOf(rows);
    var r := seq(|rows|, i requires 0 <= i < |rows| =>
      rows[i].(duplicatedSampleName := names[i] in names[..i]));
    KeepFirstFromNames(r, names);
    r
  }

  /** What `format_metadata` makes of a table: one normalised row per row that has a
      sample name, in table order, flagged keep-first. */
  ghost predicate FormattedFrom(rows: seq<MetaRow>, t: Table)
  {
    && (forall i :: 0 <= i < |rows| ==>
          rows[i].position < |t.rows| && NormalisedFrom(rows[i], t.rows[rows[i].position]))
    && (forall i, j :: 0 <= i < j < |rows| ==> rows[i].position < rows[j].position)
    && (forall i :: 0 <= i < |t.rows| && "sample_name" in t.rows[i] && t.rows[i]["sample_name"].Text? ==>
          exists k :: 0 <= k < |rows| && rows[k].position == i)
    && KeepFirstFlags(rows)
  }

  /** A table that names a file group on every named row, normalised. */
  function NormaliseTable(t: Table, kept: set<string>): (rows: seq<MetaRow>)
    requires WellFormed(t) && "sample_name" in t.columns && "filenames" in t.columns
    requires forall i :: 0 <= i < |t.rows| && t.rows[i]["sample_name"].Text? ==> t.rows[i]["filenames"].Text?
    ensures FormattedFrom(rows, t)
  {
    var labels := SurvivingLabels(t.rows, 0);
    var plain := NormaliseRows(t, labels, kept);
    var rows := FlagDuplicates(plain);
    FlaggedRowsNormalised(t, labels, plain, rows);
    FormattedFromParts(t, labels, rows);
    rows
  }

  /** Rows normalised from the named rows of a table, at their labels and in label order,
      with keep-first flags, are the table formatted. */
  lemma FormattedFromParts(t: Table, labels: seq<nat>, rows: seq<MetaRow>)
    requires |rows| == |labels|
    requires forall i :: 0 <= i < |rows| ==>
      labels[i] < |t.rows| && rows[i].position == labels[i] && NormalisedFrom(rows[i], t.rows[labels[i]])
    requires forall k, l :: 0 <= k < l < |labels| ==> labels[k] < labels[l]
    requires forall i :: 0 <= i < |t.rows| && "sample_name" in t.rows[i] && t.rows[i]["sample_name"].Text? ==> i in labels
    requires KeepFirstFlags(rows)
    ensures FormattedFrom(rows, t)
  {
    forall i | 0 <= i < |t.rows| && "sample_name" in t.rows[i] && t.rows[i]["sample_name"].Text?
      ensures exists k :: 0 <= k < |rows| && rows[k].position == i
    {
      var k :| 0 <= k < |labels| && labels[k] == i;
      assert rows[k].position == i;
    }
  }

  /** Setting the duplicate flags keeps every row normalised from its table row. */
  lemma FlaggedRowsNormalised(t: Table, labels: seq<nat>, plain: seq<MetaRow>, rows: seq<MetaRow>)
    requires |plain| == |labels| == |rows|
    requires forall i :: 0 <= i < |labels| ==> labels[i] < |t.rows|
    requires forall i :: 0 <= i < |plain| ==> plain[i].position == labels[i] && NormalisedFrom(plain[i], t.rows[labels[i]])
    requires forall i :: 0 <= i < |plain| ==> rows[i] == plain[i].(duplicatedSampleName := rows[i].duplicatedSampleName)
    ensures forall i :: 0 <= i < |rows| ==> rows[i].position == labels[i] && NormalisedFrom(rows[i], t.rows[labels[i]])
  {
    forall i | 0 <= i < |rows|
      ensures rows[i].position == labels[i] && NormalisedFrom(rows[i], t.rows[labels[i]])
    {
      NormalisedFromIgnoresFlag(plain[i], t.rows[labels[i]], rows[i].duplicatedSampleName);
    }
  }

  lemma NormalisedFromIgnoresFlag(row: MetaRow, raw: RawRow, flag: bool)
    requires NormalisedFrom(row, raw)
    ensures NormalisedFrom(row.(duplicatedSampleName := flag), raw)
  {
  }

  /** `format_metadata`: drop the unnamed columns and the rows without a sample name,
      keep each original name, clean it, flag changed and repeated names (the first
      occurrence unflagged), split `filenames`, and start with no reads and with
      metadata. It fails, with the one generic exception the source re-raises, exactly
      when a required column is absent or a named row has no `filenames`. */
  function FormatMetadata(t: Table): (r: Result<seq<MetaRow>>)
    requires WellFormed(t)
    ensures r.Err? ==> r.error == BadMetadata
    ensures r.Err? <==>
      || "sample_name" !in t.columns
      || "filenames" !in t.columns
      || exists i :: 0 <= i < |t.rows| && t.rows[i]["sample_name"].Text? && t.rows[i]["filenames"].Missing?
    ensures r.Ok? ==> FormattedFrom(r.value, t)
  {
    var kept := KeptColumns(t);
    assert "sample_name"[..7] != "Unnamed" by { assert "sample_name"[0] == 's'; }
    assert "filenames"[..7] != "Unnamed" by { assert "filenames"[0] == 'f'; }
    if "sample_name" !in kept || "filenames" !in kept then Err(BadMetadata)
    else if exists i :: 0 <= i < |t.rows| && t.rows[i]["sample_name"].Text? && t.rows[i]["filenames"].Missing?
    then Err(BadMetadata)
    else Ok(NormaliseTable(t, kept))
  }

  /** pandas' `duplicated(keep="first")`: a row is flagged exactly when an earlier row
      has the same cleaned name. */
  ghost predicate KeepFirstFlags(rows: seq<MetaRow>)
  {
    forall i :: 0 <= i < |rows| ==>
      (rows[i].duplicatedSampleName <==> exists j :: 0 <= j < i && rows[j].sampleName == rows[i].sampleName)
  }

  lemma KeepFirstFromNames(rows: seq<MetaRow>, names: seq<string>)
    requires |rows| == |names|
    requires forall i :: 0 <= i < |rows| ==> rows[i].sampleName == names[i]
    requires forall i :: 0 <= i < |rows| ==> rows[i].duplicatedSampleName == (names[i] in names[..i])
    ensures KeepFirstFlags(rows)
  {
    forall i | 0 <= i < |rows|
      ensures rows[i].duplicatedSampleName <==> exists j :: 0 <= j < i && rows[j].sampleName == rows[i].sampleName
    {
      if names[i] in names[..i] {
        var j :| 0 <= j < i && names[..i][j] == names[i];
        assert rows[j].sampleName == rows[i].sampleName;
      }
      if exists j :: 0 <= j < i && rows[j].sampleName == rows[i].sampleName {
        var j :| 0 <= j < i && rows[j].sampleName == rows[i].sampleName;
        assert names[..i][j] == names[i];
      }
    }
  }

  /** `get_sample_names`: the distinct cleaned names. */
  function SampleNames(rows: seq<MetaRow>): set<string>
  {
    set i | 0 <= i < |rows| :: rows[i].sampleName
  }

  /** `get_file_pairs`: the distinct filename tuples. */
  function FilePairs(rows: seq<MetaRow>): set<seq<string>>
  {
    set i | 0 <= i < |rows| :: rows[i].filenames
  }

  /** Under keep-first flags, the rows left unflagged name every sample exactly once:
      their names are pairwise different and are all the distinct names. */
  lemma UnflaggedRowsNameEachSampleOnce(rows: seq<MetaRow>)
    requires KeepFirstFlags(rows)
    ensures SampleNames(rows) == set i | 0 <= i < |rows| && !rows[i].duplicatedSampleName :: rows[i].sampleName
    ensures forall i, j :: 0 <= i < j < |rows| && !rows[i].duplicatedSampleName && !rows[j].duplicatedSampleName
              ==> rows[i].sampleName != rows[j].sampleName
  {
    forall n | n in SampleNames(rows)
      ensures exists i :: 0 <= i < |rows| && !rows[i].duplicatedSampleName && rows[i].sampleName == n
    {
      var i :| 0 <= i < |rows| && rows[i].sampleName == n;
      var f := FirstNamed(rows, n, i);
      assert !rows[f].duplicatedSampleName;
    }
  }

  /** The first row named `n`, found at or before row `i`. */
  lemma {:induction false} FirstNamed(rows: seq<MetaRow>, n: string, i: nat) returns (f: nat)
    requires i < |rows| && rows[i].sampleName == n
    ensures f <= i && rows[f].sampleName == n
    ensures forall j :: 0 <= j < f ==> rows[j].sampleName != n
  {
    if exists j :: 0 <= j < i && rows[j].sampleName == n {
      var j :| 0 <= j < i && rows[j].sampleName == n;
      f := FirstNamed(rows, n, j);
    } else {
      f := i;
    }
  }

  /** There are never more distinct filename tuples than rows. */
  lemma {:induction false} FilePairsBound(rows: seq<MetaRow>)
    ensures |FilePairs(rows)| <= |rows|
  {
    if rows != [] {
      FilePairsBound(rows[..|rows| - 1]);
      assert FilePairs(rows) == FilePairs(rows[..|rows| - 1]) + {rows[|rows| - 1].filenames} by {
        var init := rows[..|rows| - 1];
        forall g | g in FilePairs(rows) ensures g in FilePairs(init) + {rows[|rows| - 1].filenames} {
          var i :| 0 <= i < |rows| && rows[i].filenames == g;
          if i < |rows| - 1 { assert init[i] == rows[i]; }
        }
      }
    }
  }

  /** The JSON object pandas writes for one row (`to_json` of the row), read back:
      every column of the row with its value, `filenames` as a list. */
  function RowSummary(row: MetaRow): map<string, Doc>
  {
    (map c | c in row.extra :: CellDoc(row.extra[c]))[
      "sample_name" := Str(row.sampleName)][
      "filenames" := List(seq(|row.filenames|, k requires 0 <= k < |row.filenames| => Str(row.filenames[k])))][
      "temp_sample_name" := Str(row.tempSampleName)][
      "changed_sample_names" := Bool(row.changedSampleName)][
      "duplicated_sample_names" := Bool(row.duplicatedSampleName)][
      "haveReads" := Bool(row.haveReads)][
      "haveMetaData" := Bool(row.haveMetaData)]
  }
}
