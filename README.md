# bifrost_run_launcher: the run launcher's pipeline, modelled in Dafny

This project models the core of `bifrost_run_launcher/pipeline.py`. The launcher takes one
sequencing run and does two jobs.

First, it reconciles the run with its metadata and its read files:
- it normalises the run metadata table (`format_metadata`);
- it lists the distinct sample names and file groups the table names (`get_sample_names`,
  `get_file_pairs`);
- it matches those groups against the files of the input folder (`parse_directory`);
- for every matched sample it reuses or creates a sample record and sets its
  `paired_reads` and `sample_info` categories;
- it records the run's type, path, sample references and issue summary (`initialize_run`).

Second, it writes the run script (`generate_run_script`). It fills the `$run.<field>`
placeholders of the pre-, per-sample and post-templates from the run's document
(`replace_run_info_in_script`). It fills the `$sample.<path>` placeholders of the
per-sample template from each sample's document (`replace_sample_info_in_script`).

Modules, one concept each:

| file | module | what it holds |
|---|---|---|
| `strings.dfy` | `Strings` | the Python string operations the pipeline uses: `strip`, `split`, `str.replace` (every occurrence, left to right), `int()`, `str()` of an integer |
| `records.dfy` | `Records` | the JSON-like documents of bifrostlib, the `Sample` and `Run` classes updated in place |
| `metadata.dfy` | `Metadata` | `format_metadata`, `get_sample_names`, `get_file_pairs` |
| `matcher.dfy` | `Matcher` | `parse_directory`: the loop over the file groups, with the folder's file set as a shared mutable object |
| `reconciler.dfy` | `Reconciler` | `initialize_run`: the functions that specify the loop over `sample_dict`, and the methods that run it on `Sample` objects |
| `reconcile_facts.dfy` | `ReconcileFacts` | what the loop leaves behind: flags, a closed form of the sample documents, the issue lists |
| `row_lookup.dfy` | `RowLookup` | the metadata row a turn summarises, as written and as intended |
| `tokens.dfy` | `Tokens` | `re.findall` for the two placeholder patterns |
| `templater.dfy` | `Templater` | the two replacement functions and `generate_run_script`, as loops proved against specification functions |
| `template_facts.dfy` | `TemplateFacts` | what the replacements do to a template, placeholder by placeholder |

Modelling choices:
- The metadata table arrives already parsed. It is a set of column names and one map from
  column to cell per row, and a cell is text or missing (pandas' NaN).
- Every exception inside `format_metadata` becomes the one error `BadMetadata`, since the
  source catches everything and re-raises a single exception.
- Python's ordered `dict` `sample_dict` is a key sequence plus a map. A new key goes to the
  end; an existing key keeps its place.
- `all_files` and `unused_files` name the same set object in the source. The model keeps
  one `FileSet` object reached through both roles.
- The foreign parts of `initialize_run` are fields of an `Env` value:
  - bifrostlib's `sample_name_generator`, `to_reference`, and the document a new `Sample` starts from;
  - the component;
  - `os.path.abspath(os.path.join(folder, f))`;
  - `os.getcwd()`.
- Python's `str()` of a list or dict is a `repr` parameter of the sample replacement.
- Errors a Python caller would see as exceptions are `Result` errors:
  - `ValueError` for a group that is not a pair;
  - the tuple-unpack `ValueError`;
  - `KeyError`;
  - `TypeError` for subscripting a value that is neither a list, a string nor a dict;
  - `IndexError`.
- `$run.[a-zA-Z]+` leaves its dot unescaped. Any character but a newline may follow
  `$run`, so `$runner` in a template is a run placeholder. Splitting it on `.` does not
  give two parts, so the unpack raises. The model keeps this
  (`TemplateFacts.RunnerRaises`).

## Model

| member | source | states |
|---|---|---|
| Strings.Split | bifrost_run_launcher/pipeline.py:141 | `str.split(sep)`: at least one part, no part holds the separator, and joining the parts with the separator gives the text back |
| Strings.ReplaceAllTwice | bifrost_run_launcher/pipeline.py:163 | `str.replace` replaces every occurrence: a pattern written twice, in text that otherwise lacks its first character, is replaced at both places |
| Strings.ParsePrintedNat | bifrost_run_launcher/pipeline.py:154 | `int()` reads a decimal index printed by `str()` back as the same number |
| Records.WithCategoryReplaces | bifrost_run_launcher/pipeline.py:104-111 | `set_category` stores a category under its name; setting it twice keeps only the second, so a reused sample's `paired_reads` and `sample_info` are overwritten |
| Records.Sample.constructor | bifrost_run_launcher/pipeline.py:86 | a new sample's document is the one bifrostlib starts it from, with `name` set to the generated name |
| Records.Sample.Put | bifrost_run_launcher/pipeline.py:87-88 | `sample[key] = value` sets that field and leaves every other field as it was |
| Records.Sample.SetCategory | bifrost_run_launcher/pipeline.py:104 | the sample's document becomes the old one with the category stored under its name |
| Records.Run.Put | bifrost_run_launcher/pipeline.py:117-119 | `run[key] = value` sets that field of the run's document, every other field stays, and the sample references are unchanged |
| Records.StrList | bifrost_run_launcher/pipeline.py:120-124 | `list(...)` of names stored in a document: a list with one string per name, in the same order |
| Metadata.CleanName | bifrost_run_launcher/pipeline.py:55 | the cleaned name has the same length, consists of `[a-zA-Z0-9-_]` only, keeps exactly the characters of that class and puts `_` in place of every other |
| Metadata.ChangedExactlyWhenUnclean | bifrost_run_launcher/pipeline.py:53-56 | a name is flagged as changed if and only if it holds a character outside `[a-zA-Z0-9-_]` (surrounding whitespace included) |
| Metadata.SurvivingLabels | bifrost_run_launcher/pipeline.py:50-51 | the labels of the rows that have a sample name, strictly increasing, every one of them and no other |
| Metadata.NormaliseRow | bifrost_run_launcher/pipeline.py:52-60 | a normalised row keeps its label and its original name, holds the stripped original cleaned, the changed flag exactly when that differs from the original, and the stripped `filenames` split on `/`; it starts without reads, with metadata and unflagged, and carries exactly the kept columns the function does not write itself |
| Metadata.FlagDuplicates | bifrost_run_launcher/pipeline.py:57 | a row is flagged duplicated exactly when an earlier row bears its name; nothing else changes |
| Metadata.KeepFirstFromNames | bifrost_run_launcher/pipeline.py:57 | flags computed from the list of names are the keep-first flags |
| Metadata.NormaliseTable | bifrost_run_launcher/pipeline.py:49-60 | the table normalised: one row per named row, in table order, with keep-first flags |
| Metadata.FormatMetadata | bifrost_run_launcher/pipeline.py:42-66 | fails with the one re-raised error exactly when `sample_name` or `filenames` is absent or a named row has no `filenames`; otherwise the rows are the table formatted |
| Metadata.UnflaggedRowsNameEachSampleOnce | bifrost_run_launcher/pipeline.py:57-69 | the rows left unflagged name every distinct sample name, and no two of them name the same one |
| Metadata.FirstNamed | bifrost_run_launcher/pipeline.py:57 | every name in the rows has a first row bearing it, at or before any row bearing it |
| Matcher.Put | bifrost_run_launcher/pipeline.py:37 | `d[k] = v` on an ordered dict: the map is updated, a new key goes last and an existing key keeps its place |
| Matcher.RecordKeepsOrder | bifrost_run_launcher/pipeline.py:35-37 | recording a group's sample names keeps the old keys first and in their order |
| Matcher.RecordEntries | bifrost_run_launcher/pipeline.py:35-37 | the keys recorded for a group are exactly the names of the rows whose `filenames` equal it, each mapped to the group |
| Matcher.FileSet.constructor | bifrost_run_launcher/pipeline.py:24 | the file set is the set of names in the listing |
| Matcher.FileSet.DifferenceUpdate | bifrost_run_launcher/pipeline.py:34 | the group's files are removed from the shared set, and nothing else is |
| Matcher.FileSet.Discard | bifrost_run_launcher/pipeline.py:38 | the metadata file is removed from the set if present |
| Matcher.ParseDirectory | bifrost_run_launcher/pipeline.py:23-39 | the loop over the groups, on the shared file set, gives exactly the outcome `ParseDirectorySpec` defines |
| Matcher.FirstNonPair | bifrost_run_launcher/pipeline.py:30-32 | the first group that is not a pair: it is not a pair and every earlier group is |
| Matcher.MatchFailsOnFirstNonPair | bifrost_run_launcher/pipeline.py:27-32 | the loop fails if and only if some group is not a pair, and then with the error about the first such group |
| Matcher.MatchConsumesTaken | bifrost_run_launcher/pipeline.py:33-34 | on success the unused files are the available ones less the files of the groups taken, and the taken groups share no file |
| Matcher.MatchRecordsTaken | bifrost_run_launcher/pipeline.py:33-37 | on success the dictionary is built from the taken groups and from them only |
| Matcher.RecordAllEntries | bifrost_run_launcher/pipeline.py:35-37 | besides the old entries, the dictionary holds exactly the names of the rows carrying a taken group, each mapped to a taken group its row carries |
| Matcher.ParseDirectoryOutcome | bifrost_run_launcher/pipeline.py:23-39 | `parse_directory` in full: it fails exactly on a group that is not a pair; otherwise the unused files are the listing less the taken groups' files and the metadata file, and the dictionary maps exactly the names of the rows of the taken groups |
| Matcher.TakenWhenUnshared | bifrost_run_launcher/pipeline.py:33 | a group sharing no file with earlier groups is taken if and only if all its files are in the listing |
| Matcher.NotTakenWhenAbsent | bifrost_run_launcher/pipeline.py:33 | a group with a file missing from the available set is never taken |
| Matcher.SharedFileGoesToFirstGroup | bifrost_run_launcher/pipeline.py:24-34 | because `unused_files` is `all_files`, of two present groups sharing a file only the first is taken |
| Reconciler.LastNamed | bifrost_run_launcher/pipeline.py:89-93 | the scan over `samples` settles on the last sample named `k`, or on none exactly when no sample bears that name |
| Reconciler.MarkHave | bifrost_run_launcher/pipeline.py:84-85 | the rows named `k` get both flags set; every other row and every name is unchanged |
| Reconciler.FirstRowNamed | bifrost_run_launcher/pipeline.py:105 | the first metadata row bearing the name: it bears it and no earlier row does |
| Reconciler.NamesFlagged | bifrost_run_launcher/pipeline.py:120-124 | a name is in an issue list exactly when some row bearing it has that list's flag |
| Reconciler.FlaggedIndices | bifrost_run_launcher/pipeline.py:120-124 | the positions of the rows that carry a flag: in range, strictly increasing, every flagged row's position and no other |
| Reconciler.NamesFlaggedInOrder | bifrost_run_launcher/pipeline.py:120-124 | an issue list holds one entry per flagged row, in row order: its k-th entry is the name of the k-th flagged row, so a name borne by two flagged rows appears twice |
| Reconciler.RunDocAfterFields | bifrost_run_launcher/pipeline.py:117-125 | after the loop the run's document holds `type`, `path` and `issues` besides its earlier fields: the run type, the working directory and the dict of the five issue lists; every other field is unchanged |
| Reconciler.SampleRefs | bifrost_run_launcher/pipeline.py:126 | one reference per sample, in list order |
| Reconciler.MatchedKeysReconcilable | bifrost_run_launcher/pipeline.py:81-100 | every key `parse_directory` produces names a metadata row and maps to a pair of files, so the loop's lookups succeed |
| Reconciler.FindExisting | bifrost_run_launcher/pipeline.py:89-93 | the scan returns the last sample named `k`, or the new sample when none is |
| Reconciler.NewSample | bifrost_run_launcher/pipeline.py:86-88 | a fresh sample holding its generated name, the run reference and the display name |
| Reconciler.TakeSample | bifrost_run_launcher/pipeline.py:86-93 | the turn works on the last sample named `k`, or on a fresh one |
| Reconciler.SetCategories | bifrost_run_launcher/pipeline.py:94-111 | the sample's `paired_reads` and `sample_info` categories are set from the pair's absolute paths and the first row named `k` |
| Reconciler.PlacedDocs | bifrost_run_launcher/pipeline.py:113-115 | the documents after a turn: the reused sample's replaced in place, or the new one appended |
| Reconciler.Place | bifrost_run_launcher/pipeline.py:114-115 | a new sample is appended, a reused one is not, and the list stays free of repeats |
| Reconciler.ReconcileOne | bifrost_run_launcher/pipeline.py:83-115 | one turn on the objects: earlier samples stay in place, at most one fresh sample is appended, and the documents and rows are those `Step` gives |
| Reconciler.Turn | bifrost_run_launcher/pipeline.py:83-115 | a turn followed by the rest of the loop is the loop from that turn |
| Reconciler.ReconcileAll | bifrost_run_launcher/pipeline.py:83-115 | the loop over `sample_dict` on the objects: the samples given stay first and in order, none repeats, and the documents and rows are those `Reconcile` gives |
| Reconciler.RecordRun | bifrost_run_launcher/pipeline.py:117-126 | the run's document gets its type, its path and the issue dict of the metadata and the unused files, by three subscript stores, and the run one reference per sample |
| Reconciler.CompleteRun | bifrost_run_launcher/pipeline.py:83-126 | after the folder is parsed, the run and its samples hold what `RunOutcome` defines |
| Reconciler.InitializeRun | bifrost_run_launcher/pipeline.py:75-127 | `initialize_run` on the objects: it fails exactly when `InitializeRunSpec` does (bad metadata, or a group that is not a pair), with the same error and nothing changed; otherwise the given samples stay first and in order, no sample repeats, and the run and the samples hold what `InitializeRunSpec` defines |
| ReconcileFacts.ReconcileFlags | bifrost_run_launcher/pipeline.py:84-85 | after the loop, every row named by a key has both flags set and every other row is as it was |
| ReconcileFacts.ReconciledName | bifrost_run_launcher/pipeline.py:89-111 | a turn keeps the name of the document it starts from |
| ReconcileFacts.StepDocs | bifrost_run_launcher/pipeline.py:83-115 | a turn replaces the last document named `k` or appends a new one, and leaves every other document alone |
| ReconcileFacts.StepKeepsOtherNames | bifrost_run_launcher/pipeline.py:89-93 | a turn for one key does not change which document is the last one named by another key |
| ReconcileFacts.StepKeepsOtherTurns | bifrost_run_launcher/pipeline.py:83-115 | a turn for one key does not change what a later turn for another key produces |
| ReconcileFacts.ReconcileClosedForm | bifrost_run_launcher/pipeline.py:83-115 | for distinct keys, none of them a generated name: each old sample ends as the turn of its key made it, and the new samples follow in key order |
| ReconcileFacts.MarkedFlags | bifrost_run_launcher/pipeline.py:120-124 | starting from freshly formatted rows, after the loop no sample is without metadata, the samples without reads are exactly the names no key reached, and the duplicate and changed lists are unchanged |
| ReconcileFacts.MarkedReads | bifrost_run_launcher/pipeline.py:123 | the samples without reads are exactly the named rows no key reached |
| ReconcileFacts.UnreachedWithoutReads | bifrost_run_launcher/pipeline.py:123 | starting from rows without reads, the samples-without-reads list after the loop has one entry per row no key reached, in row order |
| ReconcileFacts.RunIssues | bifrost_run_launcher/pipeline.py:119-125 | the issue lists of a freshly formatted table: no sample without metadata; the samples without reads are the rows no key reached, one entry per row in row order; the duplicate and changed lists are those of the metadata; the unused list names every unused file of the folder once |
| ReconcileFacts.RunDocs | bifrost_run_launcher/pipeline.py:83-115 | the sample documents of a run are those the loop leaves, and in closed form: each given document as the turn of its key left it, then one new document per key no sample bore, in key order |
| ReconcileFacts.InitializeRunDocs | bifrost_run_launcher/pipeline.py:75-115 | after a successful `initialize_run` there are as many sample documents as given plus one per key no sample bore; each given document is as the turn of its key left it, or unchanged when no key ends there; the new ones follow in key order, each as its turn built it |
| ReconcileFacts.InitializeRunIssues | bifrost_run_launcher/pipeline.py:117-125 | what a successful `initialize_run` records in the run's document: the issue lists stated against the formatted metadata and the folder's matching (as in `RunIssues`), stored as the `issues` dict beside `type` and `path`, every other field unchanged |
| RowLookup.LabelsAtLeastPositions | bifrost_run_launcher/pipeline.py:50-51 | after rows are dropped, each row's label is at least its position plus the first label |
| RowLookup.ShiftedLabelsMiss | bifrost_run_launcher/pipeline.py:105 | when the labels are shifted past the positions, the lookup as written never reads the first row named `k` |
| RowLookup.LabelLookupMisses | bifrost_run_launcher/pipeline.py:105 | when the table's first row has no sample name, the lookup as written misses the first row named `k` |
| RowLookup.LabelLookupExample | bifrost_run_launcher/pipeline.py:105 | a table with an unnamed first row: the lookup of `a` reads `b`'s row and the lookup of `b` is out of range |
| RowLookup.LabelLookupWithoutDrops | bifrost_run_launcher/pipeline.py:105 | without dropped rows the lookup as written finds the first row named `k` |
| RowLookup.ReconciledSampleInfo | bifrost_run_launcher/pipeline.py:105-111 | the corrected lookup: a turn's `sample_info` summarises the first row named by its key, with both flags set |
| Tokens.ClassRun | bifrost_run_launcher/pipeline.py:139 | the greedy repetition: every character it covers is in the class and the next is not |
| Tokens.MatchesAreTokens | bifrost_run_launcher/pipeline.py:139-147 | every match has the pattern's shape: the fixed part, then one or more characters of the class |
| Tokens.TokensWithoutDollar | bifrost_run_launcher/pipeline.py:139-147 | a text without `$` holds no placeholder |
| Tokens.TokensOfOne | bifrost_run_launcher/pipeline.py:139-147 | one placeholder between texts without `$`, not followed by a class character, is the only match |
| Tokens.TokensOfTwo | bifrost_run_launcher/pipeline.py:147 | a placeholder written twice is matched twice |
| Templater.RunValue | bifrost_run_launcher/pipeline.py:141-142 | a run placeholder resolves only when it splits into two parts on `.` and the second part names a string field of the run |
| Templater.ReplaceRunInfo | bifrost_run_launcher/pipeline.py:138-143 | the loop over the matches, on the run object, gives exactly `ReplaceRunSpec` |
| Templater.ReplaceSampleInfo | bifrost_run_launcher/pipeline.py:146-164 | the nested loops over matches and path segments give exactly `ReplaceSampleSpec` |
| Templater.AppendPerSample | bifrost_run_launcher/pipeline.py:178-179 | the filled-in template is appended once per sample, in order |
| Templater.GenerateRunScript | bifrost_run_launcher/pipeline.py:167-186 | the script is exactly `GenerateSpec` of the run's and the samples' documents |
| TemplateFacts.RunTokenSplit | bifrost_run_launcher/pipeline.py:141 | a run placeholder splits into `$run` and its field when a dot follows `$run`, and stays whole otherwise |
| TemplateFacts.ReplaceRunNoTokens | bifrost_run_launcher/pipeline.py:138-143 | a template without `$` is left as it is |
| TemplateFacts.ReplaceRunOne | bifrost_run_launcher/pipeline.py:138-143 | one `$run.<field>` becomes the field's string; a missing field or one that is not a string is an error |
| TemplateFacts.RecordedRunPlaceholders | bifrost_run_launcher/pipeline.py:138-143 | in the run's document after `initialize_run`, `$run.path` becomes the working directory, `$run.type` the run type or a type error when it is `None`, and `$run.issues` is a type error since the issues are a dict |
| TemplateFacts.ReplaceRunUnpack | bifrost_run_launcher/pipeline.py:139-141 | a placeholder whose character after `$run` is not a dot is still matched, and its unpack fails |
| TemplateFacts.RunnerRaises | bifrost_run_launcher/pipeline.py:139-141 | `cd $runner` fails with the unpack error on `$runner` |
| TemplateFacts.ReplaceSampleNoTokens | bifrost_run_launcher/pipeline.py:146-164 | a template without `$` is left as it is |
| TemplateFacts.ReplaceSampleOne | bifrost_run_launcher/pipeline.py:146-164 | one `$sample.<path>` becomes its value's text; a `None` value leaves the placeholder in place, and a path that cannot be read is the error |
| TemplateFacts.ReplaceSampleEvery | bifrost_run_launcher/pipeline.py:160-163 | a resolved placeholder written twice is replaced at both places |
| TemplateFacts.OneSegment | bifrost_run_launcher/pipeline.py:151 | a path of one segment is read from the sample's document |
| TemplateFacts.IndexSegment | bifrost_run_launcher/pipeline.py:152-155 | a segment `name[text]` reads item `int(text)` of field `name` |
| TemplateFacts.IndexPath | bifrost_run_launcher/pipeline.py:152-155 | `$sample.<name>[<n>]` reads item `n` of field `name`, or fails with the missing key |
| TemplateFacts.ObjectIdPath | bifrost_run_launcher/pipeline.py:156-157 | a segment ending in `id` resolves if and only if the field is a mapping holding `$oid`, and then to that value |
| TemplateFacts.FieldSegment | bifrost_run_launcher/pipeline.py:158-159 | any other segment reads the field of that name |
| TemplateFacts.NestedFieldPath | bifrost_run_launcher/pipeline.py:150-159 | `$sample.<a>.<b>` resolves if and only if field `a` is a mapping holding `b`, and then to that value |
| TemplateFacts.FieldPlaceholder | bifrost_run_launcher/pipeline.py:157-163 | a placeholder naming a field: a missing field is an error, `None` keeps the placeholder, any other value takes its place |
| TemplateFacts.PerSampleConcat | bifrost_run_launcher/pipeline.py:178-179 | when every sample fills the template, the fragments follow the script in sample order |
| TemplateFacts.PerSampleFirstError | bifrost_run_launcher/pipeline.py:178-179 | the first sample that cannot fill the template decides the error |
| TemplateFacts.GenerateLayout | bifrost_run_launcher/pipeline.py:167-186 | the script is the run-filled pre-script, one fragment per sample in order, then the run-filled post-script |
| TemplateFacts.GenerateWithoutPerSample | bifrost_run_launcher/pipeline.py:167-186 | without a per-sample template the samples play no part, and without templates the script is empty |

## Left out

- Reading the metadata file with `pandas.read_table` and pandas' type inference: the table arrives parsed into text cells. A numeric sample name is the text it was written as.
- The rename-columns JSON file (`rename_column_file`) is not modelled: it is file I/O plus a column rename before any other step.
- `to_json` of a metadata row becomes `Metadata.RowSummary`: every column as a string, `filenames` as a list, flags as booleans. pandas' own number and NaN rendering is not modelled.
- Database and file writes are left out: `sample.save()`, `run.save()`, and the `run.yaml` and `samples.yaml` dumps.
- `os.listdir` is the `listing` parameter.
- `os.path.abspath`, `os.getcwd`, `sample_name_generator`, `to_reference`, a new `Sample`'s starting document and the component are fields of `Reconciler.Env`.
- Python's `str()` of a list or dict is the `repr` parameter of the sample replacement. Floats are not modelled.
- `get_file_pairs` and `get_sample_names` are modelled as sets. `initialize_run` takes the hash-dependent order of `list(set(...))` as a parameter, required to list every distinct group once.
- The order of `unused_files` (`list(set)`) is hash-dependent. `initialize_run` takes it as a parameter, required to list every unused file once.
- bifrostlib's `Sample(name=...)` is foreign. A new sample's document is `Env.sampleInit` of the generated name with `name` set to that name; nothing else is assumed about it.
- The template files are passed as their text, or `None` when absent. Opening and reading them is not modelled.
- `run_pipeline`, `launcher.py` and the argument parsing are not part of this model.
- Reconciler.FindExisting: a sample document without a `name` field counts as not matching. bifrostlib samples always carry one.
- Reconciler.InitializeRun: it states that the returned list keeps the given samples first, in order and without repeats. It does not state that the appended samples are fresh objects.
- ReconcileFacts.RunDocs: the closed form assumes that the keys are distinct and that no generated sample name is itself a key (`NoCollision`). Without that, a turn can reuse a sample an earlier turn created.
- Metadata.FormatMetadata: the code drops only the rows without a `sample_name`. A surviving row whose `filenames` is missing makes `strip` fail, so the whole call fails. The model follows the code, not the wider description that also drops rows without filenames.
- The model's `initialize_run` reads the first metadata row named by the key for `sample_info`: the corrected lookup (see Findings).

## Findings

| source | as written | input that shows it | evidently intended | confidence | as-written member | corrected member |
|---|---|---|---|---|---|---|
| bifrost_run_launcher/pipeline.py:105 | `metadata.iloc[...]` is given the index label of the first row named `k` (`.index[0]`). Labels survive the dropped unnamed rows, and `iloc` reads by position | a metadata table whose first row has an empty `sample_name`, then samples `a` and `b`: looking up `a` reads `b`'s row, and looking up `b` is out of range | read the first row named `k` (`.loc`, or `.iloc` with a position) | not executed | RowLookup.LabelLookupExample | RowLookup.ReconciledSampleInfo |
