/** The documents the pipeline reads and writes through bifrostlib: sample and run records,
    category payloads and the JSON of a metadata row, as one tagged tree. */
module Records {
  import opened Strings

  datatype Doc =
    | Str(s: string)
    | Int(i: int)
    | Bool(b: bool)
    | Null
    | List(items: seq<Doc>)
    | Dict(fields: map<string, Doc>)

  /** The categories of a sample document, keyed by category name. */
  function Categories(doc: map<string, Doc>): map<string, Doc>
  {
    if "categories" in doc && doc["categories"].Dict? then doc["categories"].fields else map[]
  }

  /** `Sample.set_category`: the category is stored under its name, replacing any earlier
      category of that name; the other categories and the other fields stay. */
  function WithCategory(doc: map<string, Doc>, name: string, category: Doc): (r: map<string, Doc>)
    ensures Categories(r) == Categories(doc)[name := category]
    ensures forall k :: k in doc && k != "categories" ==> k in r && r[k] == doc[k]
    ensures r.Keys == doc.Keys + {"categories"}
  {
    doc["categories" := Dict(Categories(doc)[name := category])]
  }

  /** Setting a category twice under one name keeps only the second. */
  lemma WithCategoryReplaces(doc: map<string, Doc>, name: string, first: Doc, second: Doc)
    ensures WithCategory(WithCategory(doc, name, first), name, second) == WithCategory(doc, name, second)
  {
    assert Categories(doc)[name := first][name := second] == Categories(doc)[name := second];
  }

  /** A sample: bifrostlib's `Sample`, a document updated in place. */
  class Sample {
    var doc: map<string, Doc>

    /** `Sample(name=...)`: a new sample document. `init` is the document bifrostlib's
        constructor starts from before it sets the name. */
    constructor (init: map<string, Doc>, name: string)
      ensures doc == init["name" := Str(name)]
    {
      doc := init["name" := Str(name)];
    }

    /** `sample[key] = value`. */
    method Put(key: string, value: Doc)
      modifies this
      ensures doc == old(doc)[key := value]
    {
      doc := doc[key := value];
    }

    /** `sample.set_category(category)`, where `name` is the category's own name. */
    method SetCategory(name: string, category: Doc)
      modifies this
      ensures doc == WithCategory(old(doc), name, category)
    {
      doc := WithCategory(doc, name, category);
    }
  }

  /** The documents of a list of samples, in list order. */
  function DocsOf(samples: seq<Sample>): (r: seq<map<string, Doc>>)
    reads set s | s in samples
    ensures |r| == |samples|
    ensures forall i :: 0 <= i < |samples| ==> r[i] == samples[i].doc
  {
    if samples == [] then [] else [samples[0].doc] + DocsOf(samples[1..])
  }

  /** The diagnostics a run records about its metadata and input folder. */
  datatype Issues = Issues(
    duplicatedSamples: seq<string>,
    changedSampleNames: seq<string>,
    unusedFiles: seq<string>,
    samplesWithoutReads: seq<string>,
    samplesWithoutMetadata: seq<string>)

  /** A list of strings as a document value. */
  function StrList(names: seq<string>): (r: Doc)
    ensures r.List? && |r.items| == |names|
    ensures forall i :: 0 <= i < |names| ==> r.items[i] == Str(names[i])
  {
    if names == [] then List([])
    else
      var rest := StrList(names[1..]);
      assert forall i :: 1 <= i < |names| ==> names[1..][i - 1] == names[i];
      List([Str(names[0])] + rest.items)
  }

  /** The `issues` entry of a run document: one list per kind of issue. */
  function IssuesDoc(i: Issues): Doc
  {
    Dict(map[
      "duplicated_samples" := StrList(i.duplicatedSamples),
      "changed_sample_names" := StrList(i.changedSampleNames),
      "unused_files" := StrList(i.unusedFiles),
      "samples_without_reads" := StrList(i.samplesWithoutReads),
      "samples_without_metadata" := StrList(i.samplesWithoutMetadata)])
  }

  /** A run: bifrostlib's `Run`. Its document holds the fields `$run.*` tokens read,
      the issues included; the list of sample references is kept beside it. */
  class Run {
    var doc: map<string, Doc>
    var samples: seq<Doc>

    constructor (doc: map<string, Doc>)
      ensures this.doc == doc && samples == []
    {
      this.doc := doc;
      samples := [];
    }

    /** `run[key] = value`. */
    method Put(key: string, value: Doc)
      modifies this
      ensures doc == old(doc)[key := value] && samples == old(samples)
    {
      doc := doc[key := value];
    }
  }
}
