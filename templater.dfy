/** The run script: templates whose `$run.<field>` and `$sample.<path>` placeholders are
    filled in from the run's and each sample's document. */
module Templater {
  import opened Strings
  import opened Records
  import opened Tokens

  /** Every token is non-empty, so it can be searched for. */
  predicate Searchable(tokens: seq<string>)
  {
    forall k :: 0 <= k < |tokens| ==> |tokens[k]| > 0
  }

  // ---------------------------------------------------------------------------------------
  // `$run.<field>`

  /** The text a run token stands for: the token splits on `.` into exactly two parts, the
      second names a field of the run, and that field holds a string. */
  function RunValue(doc: map<string, Doc>, token: string): (r: Result<string>)
    ensures r.Ok? ==> var parts := Split(token, '.');
      |parts| == 2 && parts[1] in doc && doc[parts[1]] == Str(r.value)
  {
    var parts := Split(token, '.');
    if |parts| != 2 then Err(UnpackMismatch(token))
    else if parts[1] !in doc then Err(MissingKey(parts[1]))
    else if !doc[parts[1]].Str? then Err(NotAString(parts[1]))
    else Ok(doc[parts[1]].s)
  }

  /** The tokens applied in order, each replacing every occurrence of itself in the text as
      it stands after the earlier ones; the first token that cannot be resolved is the error. */
  function ApplyRun(script: string, tokens: seq<string>, doc: map<string, Doc>): Result<string>
    requires Searchable(tokens)
    decreases |tokens|
  {
    if tokens == [] then Ok(script)
    else
      var value :- RunValue(doc, tokens[0]);
      ApplyRun(ReplaceAll(script, tokens[0], value), tokens[1..], doc)
  }

  /** replace_run_info_in_script. */
  function ReplaceRunSpec(script: string, doc: map<string, Doc>): Result<string>
  {
    ApplyRun(script, FindAll(RunField, script), doc)
  }

  /** replace_run_info_in_script, one placeholder after the other. */
  method ReplaceRunInfo(script: string, run: Run) returns (r: Result<string>)
    ensures r == ReplaceRunSpec(script, run.doc)
  {
    var tokens := FindAll(RunField, script);
    var current := script;
    var n := 0;
    while n < |tokens|
      invariant 0 <= n <= |tokens|
      invariant ApplyRun(current, tokens[n..], run.doc) == ApplyRun(script, tokens, run.doc)
    {
      var item := tokens[n];
      assert tokens[n..][0] == item && tokens[n..][1..] == tokens[n + 1..];
      var parts := Split(item, '.');
      if |parts| != 2 {
        return Err(UnpackMismatch(item));
      }
      var key := parts[1];
      if key !in run.doc {
        return Err(MissingKey(key));
      }
      var value := run.doc[key];
      if !value.Str? {
        return Err(NotAString(key));
      }
      current := ReplaceAll(current, item, value.s);
      n := n + 1;
    }
    return Ok(current);
  }

  // ---------------------------------------------------------------------------------------
  // `$sample.<path>`

  /** `level[key]` with a string key: a field of a mapping; anything else raises. */
  function Lookup(level: Doc, key: string): (r: Result<Doc>)
    ensures r.Ok? <==> level.Dict? && key in level.fields
    ensures r.Ok? ==> r.value == level.fields[key]
  {
    match level
    case Dict(fields) => if key in fields then Ok(fields[key]) else Err(MissingKey(key))
    case _ => Err(NotSubscriptable)
  }

  /** `level[index]` with an integer: an item of a list or a character of a string. A
      mapping of the document never has an integer key. */
  function At(level: Doc, index: nat): (r: Result<Doc>)
    ensures r.Ok? <==> (level.List? && index < |level.items|) || (level.Str? && index < |level.s|)
    ensures r.Ok? && level.List? ==> r.value == level.items[index]
  {
    match level
    case List(items) => if index < |items| then Ok(items[index]) else Err(IndexOutOfRange(index))
    case Str(s) => if index < |s| then Ok(Str([s[index]])) else Err(IndexOutOfRange(index))
    case Dict(_) => Err(MissingKey(NatToString(index)))
    case _ => Err(NotSubscriptable)
  }

  /** `text[:-1]`. */
  function DropLast(text: string): (r: string)
    ensures |text| > 0 ==> text == r + [text[|text| - 1]]
    ensures |text| == 0 ==> r == []
  {
    if |text| == 0 then [] else text[..|text| - 1]
  }

  /** One step of a path: `name[index]` reads an item of the list `name`; a segment ending in
      `id` reads the `$oid` of that field; any other segment reads a field. */
  function Segment(level: Doc, segment: string): Result<Doc>
  {
    if EndsWith(segment, "]") then
      var parts := Split(segment, '[');
      if |parts| != 2 then Err(UnpackMismatch(segment))
      else
        var digits := DropLast(parts[1]);
        match ParsePyInt(digits)
        case None => Err(NotAnInteger(digits))
        case Some(index) =>
          var list :- Lookup(level, parts[0]);
          At(list, index)
    else if EndsWith(segment, "id") then
      var field :- Lookup(level, segment);
      Lookup(field, "$oid")
    else Lookup(level, segment)
  }

  /** A path walked from `level`, segment by segment; the first failing step is the error. */
  function Walk(level: Doc, segments: seq<string>): Result<Doc>
    decreases |segments|
  {
    if segments == [] then Ok(level)
    else
      var next :- Segment(level, segments[0]);
      Walk(next, segments[1..])
  }

  /** The value a sample token stands for: its path, the parts after the first `.`, walked
      from the sample's document. */
  function SampleValue(doc: map<string, Doc>, token: string): Result<Doc>
  {
    Walk(Dict(doc), Split(token, '.')[1..])
  }

  /** `str(value)` as the script receives it, or None for `None`, which leaves the token in
      place. Lists and mappings are printed by Python's `repr`, given as `repr`. */
  function Rendered(value: Doc, repr: Doc -> string): (r: Option<string>)
    ensures r.None? <==> value.Null?
    ensures value.Str? ==> r == Some(value.s)
  {
    match value
    case Null => None
    case Str(s) => Some(s)
    case Int(i) => Some(IntToString(i))
    case Bool(b) => Some(if b then "True" else "False")
    case _ => Some(repr(value))
  }

  /** The sample tokens applied in order; a token whose value is `None` stays as it is. */
  function ApplySample(script: string, tokens: seq<string>, doc: map<string, Doc>, repr: Doc -> string): Result<string>
    requires Searchable(tokens)
    decreases |tokens|
  {
    if tokens == [] then Ok(script)
    else
      var value :- SampleValue(doc, tokens[0]);
      var next := match Rendered(value, repr)
        case None => script
        case Some(text) => ReplaceAll(script, tokens[0], text);
      ApplySample(next, tokens[1..], doc, repr)
  }

  /** replace_sample_info_in_script. */
  function ReplaceSampleSpec(script: string, doc: map<string, Doc>, repr: Doc -> string): Result<string>
  {
    ApplySample(script, FindAll(SamplePath, script), doc, repr)
  }

  /** replace_sample_info_in_script: for each placeholder, walk its path through the
      sample's document, then put the value in. */
  method ReplaceSampleInfo(script: string, sample: Sample, repr: Doc -> string) returns (r: Result<string>)
    ensures r == ReplaceSampleSpec(script, sample.doc, repr)
  {
    var tokens := FindAll(SamplePath, script);
    var current := script;
    var n := 0;
    while n < |tokens|
      invariant 0 <= n <= |tokens|
      invariant ApplySample(current, tokens[n..], sample.doc, repr) == ApplySample(script, tokens, sample.doc, repr)
    {
      var item := tokens[n];
      assert tokens[n..][0] == item && tokens[n..][1..] == tokens[n + 1..];
      var segments := Split(item, '.')[1..];
      var level := Dict(sample.doc);
      var m := 0;
      while m < |segments|
        invariant 0 <= m <= |segments|
        invariant Walk(level, segments[m..]) == SampleValue(sample.doc, item)
      {
        var value := segments[m];
        assert segments[m..][0] == value && segments[m..][1..] == segments[m + 1..];
        if EndsWith(value, "]") {
          var parts := Split(value, '[');
          if |parts| != 2 {
            return Err(UnpackMismatch(value));
          }
          var digits := DropLast(parts[1]);
          var index := ParsePyInt(digits);
          if index.None? {
            return Err(NotAnInteger(digits));
          }
          var list := Lookup(level, parts[0]);
          if list.Err? {
            return Err(list.error);
          }
          var next := At(list.value, index.value);
          if next.Err? {
            return Err(next.error);
          }
          level := next.value;
        } else if EndsWith(value, "id") {
          var field := Lookup(level, value);
          if field.Err? {
            return Err(field.error);
          }
          var next := Lookup(field.value, "$oid");
          if next.Err? {
            return Err(next.error);
          }
          level := next.value;
        } else {
          var next := Lookup(level, value);
          if next.Err? {
            return Err(next.error);
          }
          level := next.value;
        }
        m := m + 1;
      }
      match Rendered(level, repr) {
        case None =>
        case Some(text) => current := ReplaceAll(current, item, text);
      }
      n := n + 1;
    }
    return Ok(current);
  }

  // ---------------------------------------------------------------------------------------
  // generate_run_script

  /** A run-level template: nothing when there is none, else its run-substituted text. */
  function RunPart(doc: map<string, Doc>, template: Option<string>): Result<string>
  {
    match template
    case None => Ok("")
    case Some(text) => ReplaceRunSpec(text, doc)
  }

  /** The per-sample fragments appended to `script`, one per sample in order. */
  function PerSampleFrom(script: string, template: string, docs: seq<map<string, Doc>>, repr: Doc -> string): Result<string>
    decreases |docs|
  {
    if docs == [] then Ok(script)
    else
      var fragment :- ReplaceSampleSpec(template, docs[0], repr);
      PerSampleFrom(script + fragment, template, docs[1..], repr)
  }

  /** The per-sample part appended to `head`: the template, run-substituted once before any
      sample is, then filled in for each sample in order. */
  function PerSamplePart(runDoc: map<string, Doc>, docs: seq<map<string, Doc>>, head: string,
                         perSample: Option<string>, repr: Doc -> string): Result<string>
  {
    match perSample
    case None => Ok(head)
    case Some(text) =>
      var template :- ReplaceRunSpec(text, runDoc);
      PerSampleFrom(head, template, docs, repr)
  }

  /** generate_run_script over the texts of its three templates. */
  function GenerateSpec(runDoc: map<string, Doc>, docs: seq<map<string, Doc>>, pre: Option<string>,
                        perSample: Option<string>, post: Option<string>, repr: Doc -> string): Result<string>
  {
    var head :- RunPart(runDoc, pre);
    var body :- PerSamplePart(runDoc, docs, head, perSample, repr);
    var tail :- RunPart(runDoc, post);
    Ok(body + tail)
  }

  /** The loop of generate_run_script over the samples: the filled-in template appended to
      the script once per sample, in order. */
  method AppendPerSample(script: string, template: string, samples: seq<Sample>, repr: Doc -> string) returns (r: Result<string>)
    ensures r == PerSampleFrom(script, template, DocsOf(samples), repr)
  {
    ghost var docs := DocsOf(samples);
    var current := script;
    var n := 0;
    while n < |samples|
      invariant 0 <= n <= |samples|
      invariant PerSampleFrom(current, template, docs[n..], repr) == PerSampleFrom(script, template, docs, repr)
    {
      assert docs[n..][0] == samples[n].doc && docs[n..][1..] == docs[n + 1..];
      var fragment := ReplaceSampleInfo(template, samples[n], repr);
      if fragment.Err? {
        return Err(fragment.error);
      }
      current := current + fragment.value;
      n := n + 1;
    }
    assert docs[n..] == [];
    return Ok(current);
  }

  /** generate_run_script: the pre-script, then the per-sample script once per sample, then
      the post-script. A template that is absent contributes nothing. */
  method GenerateRunScript(run: Run, samples: seq<Sample>, pre: Option<string>, perSample: Option<string>,
                           post: Option<string>, repr: Doc -> string) returns (r: Result<string>)
    ensures r == GenerateSpec(run.doc, DocsOf(samples), pre, perSample, post, repr)
  {
    var script := "";
    if pre.Some? {
      var part := ReplaceRunInfo(pre.value, run);
      if part.Err? {
        return Err(part.error);
      }
      script := script + part.value;
      assert script == part.value;
    }
    ghost var head, docs := script, DocsOf(samples);
    assert RunPart(run.doc, pre) == Ok(head);
    if perSample.Some? {
      var template := ReplaceRunInfo(perSample.value, run);
      if template.Err? {
        return Err(template.error);
      }
      var filled := AppendPerSample(script, template.value, samples, repr);
      if filled.Err? {
        return Err(filled.error);
      }
      script := filled.value;
    }
    assert PerSamplePart(run.doc, docs, head, perSample, repr) == Ok(script);
    ghost var body := script;
    if post.Some? {
      var part := ReplaceRunInfo(post.value, run);
      if part.Err? {
        return Err(part.error);
      }
      script := script + part.value;
    }
    assert script == body + RunPart(run.doc, post).value;
    return Ok(script);
  }
}
