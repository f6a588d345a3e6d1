/** What the script templating guarantees: which placeholders are found, what a single
    placeholder becomes, how a sample path is read, and how the script is laid out. */
module TemplateFacts {
  import opened Strings
  import opened Records
  import opened Tokens
  import opened Templater
  import Reconciler

  predicate AllLetters(s: string)
  {
    forall i :: 0 <= i < |s| ==> IsAsciiLetter(s[i])
  }

  /** Applying a single run token. */
  lemma ApplyRunOne(script: string, tok: string, doc: map<string, Doc>)
    requires |tok| > 0
    ensures var v := RunValue(doc, tok);
      ApplyRun(script, [tok], doc) == if v.Err? then Err(v.error) else Ok(ReplaceAll(script, tok, v.value))
  {
    assert [tok][1..] == [];
  }

  /** Applying a single sample token. */
  lemma ApplySampleOne(script: string, tok: string, doc: map<string, Doc>, repr: Doc -> string)
    requires |tok| > 0
    ensures var v := SampleValue(doc, tok);
      ApplySample(script, [tok], doc, repr) ==
        if v.Err? then Err(v.error)
        else if v.value.Null? then Ok(script)
        else Ok(ReplaceAll(script, tok, Rendered(v.value, repr).value))
  {
    assert [tok][1..] == [];
  }

  /** The segments of a sample token are those of its path. */
  lemma PathSegments(path: string)
    ensures Split("$sample." + path, '.')[1..] == Split(path, '.')
  {
    assert "$sample." + path == "$sample" + ['.'] + path;
    SplitPrefix("$sample", path, '.');
  }

  /** A walk of one segment is that segment. */
  lemma WalkOne(level: Doc, segment: string)
    ensures Walk(level, [segment]) == Segment(level, segment)
  {
    assert [segment][1..] == [];
  }

  /** A walk of two segments is the second read from the first. */
  lemma WalkTwo(level: Doc, a: string, b: string)
    ensures var next := Segment(level, a);
      Walk(level, [a, b]) == if next.Err? then Err(next.error) else Segment(next.value, b)
  {
    assert [a, b][1..] == [b];
    var next := Segment(level, a);
    if next.Ok? {
      WalkOne(next.value, b);
    }
  }

  // ---------------------------------------------------------------------------------------
  // `$run.<field>`

  /** A run token splits on `.` into `$run` and its field when the character after `$run` is
      a dot, and stays whole otherwise: any other character makes the two-way unpack fail. */
  lemma RunTokenSplit(t: string)
    requires IsToken(RunField, t)
    ensures t[4] == '.' ==> Split(t, '.') == ["$run", t[5..]]
    ensures t[4] != '.' ==> Split(t, '.') == [t]
  {
    assert t[..4] == "$run";
    assert '.' !in t[5..] by {
      forall i | 0 <= i < |t[5..]| ensures t[5..][i] != '.' {
        assert IsAsciiLetter(t[i + 5]);
      }
    }
    if t[4] == '.' {
      assert t == "$run" + ['.'] + t[5..];
      SplitPrefix("$run", t[5..], '.');
    } else {
      assert t == t[..4] + [t[4]] + t[5..];
      assert '.' !in t;
    }
  }

  /** A template without `$` is left as it is. */
  lemma ReplaceRunNoTokens(script: string, doc: map<string, Doc>)
    requires '$' !in script
    ensures ReplaceRunSpec(script, doc) == Ok(script)
  {
    TokensWithoutDollar(RunField, script);
  }

  /** One `$run.<field>` placeholder, not followed by a letter, becomes the field's string;
      a missing field or one that is not a string is an error. */
  lemma ReplaceRunOne(x: string, field: string, y: string, doc: map<string, Doc>)
    requires '$' !in x && '$' !in y
    requires |field| > 0 && AllLetters(field)
    requires y == [] || !IsAsciiLetter(y[0])
    ensures ReplaceRunSpec(x + "$run." + field + y, doc) ==
      if field !in doc then Err(MissingKey(field))
      else if !doc[field].Str? then Err(NotAString(field))
      else Ok(x + doc[field].s + y)
  {
    var tok := "$run." + field;
    assert tok[..4] == "$run" && tok[5..] == field;
    assert x + "$run." + field + y == x + tok + y;
    TokensOfOne(RunField, x, tok, y);
    RunTokenSplit(tok);
    ApplyRunOne(x + tok + y, tok, doc);
    if field in doc && doc[field].Str? {
      ReplaceAllOnce(x, tok, y, doc[field].s);
    }
  }

  /** What the `$run` placeholders read from a run document initialize_run has recorded:
      `$run.path` becomes the working directory, `$run.type` the run type when one was
      given, and `$run.issues` is an error, since the issues are a dictionary. */
  lemma RecordedRunPlaceholders(
    x: string, y: string, doc: map<string, Doc>, runType: Option<string>, env: Reconciler.Env, issues: Issues)
    requires '$' !in x && '$' !in y
    requires y == [] || !IsAsciiLetter(y[0])
    ensures var r := Reconciler.RunDocAfter(doc, runType, env, issues);
      && ReplaceRunSpec(x + "$run.path" + y, r) == Ok(x + env.cwd + y)
      && ReplaceRunSpec(x + "$run.type" + y, r) ==
           (if runType.Some? then Ok(x + runType.value + y) else Err(NotAString("type")))
      && ReplaceRunSpec(x + "$run.issues" + y, r) == Err(NotAString("issues"))
  {
    var r := Reconciler.RunDocAfter(doc, runType, env, issues);
    Reconciler.RunDocAfterFields(doc, runType, env, issues);
    assert AllLetters("path") && AllLetters("type") && AllLetters("issues");
    assert x + "$run." + "path" + y == x + "$run.path" + y;
    assert x + "$run." + "type" + y == x + "$run.type" + y;
    assert x + "$run." + "issues" + y == x + "$run.issues" + y;
    ReplaceRunOne(x, "path", y, r);
    ReplaceRunOne(x, "type", y, r);
    ReplaceRunOne(x, "issues", y, r);
  }

  /** A placeholder whose character after `$run` is not a dot is still found, since the
      pattern leaves that dot unescaped, and its unpack fails. */
  lemma ReplaceRunUnpack(x: string, c: char, field: string, y: string, doc: map<string, Doc>)
    requires '$' !in x && '$' !in y
    requires c != '.' && c != '\n'
    requires |field| > 0 && AllLetters(field)
    requires y == [] || !IsAsciiLetter(y[0])
    ensures ReplaceRunSpec(x + "$run" + [c] + field + y, doc) == Err(UnpackMismatch("$run" + [c] + field))
  {
    var tok := "$run" + [c] + field;
    assert tok[..4] == "$run" && tok[4] == c && tok[5..] == field;
    assert x + "$run" + [c] + field + y == x + tok + y;
    TokensOfOne(RunField, x, tok, y);
    RunTokenSplit(tok);
    ApplyRunOne(x + tok + y, tok, doc);
  }

  /** `$runner` in a template, a shell variable say, is taken for a run placeholder and
      raises. */
  lemma RunnerRaises(doc: map<string, Doc>)
    ensures ReplaceRunSpec("cd $runner", doc) == Err(UnpackMismatch("$runner"))
  {
    assert "cd " + "$run" + ['n'] + "er" + "" == "cd $runner";
    assert "$run" + ['n'] + "er" == "$runner";
    ReplaceRunUnpack("cd ", 'n', "er", "", doc);
  }

  // ---------------------------------------------------------------------------------------
  // `$sample.<path>`

  /** A template without `$` is left as it is. */
  lemma ReplaceSampleNoTokens(script: string, doc: map<string, Doc>, repr: Doc -> string)
    requires '$' !in script
    ensures ReplaceSampleSpec(script, doc, repr) == Ok(script)
  {
    TokensWithoutDollar(SamplePath, script);
  }

  /** One `$sample.<path>` placeholder becomes the rendered value its path reads; a value of
      `None` leaves the placeholder as it is, and a path that cannot be read is the error. */
  lemma ReplaceSampleOne(x: string, path: string, y: string, doc: map<string, Doc>, repr: Doc -> string)
    requires '$' !in x && '$' !in y
    requires |path| > 0 && forall i :: 0 <= i < |path| ==> InClass(SamplePath, path[i])
    requires y == [] || !InClass(SamplePath, y[0])
    ensures var tok := "$sample." + path;
      var v := SampleValue(doc, tok);
      ReplaceSampleSpec(x + tok + y, doc, repr) ==
        if v.Err? then Err(v.error)
        else if v.value.Null? then Ok(x + tok + y)
        else Ok(x + Rendered(v.value, repr).value + y)
  {
    var tok := "$sample." + path;
    assert tok[..8] == "$sample." && tok[0..8] == "$sample.";
    assert forall j :: 8 <= j < |tok| ==> tok[j] == path[j - 8];
    TokensOfOne(SamplePath, x, tok, y);
    ApplySampleOne(x + tok + y, tok, doc, repr);
    var r := SampleValue(doc, tok);
    if r.Ok? && Rendered(r.value, repr).Some? {
      ReplaceAllOnce(x, tok, y, Rendered(r.value, repr).value);
    }
  }

  /** A placeholder written twice is replaced at both places by its value. */
  lemma ReplaceSampleEvery(x: string, path: string, z: string, y: string, doc: map<string, Doc>, repr: Doc -> string)
    requires '$' !in x && '$' !in z && '$' !in y
    requires |path| > 0 && forall i :: 0 <= i < |path| ==> InClass(SamplePath, path[i])
    requires z != [] && !InClass(SamplePath, z[0])
    requires y == [] || !InClass(SamplePath, y[0])
    requires var v := SampleValue(doc, "$sample." + path);
      v.Ok? && !v.value.Null? && '$' !in Rendered(v.value, repr).value
    ensures var tok, v := "$sample." + path, SampleValue(doc, "$sample." + path);
      var text := Rendered(v.value, repr).value;
      ReplaceSampleSpec(x + tok + z + tok + y, doc, repr) == Ok(x + text + z + text + y)
  {
    var tok := "$sample." + path;
    var text := Rendered(SampleValue(doc, tok).value, repr).value;
    assert tok[..8] == "$sample." && tok[0..8] == "$sample.";
    assert forall j :: 8 <= j < |tok| ==> tok[j] == path[j - 8];
    var s := x + tok + z + tok + y;
    TokensOfTwo(SamplePath, x, tok, z, y);
    assert [tok, tok][1..] == [tok];
    ApplySampleOne(ReplaceAll(s, tok, text), tok, doc, repr);
    ReplaceAllTwice(x, tok, z, y, text);
    var after := x + text + z + text + y;
    assert '$' !in after;
    ReplaceAllAbsent(after, tok, text);
  }

  /** A path of one segment is that segment, read from the sample's document. */
  lemma OneSegment(doc: map<string, Doc>, segment: string)
    requires '.' !in segment
    ensures SampleValue(doc, "$sample." + segment) == Segment(Dict(doc), segment)
  {
    PathSegments(segment);
    WalkOne(Dict(doc), segment);
  }

  /** A segment `name[text]` reads item `int(text)` of the list in field `name`. */
  lemma IndexSegment(level: Doc, name: string, text: string, n: nat)
    requires '[' !in name && '[' !in text && ParsePyInt(text) == Some(n)
    ensures var list := Lookup(level, name);
      Segment(level, name + "[" + text + "]") == if list.Err? then Err(list.error) else At(list.value, n)
  {
    var segment := name + "[" + text + "]";
    assert segment[|segment| - 1..] == "]";
    SubscriptSplit(name, text);
    assert DropLast(text + "]") == text;
  }

  /** A subscripted name splits on `[` into the name and the subscript with its `]`. */
  lemma SubscriptSplit(name: string, text: string)
    requires '[' !in name && '[' !in text
    ensures Split(name + "[" + text + "]", '[') == [name, text + "]"]
  {
    assert name + "[" + text + "]" == name + ['['] + (text + "]");
    SplitPrefix(name, text + "]", '[');
    assert '[' !in text + "]" by {
      forall i | 0 <= i < |text + "]"| ensures (text + "]")[i] != '[' {
        if i < |text| {
          assert (text + "]")[i] == text[i];
        }
      }
    }
  }

  /** Decimal digits subscripting a name without `.` hold neither `.` nor `[`. */
  lemma DigitsInSegment(name: string, digits: string)
    requires '.' !in name
    requires forall i :: 0 <= i < |digits| ==> IsAsciiDigit(digits[i])
    ensures '.' !in name + "[" + digits + "]" && '[' !in digits
  {
    var segment := name + "[" + digits + "]";
    forall i | 0 <= i < |segment| ensures segment[i] != '.' {
      if i < |name| {
        assert segment[i] == name[i];
      } else if |name| < i < |name| + 1 + |digits| {
        assert segment[i] == digits[i - |name| - 1];
      }
    }
  }

  /** `$sample.<name>[<n>]` reads item `n` of the list `name`: the index printed in decimal
      is read back as the same number. */
  lemma IndexPath(doc: map<string, Doc>, name: string, n: nat)
    requires '.' !in name && '[' !in name
    ensures SampleValue(doc, "$sample." + name + "[" + NatToString(n) + "]") ==
      if name in doc then At(doc[name], n) else Err(MissingKey(name))
  {
    var digits := NatToString(n);
    var segment := name + "[" + digits + "]";
    assert "$sample." + name + "[" + digits + "]" == "$sample." + segment;
    DigitsInSegment(name, digits);
    OneSegment(doc, segment);
    ParsePrintedNat(n);
    IndexSegment(Dict(doc), name, digits, n);
  }

  /** A segment ending in `id` reads the `$oid` of that field: the object id of a
      document reference. */
  lemma ObjectIdPath(doc: map<string, Doc>, name: string)
    requires '.' !in name && EndsWith(name, "id")
    ensures var r := SampleValue(doc, "$sample." + name);
      && (r.Ok? <==> name in doc && doc[name].Dict? && "$oid" in doc[name].fields)
      && (r.Ok? ==> r.value == doc[name].fields["$oid"])
  {
    OneSegment(doc, name);
    assert name[|name| - 2..] == "id";
    assert name[|name| - 1] == 'd';
    assert !EndsWith(name, "]");
  }

  /** A segment without a subscript or an `id` ending reads the field of that name. */
  lemma FieldSegment(level: Doc, segment: string)
    requires !EndsWith(segment, "]") && !EndsWith(segment, "id")
    ensures Segment(level, segment) == Lookup(level, segment)
  {
  }

  /** `$sample.<a>.<b>` reads field `b` of the mapping in field `a`. */
  lemma NestedFieldPath(doc: map<string, Doc>, a: string, b: string)
    requires '.' !in a && '.' !in b
    requires !EndsWith(a, "]") && !EndsWith(a, "id") && !EndsWith(b, "]") && !EndsWith(b, "id")
    ensures var r := SampleValue(doc, "$sample." + a + "." + b);
      && (r.Ok? <==> a in doc && doc[a].Dict? && b in doc[a].fields)
      && (r.Ok? ==> r.value == doc[a].fields[b])
  {
    assert "$sample." + a + "." + b == "$sample." + (a + ['.'] + b);
    PathSegments(a + ['.'] + b);
    SplitPrefix(a, b, '.');
    WalkTwo(Dict(doc), a, b);
    FieldSegment(Dict(doc), a);
    var first := Lookup(Dict(doc), a);
    if first.Ok? {
      FieldSegment(first.value, b);
    }
  }

  /** A placeholder naming a field of the sample: a field holding `None` leaves the
      placeholder in the script, any other value is put in its place, and a missing field
      is an error. */
  lemma FieldPlaceholder(x: string, name: string, doc: map<string, Doc>, repr: Doc -> string)
    requires '$' !in x
    requires |name| > 0 && AllLetters(name)
    requires !EndsWith(name, "id")
    ensures var tok := "$sample." + name;
      ReplaceSampleSpec(x + tok, doc, repr) ==
        if name !in doc then Err(MissingKey(name))
        else if doc[name].Null? then Ok(x + tok)
        else Ok(x + Rendered(doc[name], repr).value)
  {
    var tok := "$sample." + name;
    assert x + tok + "" == x + tok && x + "" == x;
    assert !EndsWith(name, "]") by {
      assert IsAsciiLetter(name[|name| - 1]);
    }
    assert '.' !in name by {
      forall i | 0 <= i < |name| ensures name[i] != '.' {
        assert IsAsciiLetter(name[i]);
      }
    }
    OneSegment(doc, name);
    FieldSegment(Dict(doc), name);
    assert SampleValue(doc, tok) == Lookup(Dict(doc), name);
    ReplaceSampleOne(x, name, "", doc, repr);
    if name in doc && !doc[name].Null? {
      var text := Rendered(doc[name], repr).value;
      assert x + text + "" == x + text;
    }
  }

  // ---------------------------------------------------------------------------------------
  // generate_run_script

  /** The per-sample fragments, in sample order, when every sample fills the template. */
  function Fragments(template: string, docs: seq<map<string, Doc>>, repr: Doc -> string): string
    requires forall i :: 0 <= i < |docs| ==> ReplaceSampleSpec(template, docs[i], repr).Ok?
  {
    if docs == [] then "" else ReplaceSampleSpec(template, docs[0], repr).value + Fragments(template, docs[1..], repr)
  }

  /** When every sample fills the template, the fragments are appended in sample order. */
  lemma {:induction false} PerSampleConcat(script: string, template: string, docs: seq<map<string, Doc>>, repr: Doc -> string)
    requires forall i :: 0 <= i < |docs| ==> ReplaceSampleSpec(template, docs[i], repr).Ok?
    ensures PerSampleFrom(script, template, docs, repr) == Ok(script + Fragments(template, docs, repr))
    decreases |docs|
  {
    if docs != [] {
      var fragment := ReplaceSampleSpec(template, docs[0], repr).value;
      assert forall i :: 0 <= i < |docs[1..]| ==> docs[1..][i] == docs[i + 1];
      PerSampleConcat(script + fragment, template, docs[1..], repr);
      assert PerSampleFrom(script, template, docs, repr) == PerSampleFrom(script + fragment, template, docs[1..], repr);
      assert Fragments(template, docs, repr) == fragment + Fragments(template, docs[1..], repr);
      assert script + fragment + Fragments(template, docs[1..], repr) == script + Fragments(template, docs, repr);
    } else {
      assert script + "" == script;
    }
  }

  /** The first sample that cannot fill the template decides the error. */
  lemma {:induction false} PerSampleFirstError(script: string, template: string, docs: seq<map<string, Doc>>, repr: Doc -> string, i: nat)
    requires i < |docs| && ReplaceSampleSpec(template, docs[i], repr).Err?
    requires forall j :: 0 <= j < i ==> ReplaceSampleSpec(template, docs[j], repr).Ok?
    ensures PerSampleFrom(script, template, docs, repr) == Err(ReplaceSampleSpec(template, docs[i], repr).error)
    decreases i
  {
    if i > 0 {
      var fragment := ReplaceSampleSpec(template, docs[0], repr).value;
      assert docs[1..][i - 1] == docs[i];
      PerSampleFirstError(script + fragment, template, docs[1..], repr, i - 1);
    }
  }

  /** The script is the run-substituted pre-script, then one fragment per sample in sample
      order, then the run-substituted post-script. */
  lemma GenerateLayout(runDoc: map<string, Doc>, docs: seq<map<string, Doc>>, pre: Option<string>,
                       perSample: string, post: Option<string>, repr: Doc -> string)
    requires RunPart(runDoc, pre).Ok? && RunPart(runDoc, post).Ok?
    requires ReplaceRunSpec(perSample, runDoc).Ok?
    requires var template := ReplaceRunSpec(perSample, runDoc).value;
      forall i :: 0 <= i < |docs| ==> ReplaceSampleSpec(template, docs[i], repr).Ok?
    ensures var template := ReplaceRunSpec(perSample, runDoc).value;
      GenerateSpec(runDoc, docs, pre, Some(perSample), post, repr) ==
        Ok(RunPart(runDoc, pre).value + Fragments(template, docs, repr) + RunPart(runDoc, post).value)
  {
    var template := ReplaceRunSpec(perSample, runDoc).value;
    PerSampleConcat(RunPart(runDoc, pre).value, template, docs, repr);
  }

  /** The per-sample template is run-substituted before any sample is read, so a run
      placeholder it cannot resolve fails the script even when there are no samples. */
  lemma GenerateChecksTemplateFirst(runDoc: map<string, Doc>, docs: seq<map<string, Doc>>, pre: Option<string>,
                                    perSample: string, post: Option<string>, repr: Doc -> string)
    requires RunPart(runDoc, pre).Ok? && ReplaceRunSpec(perSample, runDoc).Err?
    ensures GenerateSpec(runDoc, docs, pre, Some(perSample), post, repr) == Err(ReplaceRunSpec(perSample, runDoc).error)
  {
  }

  /** Without templates the script is empty; without a per-sample template the samples play
      no part. */
  lemma GenerateWithoutPerSample(runDoc: map<string, Doc>, docs: seq<map<string, Doc>>, pre: Option<string>,
                                 post: Option<string>, repr: Doc -> string)
    requires RunPart(runDoc, pre).Ok? && RunPart(runDoc, post).Ok?
    ensures GenerateSpec(runDoc, docs, pre, None, post, repr) == Ok(RunPart(runDoc, pre).value + RunPart(runDoc, post).value)
    ensures GenerateSpec(runDoc, docs, None, None, None, repr) == Ok("")
  {
    assert "" + "" == "";
  }
}
