/** What the loop over `sample_dict` in initialize_run leaves behind, stated against the
    state before the loop: the metadata flags, the sample documents and the run's issues. */
module ReconcileFacts {
  import opened Strings
  import opened Records
  import opened Metadata
  import opened Matcher
  import opened Reconciler

  /** The flags the loop over some keys sets, on the rows alone. */
  function MarkAll(rows: seq<MetaRow>, keys: seq<string>): (r: seq<MetaRow>)
    decreases |keys|
  {
    if keys == [] then rows else MarkAll(MarkHave(rows, keys[0]), keys[1..])
  }

  /** The rows the loop leaves are those flags set on the rows it was given. */
  lemma {:induction false} ReconcileRows(p: Pass, keys: seq<string>, files: map<string, seq<string>>, env: Env, runReference: Doc)
    requires Reconcilable(p.rows, keys, files)
    ensures Reconcile(p, keys, files, env, runReference).rows == MarkAll(p.rows, keys)
    decreases |keys|
  {
    if keys != [] {
      var k := keys[0];
      var q := Step(p, k, files[k], env, runReference);
      ReconcileUnfold(p, k, keys, files, env, runReference);
      assert q.rows == MarkHave(p.rows, k);
      ReconcileRows(q, keys[1..], files, env, runReference);
    }
  }

  /** Marking the rows named by some keys, one key after another, marks exactly the rows
      whose name is one of the keys. */
  lemma {:induction false} MarkAllRows(rows: seq<MetaRow>, keys: seq<string>)
    ensures var r := MarkAll(rows, keys);
      && |r| == |rows|
      && forall i :: 0 <= i < |rows| ==> r[i] == if rows[i].sampleName in keys then Marked(rows[i]) else rows[i]
    decreases |keys|
  {
    if keys != [] {
      var k, m := keys[0], MarkHave(rows, keys[0]);
      MarkAllRows(m, keys[1..]);
      forall i | 0 <= i < |rows|
        ensures MarkAll(rows, keys)[i] == if rows[i].sampleName in keys then Marked(rows[i]) else rows[i]
      {
        assert m[i].sampleName == rows[i].sampleName;
        assert rows[i].sampleName in keys <==> rows[i].sampleName == k || rows[i].sampleName in keys[1..] by {
          assert keys == [k] + keys[1..];
        }
      }
    }
  }

  /** Every metadata row named by a key ends with both flags set; the others keep theirs. */
  lemma ReconcileFlags(p: Pass, keys: seq<string>, files: map<string, seq<string>>, env: Env, runReference: Doc)
    requires Reconcilable(p.rows, keys, files)
    ensures var r := Reconcile(p, keys, files, env, runReference);
      && |r.rows| == |p.rows|
      && forall i :: 0 <= i < |p.rows| ==>
           r.rows[i] == if p.rows[i].sampleName in keys then Marked(p.rows[i]) else p.rows[i]
  {
    ReconcileRows(p, keys, files, env, runReference);
    MarkAllRows(p.rows, keys);
  }

  /** Two lists of documents that agree on which of their common entries are named `n`,
      when the longer one has no further document named `n`, have the same last document
      named `n`. */
  lemma LastNamedAgree(d1: seq<map<string, Doc>>, d2: seq<map<string, Doc>>, n: string)
    requires |d1| <= |d2|
    requires forall j :: 0 <= j < |d1| ==> (NamedAs(d1[j], n) <==> NamedAs(d2[j], n))
    requires forall j :: |d1| <= j < |d2| ==> !NamedAs(d2[j], n)
    ensures LastNamed(d1, n) == LastNamed(d2, n)
    ensures NamedIn(d1, n) <==> NamedIn(d2, n)
  {
    var r1, r2 := LastNamed(d1, n), LastNamed(d2, n);
    if r2 >= 0 {
      assert r2 < |d1| && NamedAs(d1[r2], n);
    }
    if r1 >= 0 {
      assert NamedAs(d2[r1], n);
    }
  }

  /** A turn keeps the name of the document it starts from. */
  lemma ReconciledName(p: Pass, k: string, files: seq<string>, env: Env, runReference: Doc)
    requires |files| == 2 && k in NamesOf(p.rows)
    ensures var d := Reconciled(p, k, files, env, runReference);
      && "name" in d
      && (NamedIn(p.docs, k) ==> NamedAs(d, k))
      && (!NamedIn(p.docs, k) ==> d["name"] == Str(env.nameGen(k)))
  {
    var base := BaseDoc(p.docs, k, env, runReference);
    var rows := MarkHave(p.rows, k);
    var first := WithCategory(base, "paired_reads", PairedReads(env, files));
    var d := WithCategory(first, "sample_info", SampleInfo(env, RowSummary(rows[FirstRowNamed(rows, k)])));
    assert "name" in base && "name" in first && first["name"] == base["name"];
  }

  /** The effect of one turn on the list of documents. */
  lemma StepDocs(p: Pass, k: string, files: seq<string>, env: Env, runReference: Doc)
    requires |files| == 2 && k in NamesOf(p.rows)
    ensures var q, idx := Step(p, k, files, env, runReference), LastNamed(p.docs, k);
      && q.rows == MarkHave(p.rows, k)
      && |q.docs| == (if idx >= 0 then |p.docs| else |p.docs| + 1)
      && (forall j :: 0 <= j < |p.docs| && j != idx ==> q.docs[j] == p.docs[j])
      && q.docs[if idx >= 0 then idx else |p.docs|] == Reconciled(p, k, files, env, runReference)
  {
  }

  /** A turn for `k` leaves alone which document is the last one named `n`, for any other
      name than `k` and the name generated for `k`. */
  lemma StepKeepsOtherNames(p: Pass, k: string, files: seq<string>, env: Env, runReference: Doc, n: string)
    requires |files| == 2 && k in NamesOf(p.rows)
    requires n != k && n != env.nameGen(k)
    ensures var q := Step(p, k, files, env, runReference);
      && LastNamed(q.docs, n) == LastNamed(p.docs, n)
      && (NamedIn(q.docs, n) <==> NamedIn(p.docs, n))
  {
    var q := Step(p, k, files, env, runReference);
    var idx := LastNamed(p.docs, k);
    StepDocs(p, k, files, env, runReference);
    ReconciledName(p, k, files, env, runReference);
    forall j | 0 <= j < |p.docs|
      ensures NamedAs(p.docs[j], n) <==> NamedAs(q.docs[j], n)
    {
      if j == idx {
        assert NamedAs(p.docs[j], k) && NamedAs(q.docs[j], k);
      }
    }
    LastNamedAgree(p.docs, q.docs, n);
  }

  /** The first row named `k` depends only on the names of the rows. */
  lemma FirstRowNamedByNames(a: seq<MetaRow>, b: seq<MetaRow>, k: string)
    requires NamesOf(a) == NamesOf(b) && k in NamesOf(a)
    ensures FirstRowNamed(a, k) == FirstRowNamed(b, k)
  {
    var i, j := FirstRowNamed(a, k), FirstRowNamed(b, k);
    assert NamesOf(a)[i] == NamesOf(b)[i] && NamesOf(a)[j] == NamesOf(b)[j];
  }

  /** A turn for `k` leaves the starting document of a turn for another key `n` alone. */
  lemma StepKeepsOtherBase(p: Pass, k: string, files: seq<string>, env: Env, runReference: Doc, n: string)
    requires |files| == 2 && k in NamesOf(p.rows)
    requires n != k && n != env.nameGen(k)
    ensures BaseDoc(Step(p, k, files, env, runReference).docs, n, env, runReference) == BaseDoc(p.docs, n, env, runReference)
  {
    var q := Step(p, k, files, env, runReference);
    StepDocs(p, k, files, env, runReference);
    StepKeepsOtherNames(p, k, files, env, runReference, n);
    var m := LastNamed(p.docs, n);
    if m >= 0 {
      var idx := LastNamed(p.docs, k);
      assert m != idx by {
        if idx >= 0 {
          assert NamedAs(p.docs[m], n) && NamedAs(p.docs[idx], k);
        }
      }
      assert q.docs[m] == p.docs[m];
    }
    BaseDocAgree(p.docs, q.docs, n, env, runReference);
  }

  /** Two lists of documents whose last document named `n` is the same one at the same
      place give a turn for `n` the same starting document. */
  lemma BaseDocAgree(d1: seq<map<string, Doc>>, d2: seq<map<string, Doc>>, n: string, env: Env, runReference: Doc)
    requires LastNamed(d1, n) == LastNamed(d2, n)
    requires LastNamed(d1, n) >= 0 ==> d1[LastNamed(d1, n)] == d2[LastNamed(d1, n)]
    ensures BaseDoc(d1, n, env, runReference) == BaseDoc(d2, n, env, runReference)
  {
  }

  /** The categories a turn sets depend only on the first row named by its key. */
  lemma CategorisedByFirstRow(doc: map<string, Doc>, a: seq<MetaRow>, b: seq<MetaRow>, k: string, files: seq<string>, env: Env)
    requires |files| == 2 && NamesOf(a) == NamesOf(b) && k in NamesOf(a)
    requires a[FirstRowNamed(a, k)] == b[FirstRowNamed(a, k)]
    ensures Categorised(doc, a, k, files, env) == Categorised(doc, b, k, files, env)
  {
    FirstRowNamedByNames(a, b, k);
  }

  /** A turn for `k` does not change what a later turn for another key `n` produces. */
  lemma StepKeepsOtherTurns(p: Pass, k: string, files: seq<string>, env: Env, runReference: Doc, n: string, nFiles: seq<string>)
    requires |files| == 2 && k in NamesOf(p.rows)
    requires |nFiles| == 2 && n in NamesOf(p.rows)
    requires n != k && n != env.nameGen(k)
    ensures var q := Step(p, k, files, env, runReference);
      n in NamesOf(q.rows) && Reconciled(q, n, nFiles, env, runReference) == Reconciled(p, n, nFiles, env, runReference)
  {
    var q := Step(p, k, files, env, runReference);
    StepKeepsOtherBase(p, k, files, env, runReference, n);
    var rq, rp := MarkHave(q.rows, n), MarkHave(p.rows, n);
    assert q.rows == MarkHave(p.rows, k);
    var f := FirstRowNamed(rq, n);
    assert rq[f] == rp[f] by {
      assert NamesOf(rq)[f] == n;
    }
    CategorisedByFirstRow(BaseDoc(p.docs, n, env, runReference), rq, rp, n, nFiles, env);
  }

  /** The keys that name none of the documents, in order: the ones that get a new sample. */
  function NewKeys(docs: seq<map<string, Doc>>, keys: seq<string>): (r: seq<string>)
    ensures |r| <= |keys|
    ensures forall k :: k in r <==> k in keys && !NamedIn(docs, k)
  {
    if keys == [] then []
    else
      var rest := NewKeys(docs, keys[1..]);
      assert forall k :: k in keys <==> k == keys[0] || k in keys[1..] by {
        assert keys == [keys[0]] + keys[1..];
      }
      if NamedIn(docs, keys[0]) then rest else [keys[0]] + rest
  }

  /** Lists of documents that agree on which keys they name have the same new keys. */
  lemma {:induction false} NewKeysAgree(d1: seq<map<string, Doc>>, d2: seq<map<string, Doc>>, keys: seq<string>)
    requires forall k :: k in keys ==> (NamedIn(d1, k) <==> NamedIn(d2, k))
    ensures NewKeys(d1, keys) == NewKeys(d2, keys)
  {
    if keys != [] {
      assert keys[0] in keys;
      assert forall k :: k in keys[1..] ==> k in keys;
      NewKeysAgree(d1, d2, keys[1..]);
    }
  }

  /** The key whose turn ends on the document at `j`, if any: its name, when that name is a
      key and no later document bears it. */
  function KeyAt(docs: seq<map<string, Doc>>, keys: seq<string>, j: nat): (r: Option<string>)
    requires j < |docs|
    ensures r.Some? ==> r.value in keys && LastNamed(docs, r.value) == j
  {
    var doc := docs[j];
    if "name" in doc && doc["name"].Str? && doc["name"].s in keys && LastNamed(docs, doc["name"].s) == j
    then Some(doc["name"].s)
    else None
  }

  /** Keys that are distinct. */
  ghost predicate Distinct(keys: seq<string>)
  {
    forall i, j | 0 <= i < j < |keys| :: keys[i] != keys[j]
  }

  /** No generated sample name is itself one of the keys. */
  ghost predicate NoCollision(env: Env, keys: seq<string>)
  {
    forall k1, k2 | k1 in keys && k2 in keys :: env.nameGen(k1) != k2
  }

  /** What the loop leaves at position `j` of the documents it started from: the result of
      the turn that ends there, or the document untouched. */
  function EndDoc(p: Pass, keys: seq<string>, files: map<string, seq<string>>, env: Env, runReference: Doc, j: nat): map<string, Doc>
    requires Reconcilable(p.rows, keys, files) && j < |p.docs|
  {
    match KeyAt(p.docs, keys, j)
    case Some(k) => Reconciled(p, k, files[k], env, runReference)
    case None => p.docs[j]
  }

  /** Placing a document not named `n` over one not named `n`, or at the end, keeps the
      last document named `n`. */
  lemma PlacedKeepsNames(docs: seq<map<string, Doc>>, idx: int, d: map<string, Doc>, n: string)
    requires -1 <= idx < |docs|
    requires !NamedAs(d, n) && (idx >= 0 ==> !NamedAs(docs[idx], n))
    ensures LastNamed(Placed(docs, idx, d), n) == LastNamed(docs, n)
    ensures NamedIn(Placed(docs, idx, d), n) <==> NamedIn(docs, n)
  {
    var q := Placed(docs, idx, d);
    assert forall j :: 0 <= j < |docs| && j != idx ==> q[j] == docs[j];
    LastNamedAgree(docs, q, n);
  }

  /** A turn's document placed over the last one bearing its key, or appended when there is
      none, ends no later turn where it lands, and the position it replaces ended the turn
      of its key. */
  lemma PlacedKeyAtOwn(docs: seq<map<string, Doc>>, keys: seq<string>, d: map<string, Doc>)
    requires keys != [] && keys[0] !in keys[1..]
    requires "name" in d && d["name"].Str? && d["name"].s !in keys[1..]
    requires NamedIn(docs, keys[0]) ==> d["name"] == Str(keys[0])
    ensures var idx := LastNamed(docs, keys[0]);
      var q := Placed(docs, idx, d);
      && (idx >= 0 ==> KeyAt(docs, keys, idx) == Some(keys[0]))
      && KeyAt(q, keys[1..], if idx >= 0 then idx else |docs|).None?
  {
    var idx := LastNamed(docs, keys[0]);
    if idx >= 0 {
      assert keys[0] in keys;
    }
    assert Placed(docs, idx, d)[if idx >= 0 then idx else |docs|] == d;
  }

  /** Every other position ends the same turn as before the placement. */
  lemma PlacedKeyAtOther(docs: seq<map<string, Doc>>, keys: seq<string>, d: map<string, Doc>, j: nat)
    requires keys != [] && keys[0] !in keys[1..]
    requires "name" in d && d["name"].Str? && d["name"].s !in keys[1..]
    requires NamedIn(docs, keys[0]) ==> d["name"] == Str(keys[0])
    requires j < |docs| && j != LastNamed(docs, keys[0])
    ensures KeyAt(Placed(docs, LastNamed(docs, keys[0]), d), keys[1..], j) == KeyAt(docs, keys, j)
  {
    var idx := LastNamed(docs, keys[0]);
    var q := Placed(docs, idx, d);
    PlacedElsewhere(docs, idx, d, j);
    var doc := docs[j];
    if "name" in doc && doc["name"].Str? && doc["name"].s in keys[1..] {
      var n := doc["name"].s;
      assert !NamedAs(d, n) && n != keys[0];
      PlacedKeepsNames(docs, idx, d, n);
      KeyedBoth(docs, q, keys, j, n);
    } else {
      UnkeyedBoth(docs, q, keys, j);
    }
  }

  /** A placement leaves every other position alone. */
  lemma PlacedElsewhere(docs: seq<map<string, Doc>>, idx: int, d: map<string, Doc>, j: nat)
    requires -1 <= idx < |docs| && j < |docs| && j != idx
    ensures j < |Placed(docs, idx, d)| && Placed(docs, idx, d)[j] == docs[j]
  {
  }

  /** The same for any list that has the same document at that position. */
  lemma UnkeyedBoth(docs: seq<map<string, Doc>>, q: seq<map<string, Doc>>, keys: seq<string>, j: nat)
    requires keys != []
    requires j < |docs| && j < |q| && q[j] == docs[j] && j != LastNamed(docs, keys[0])
    requires !("name" in docs[j] && docs[j]["name"].Str? && docs[j]["name"].s in keys[1..])
    ensures KeyAt(q, keys[1..], j) == None
    ensures KeyAt(docs, keys, j) == None
  {
    Unkeyed(q, keys[1..], j);
    var doc := docs[j];
    if "name" in doc && doc["name"].Str? && doc["name"].s in keys {
      assert doc["name"].s == keys[0] by {
        assert keys == [keys[0]] + keys[1..];
      }
    } else {
      Unkeyed(docs, keys, j);
    }
  }

  /** No turn ends on a document not named after a key. */
  lemma Unkeyed(docs: seq<map<string, Doc>>, keys: seq<string>, j: nat)
    requires j < |docs|
    requires !("name" in docs[j] && docs[j]["name"].Str? && docs[j]["name"].s in keys)
    ensures KeyAt(docs, keys, j) == None
  {
  }

  /** The same for any list that has the same document at that position and the same last
      document named `n`. */
  lemma KeyedBoth(docs: seq<map<string, Doc>>, q: seq<map<string, Doc>>, keys: seq<string>, j: nat, n: string)
    requires keys != [] && j < |docs| && j < |q| && q[j] == docs[j]
    requires NamedAs(docs[j], n) && n in keys[1..] && LastNamed(q, n) == LastNamed(docs, n)
    ensures KeyAt(q, keys[1..], j) == KeyAt(docs, keys, j)
  {
    assert n in keys by {
      assert keys == [keys[0]] + keys[1..];
    }
    KeyAtNamed(docs, keys, j, n);
    KeyAtNamed(q, keys[1..], j, n);
  }

  /** A document named by one of the keys is that key's place exactly when it is the last
      document with that name. */
  lemma KeyAtNamed(docs: seq<map<string, Doc>>, keys: seq<string>, j: nat, n: string)
    requires j < |docs| && NamedAs(docs[j], n) && n in keys
    ensures KeyAt(docs, keys, j) == if LastNamed(docs, n) == j then Some(n) else None
  {
    assert docs[j]["name"].s == n;
  }

  /** The same placement leaves the keys still to come that get a new sample alone. */
  lemma PlacedNewKeys(docs: seq<map<string, Doc>>, keys: seq<string>, d: map<string, Doc>)
    requires keys != [] && keys[0] !in keys[1..]
    requires "name" in d && d["name"].Str? && d["name"].s !in keys[1..]
    requires NamedIn(docs, keys[0]) ==> d["name"] == Str(keys[0])
    ensures var idx := LastNamed(docs, keys[0]);
      && NewKeys(Placed(docs, idx, d), keys[1..]) == NewKeys(docs, keys[1..])
      && NewKeys(docs, keys) == (if idx >= 0 then [] else [keys[0]]) + NewKeys(docs, keys[1..])
  {
    var k, rest, idx := keys[0], keys[1..], LastNamed(docs, keys[0]);
    forall n | n in rest
      ensures NamedIn(Placed(docs, idx, d), n) <==> NamedIn(docs, n)
    {
      PlacedKeepsNames(docs, idx, d, n);
    }
    NewKeysAgree(Placed(docs, idx, d), docs, rest);
  }

  /** The facts about the first turn that the closed form needs from the keys alone. */
  lemma FirstKeyApart(env: Env, keys: seq<string>)
    requires keys != [] && Distinct(keys) && NoCollision(env, keys)
    ensures keys[0] !in keys[1..] && env.nameGen(keys[0]) !in keys[1..]
    ensures Distinct(keys[1..]) && NoCollision(env, keys[1..])
    ensures forall n :: n in keys[1..] ==> n in keys && n != keys[0] && n != env.nameGen(keys[0])
  {
    assert forall n :: n in keys[1..] ==> n in keys by {
      assert keys == [keys[0]] + keys[1..];
    }
    forall i, j | 0 <= i < j < |keys[1..]|
      ensures keys[1..][i] != keys[1..][j]
    {
      assert keys[1..][i] == keys[i + 1] && keys[1..][j] == keys[j + 1];
    }
  }

  /** One step of the closed form, for a document that was there before the loop. */
  lemma ClosedFormOld(p: Pass, keys: seq<string>, files: map<string, seq<string>>, env: Env, runReference: Doc, r: Pass, j: nat)
    requires keys != [] && Reconcilable(p.rows, keys, files) && Distinct(keys) && NoCollision(env, keys)
    requires j < |p.docs|
    requires var q := Step(p, keys[0], files[keys[0]], env, runReference);
      && Reconcilable(q.rows, keys[1..], files)
      && j < |q.docs| && j < |r.docs|
      && r.docs[j] == EndDoc(q, keys[1..], files, env, runReference, j)
    ensures r.docs[j] == EndDoc(p, keys, files, env, runReference, j)
  {
    var k, rest := keys[0], keys[1..];
    var q := Step(p, k, files[k], env, runReference);
    var d := Reconciled(p, k, files[k], env, runReference);
    FirstKeyApart(env, keys);
    ReconciledName(p, k, files[k], env, runReference);
    PlacedKeyAtOwn(p.docs, keys, d);
    if j != LastNamed(p.docs, k) {
      PlacedKeyAtOther(p.docs, keys, d, j);
    }
    var at := KeyAt(q.docs, rest, j);
    if at.Some? {
      StepKeepsOtherTurns(p, k, files[k], env, runReference, at.value, files[at.value]);
    }
  }

  /** The new samples still to come after a turn are the ones before it, less the turn's own
      when it made one, so they land at the same positions of the list. */
  lemma PlacedNewKeysShift(docs: seq<map<string, Doc>>, keys: seq<string>, d: map<string, Doc>, t: nat)
    requires keys != [] && keys[0] !in keys[1..]
    requires "name" in d && d["name"].Str? && d["name"].s !in keys[1..]
    requires NamedIn(docs, keys[0]) ==> d["name"] == Str(keys[0])
    requires t < |NewKeys(docs, keys)|
    requires NamedIn(docs, keys[0]) || t > 0
    ensures var q := Placed(docs, LastNamed(docs, keys[0]), d);
      var u := if NamedIn(docs, keys[0]) then t else t - 1;
      && 0 <= u < |NewKeys(q, keys[1..])|
      && |q| + u == |docs| + t
      && NewKeys(q, keys[1..])[u] == NewKeys(docs, keys)[t]
  {
    PlacedNewKeys(docs, keys, d);
  }

  /** One step of the closed form, for a document the loop adds: it lands where it did
      after the first turn, and the first turn did not change it. */
  lemma ClosedFormNew(p: Pass, q: Pass, r: Pass, n: string, nFiles: seq<string>, env: Env, runReference: Doc, t: nat, u: nat)
    requires |nFiles| == 2 && n in NamesOf(p.rows) && n in NamesOf(q.rows)
    requires |q.docs| + u == |p.docs| + t < |r.docs|
    requires r.docs[|q.docs| + u] == Reconciled(q, n, nFiles, env, runReference)
    requires Reconciled(q, n, nFiles, env, runReference) == Reconciled(p, n, nFiles, env, runReference)
    ensures r.docs[|p.docs| + t] == Reconciled(p, n, nFiles, env, runReference)
  {
  }

  /** The closed form for the document the first turn appends. */
  lemma ClosedFormAppended(p: Pass, keys: seq<string>, files: map<string, seq<string>>, env: Env, runReference: Doc, r: Pass)
    requires keys != [] && Reconcilable(p.rows, keys, files) && Distinct(keys) && NoCollision(env, keys)
    requires !NamedIn(p.docs, keys[0])
    requires var q := Step(p, keys[0], files[keys[0]], env, runReference);
      && Reconcilable(q.rows, keys[1..], files)
      && |p.docs| < |q.docs| && |p.docs| < |r.docs|
      && r.docs[|p.docs|] == EndDoc(q, keys[1..], files, env, runReference, |p.docs|)
    ensures NewKeys(p.docs, keys)[0] == keys[0]
    ensures r.docs[|p.docs|] == Reconciled(p, keys[0], files[keys[0]], env, runReference)
  {
    var k := keys[0];
    var d := Reconciled(p, k, files[k], env, runReference);
    FirstKeyApart(env, keys);
    ReconciledName(p, k, files[k], env, runReference);
    PlacedNewKeys(p.docs, keys, d);
    PlacedKeyAtOwn(p.docs, keys, d);
  }

  /** The closed form at one document that was there before the loop. */
  lemma ClosedFormKeptAt(p: Pass, keys: seq<string>, files: map<string, seq<string>>, env: Env, runReference: Doc, j: nat)
    requires Reconcilable(p.rows, keys, files) && Distinct(keys) && NoCollision(env, keys)
    requires j < |p.docs|
    ensures var r := Reconcile(p, keys, files, env, runReference);
      j < |r.docs| && r.docs[j] == EndDoc(p, keys, files, env, runReference, j)
    decreases |keys|, 3
  {
    ReconcileClosedForm(p, keys, files, env, runReference);
  }

  /** The closed form at one of the documents the loop adds. */
  lemma ClosedFormAddedAt(p: Pass, keys: seq<string>, files: map<string, seq<string>>, env: Env, runReference: Doc, t: nat)
    requires Reconcilable(p.rows, keys, files) && Distinct(keys) && NoCollision(env, keys)
    requires t < |NewKeys(p.docs, keys)|
    ensures var r, added := Reconcile(p, keys, files, env, runReference), NewKeys(p.docs, keys);
      |p.docs| + t < |r.docs| && r.docs[|p.docs| + t] == Reconciled(p, added[t], files[added[t]], env, runReference)
    decreases |keys|, 3
  {
    ReconcileClosedForm(p, keys, files, env, runReference);
  }

  /** The inductive step of the closed form at a document that was there before the loop. */
  lemma ClosedFormKeptStep(p: Pass, keys: seq<string>, files: map<string, seq<string>>, env: Env, runReference: Doc, j: nat)
    requires keys != [] && Reconcilable(p.rows, keys, files) && Distinct(keys) && NoCollision(env, keys)
    requires j < |p.docs|
    ensures var r := Reconcile(p, keys, files, env, runReference);
      j < |r.docs| && r.docs[j] == EndDoc(p, keys, files, env, runReference, j)
    decreases |keys|, 1
  {
    var k, rest := keys[0], keys[1..];
    var q := Step(p, k, files[k], env, runReference);
    ReconcileUnfold(p, k, keys, files, env, runReference);
    FirstKeyApart(env, keys);
    ClosedFormKeptAt(q, rest, files, env, runReference, j);
    ClosedFormOld(p, keys, files, env, runReference, Reconcile(q, rest, files, env, runReference), j);
  }

  /** The inductive step of the closed form at the document the first turn appends. */
  lemma ClosedFormAppendedStep(p: Pass, keys: seq<string>, files: map<string, seq<string>>, env: Env, runReference: Doc)
    requires keys != [] && Reconcilable(p.rows, keys, files) && Distinct(keys) && NoCollision(env, keys)
    requires !NamedIn(p.docs, keys[0])
    ensures var r := Reconcile(p, keys, files, env, runReference);
      && NewKeys(p.docs, keys) != [] && NewKeys(p.docs, keys)[0] == keys[0]
      && |p.docs| < |r.docs| && r.docs[|p.docs|] == Reconciled(p, keys[0], files[keys[0]], env, runReference)
    decreases |keys|, 1
  {
    var k, rest := keys[0], keys[1..];
    var q := Step(p, k, files[k], env, runReference);
    ReconcileUnfold(p, k, keys, files, env, runReference);
    FirstKeyApart(env, keys);
    ClosedFormKeptAt(q, rest, files, env, runReference, |p.docs|);
    ClosedFormAppended(p, keys, files, env, runReference, Reconcile(q, rest, files, env, runReference));
  }

  /** The inductive step of the closed form at a document a later turn appends. */
  lemma ClosedFormShiftedStep(p: Pass, keys: seq<string>, files: map<string, seq<string>>, env: Env, runReference: Doc, t: nat)
    requires keys != [] && Reconcilable(p.rows, keys, files) && Distinct(keys) && NoCollision(env, keys)
    requires t < |NewKeys(p.docs, keys)| && (NamedIn(p.docs, keys[0]) || t > 0)
    ensures var r, added := Reconcile(p, keys, files, env, runReference), NewKeys(p.docs, keys);
      |p.docs| + t < |r.docs| && r.docs[|p.docs| + t] == Reconciled(p, added[t], files[added[t]], env, runReference)
    decreases |keys|, 1
  {
    var k, rest := keys[0], keys[1..];
    var q := Step(p, k, files[k], env, runReference);
    var d := Reconciled(p, k, files[k], env, runReference);
    ReconcileUnfold(p, k, keys, files, env, runReference);
    FirstKeyApart(env, keys);
    ReconciledName(p, k, files[k], env, runReference);
    PlacedNewKeysShift(p.docs, keys, d, t);
    var u := if NamedIn(p.docs, k) then t else t - 1;
    ClosedFormAddedAt(q, rest, files, env, runReference, u);
    var n := NewKeys(p.docs, keys)[t];
    assert n in NewKeys(q.docs, rest);
    StepKeepsOtherTurns(p, k, files[k], env, runReference, n, files[n]);
    ClosedFormNew(p, q, Reconcile(q, rest, files, env, runReference), n, files[n], env, runReference, t, u);
  }

  /** Under distinct keys and no generated name that is itself a key, the loop gives the
      same documents as running every turn against the documents and rows it started from:
      each document a key names last is that key's turn, every other one stays as it was,
      and the keys that name no document add their new samples at the end, in key order. */
  lemma {:induction false} ReconcileClosedForm(p: Pass, keys: seq<string>, files: map<string, seq<string>>, env: Env, runReference: Doc)
    requires Reconcilable(p.rows, keys, files) && Distinct(keys) && NoCollision(env, keys)
    ensures var r, added := Reconcile(p, keys, files, env, runReference), NewKeys(p.docs, keys);
      && |r.docs| == |p.docs| + |added|
      && (forall j :: 0 <= j < |p.docs| ==> r.docs[j] == EndDoc(p, keys, files, env, runReference, j))
      && (forall t :: 0 <= t < |added| ==> r.docs[|p.docs| + t] == Reconciled(p, added[t], files[added[t]], env, runReference))
    decreases |keys|, 2
  {
    if keys != [] {
      var k, rest := keys[0], keys[1..];
      var q := Step(p, k, files[k], env, runReference);
      ReconcileUnfold(p, k, keys, files, env, runReference);
      FirstKeyApart(env, keys);
      ReconcileClosedForm(q, rest, files, env, runReference);
      ReconciledName(p, k, files[k], env, runReference);
      PlacedNewKeys(p.docs, keys, Reconciled(p, k, files[k], env, runReference));
      forall j | 0 <= j < |p.docs|
        ensures Reconcile(p, keys, files, env, runReference).docs[j] == EndDoc(p, keys, files, env, runReference, j)
      {
        ClosedFormKeptStep(p, keys, files, env, runReference, j);
      }
      forall t | 0 <= t < |NewKeys(p.docs, keys)|
        ensures var r, added := Reconcile(p, keys, files, env, runReference), NewKeys(p.docs, keys);
          r.docs[|p.docs| + t] == Reconciled(p, added[t], files[added[t]], env, runReference)
      {
        if !NamedIn(p.docs, k) && t == 0 {
          ClosedFormAppendedStep(p, keys, files, env, runReference);
        } else {
          ClosedFormShiftedStep(p, keys, files, env, runReference, t);
        }
      }
    }
  }

  /** The names a flag collects depend only on each row's name and that flag. */
  lemma {:induction false} NamesFlaggedAgree(a: seq<MetaRow>, b: seq<MetaRow>, f: Flag)
    requires |a| == |b|
    requires forall i :: 0 <= i < |a| ==> a[i].sampleName == b[i].sampleName && (Flagged(a[i], f) <==> Flagged(b[i], f))
    ensures NamesFlagged(a, f) == NamesFlagged(b, f)
  {
    if a != [] {
      var n := |a| - 1;
      assert forall i :: 0 <= i < n ==> a[..n][i] == a[i] && b[..n][i] == b[i];
      NamesFlaggedAgree(a[..n], b[..n], f);
    }
  }

  /** Marking the rows some keys name, starting from rows that all have metadata and no
      reads: no row lacks metadata, the rows without reads are the named rows no key
      reached, and the duplicate and changed-name flags are as they were. */
  lemma MarkedFlags(rows: seq<MetaRow>, after: seq<MetaRow>, keys: seq<string>)
    requires forall i :: 0 <= i < |rows| ==> !rows[i].haveReads && rows[i].haveMetaData
    requires |after| == |rows|
    requires forall i :: 0 <= i < |rows| ==> after[i] == if rows[i].sampleName in keys then Marked(rows[i]) else rows[i]
    ensures NamesFlagged(after, NoMetaData) == []
    ensures forall n :: n in NamesFlagged(after, NoReads) <==> n in NamesOf(rows) && n !in keys
    ensures NamesFlagged(after, NoReads) == Unreached(rows, keys)
    ensures NamesFlagged(after, Duplicated) == NamesFlagged(rows, Duplicated)
    ensures NamesFlagged(after, Changed) == NamesFlagged(rows, Changed)
  {
    assert forall i :: 0 <= i < |after| ==> !Flagged(after[i], NoMetaData);
    NoneFlagged(after, NoMetaData);
    NamesFlaggedAgree(after, rows, Duplicated);
    NamesFlaggedAgree(after, rows, Changed);
    MarkedReads(rows, after, keys);
  }

  /** No flagged row, no names. */
  lemma {:induction false} NoneFlagged(rows: seq<MetaRow>, f: Flag)
    requires forall i :: 0 <= i < |rows| ==> !Flagged(rows[i], f)
    ensures NamesFlagged(rows, f) == []
  {
    if rows != [] {
      var n := |rows| - 1;
      assert forall i :: 0 <= i < n ==> rows[..n][i] == rows[i];
      NoneFlagged(rows[..n], f);
    }
  }

  /** The names of the rows no key reached, in row order. */
  function Unreached(rows: seq<MetaRow>, keys: seq<string>): (names: seq<string>)
    ensures forall n :: n in names ==> n in NamesOf(rows) && n !in keys
  {
    if rows == [] then []
    else
      var n := |rows| - 1;
      assert forall i :: 0 <= i < n ==> rows[..n][i] == rows[i];
      assert forall x :: x in NamesOf(rows[..n]) ==> x in NamesOf(rows);
      assert NamesOf(rows)[n] == rows[n].sampleName;
      Unreached(rows[..n], keys) + if rows[n].sampleName in keys then [] else [rows[n].sampleName]
  }

  /** Marking the rows some keys name, starting from rows without reads, leaves as rows
      without reads exactly the rows no key reached, in row order. */
  lemma {:induction false} UnreachedWithoutReads(rows: seq<MetaRow>, after: seq<MetaRow>, keys: seq<string>)
    requires forall i :: 0 <= i < |rows| ==> !rows[i].haveReads
    requires |after| == |rows|
    requires forall i :: 0 <= i < |rows| ==> after[i] == if rows[i].sampleName in keys then Marked(rows[i]) else rows[i]
    ensures NamesFlagged(after, NoReads) == Unreached(rows, keys)
  {
    if rows != [] {
      var n := |rows| - 1;
      assert forall i :: 0 <= i < n ==> rows[..n][i] == rows[i] && after[..n][i] == after[i];
      UnreachedWithoutReads(rows[..n], after[..n], keys);
    }
  }

  /** The reads half of MarkedFlags. */
  lemma MarkedReads(rows: seq<MetaRow>, after: seq<MetaRow>, keys: seq<string>)
    requires forall i :: 0 <= i < |rows| ==> !rows[i].haveReads
    requires |after| == |rows|
    requires forall i :: 0 <= i < |rows| ==> after[i] == if rows[i].sampleName in keys then Marked(rows[i]) else rows[i]
    ensures forall n :: n in NamesFlagged(after, NoReads) <==> n in NamesOf(rows) && n !in keys
    ensures NamesFlagged(after, NoReads) == Unreached(rows, keys)
  {
    UnreachedWithoutReads(rows, after, keys);
    forall n
      ensures n in NamesFlagged(after, NoReads) <==> n in NamesOf(rows) && n !in keys
    {
      if n in NamesOf(rows) && n !in keys {
        var i :| 0 <= i < |rows| && NamesOf(rows)[i] == n;
        assert Flagged(after[i], NoReads);
      }
    }
  }

  /** A list that holds each element of a set once is as long as the set is large. */
  lemma {:induction false} UniqueListSize<T(!new)>(order: seq<T>, items: set<T>)
    requires ListsOnce(order, items)
    ensures |order| == |items|
  {
    if order == [] {
      assert items == {};
    } else {
      var rest := items - {order[0]};
      forall g
        ensures g in order[1..] <==> g in rest
      {
        if g in order[1..] {
          var i :| 0 <= i < |order[1..]| && order[1..][i] == g;
          assert order[i + 1] == g && order[0] != order[i + 1];
        }
        if g in rest {
          assert g in order;
          var i :| 0 <= i < |order| && order[i] == g;
          assert order[1..][i - 1] == g;
        }
      }
      assert forall i, j | 0 <= i < j < |order[1..]| :: order[1..][i] != order[1..][j] by {
        forall i, j | 0 <= i < j < |order[1..]| ensures order[1..][i] != order[1..][j] {
          assert order[1..][i] == order[i + 1] && order[1..][j] == order[j + 1];
        }
      }
      UniqueListSize(order[1..], rest);
      assert order[0] in items;
    }
  }

  /** The issues of a run whose metadata was freshly formatted: every row still has its
      metadata, the rows without reads are exactly the named rows no key of `sample_dict`
      reached, and the duplicate and changed-name lists and the unused files are those
      of the metadata and the folder as they were. */
  lemma RunIssues(
    rows: seq<MetaRow>, m: Matching, unusedOrder: seq<string>, env: Env, runDoc: map<string, Doc>,
    docs: seq<map<string, Doc>>, runType: Option<string>)
    requires Reconcilable(rows, m.dict.keys, m.dict.files)
    requires forall i :: 0 <= i < |rows| ==> !rows[i].haveReads && rows[i].haveMetaData
    requires ListsOnce(unusedOrder, m.unused)
    ensures var issues := RunOutcome(runDoc, docs, env, rows, m, unusedOrder, runType).issues;
      && issues.samplesWithoutMetadata == []
      && (forall n :: n in issues.samplesWithoutReads <==> n in NamesOf(rows) && n !in m.dict.keys)
      && issues.samplesWithoutReads == Unreached(rows, m.dict.keys)
      && issues.duplicatedSamples == NamesFlagged(rows, Duplicated)
      && issues.changedSampleNames == NamesFlagged(rows, Changed)
      && (forall f :: f in issues.unusedFiles <==> f in m.unused)
      && |issues.unusedFiles| == |m.unused|
  {
    UniqueListSize(unusedOrder, m.unused);
    var p := Pass(docs, rows);
    var keys, files, rr := m.dict.keys, m.dict.files, env.runRef(runDoc);
    var r := Reconcile(p, keys, files, env, rr);
    ReconcileFlags(p, keys, files, env, rr);
    MarkedFlags(rows, r.rows, keys);
  }

  /** `out` is what the loop leaves from `p`: each document of `p` rewritten by the last
      turn of its name or kept, then one new document per key no document of `p` is
      named after, in key order. */
  ghost predicate ClosedForm(
    out: seq<map<string, Doc>>, p: Pass, keys: seq<string>, files: map<string, seq<string>>, env: Env, runReference: Doc)
    requires Reconcilable(p.rows, keys, files)
  {
    var added := NewKeys(p.docs, keys);
    && |out| == |p.docs| + |added|
    && (forall j :: 0 <= j < |p.docs| ==> out[j] == EndDoc(p, keys, files, env, runReference, j))
    && (forall t :: 0 <= t < |added| ==> out[|p.docs| + t] == Reconciled(p, added[t], files[added[t]], env, runReference))
  }

  /** The documents of a run, stated against the documents it was given, under the side
      condition that no generated sample name is itself a key of `sample_dict`. */
  lemma RunDocs(
    rows: seq<MetaRow>, m: Matching, unusedOrder: seq<string>, env: Env, runDoc: map<string, Doc>,
    docs: seq<map<string, Doc>>, runType: Option<string>)
    requires Reconcilable(rows, m.dict.keys, m.dict.files) && ValidDict(m.dict) && NoCollision(env, m.dict.keys)
    ensures var p, rr := Pass(docs, rows), env.runRef(runDoc);
      var out := RunOutcome(runDoc, docs, env, rows, m, unusedOrder, runType).docs;
      && out == Reconcile(p, m.dict.keys, m.dict.files, env, rr).docs
      && ClosedForm(out, p, m.dict.keys, m.dict.files, env, rr)
  {
    ReconcileClosedForm(Pass(docs, rows), m.dict.keys, m.dict.files, env, env.runRef(runDoc));
    OutcomeDocs(rows, m, unusedOrder, env, runDoc, docs, runType);
  }

  /** The documents of a run's outcome are those the reconciliation leaves. */
  lemma OutcomeDocs(
    rows: seq<MetaRow>, m: Matching, unusedOrder: seq<string>, env: Env, runDoc: map<string, Doc>,
    docs: seq<map<string, Doc>>, runType: Option<string>)
    requires Reconcilable(rows, m.dict.keys, m.dict.files)
    ensures RunOutcome(runDoc, docs, env, rows, m, unusedOrder, runType).docs == Reconcile(Pass(docs, rows), m.dict.keys, m.dict.files, env, env.runRef(runDoc)).docs
  {
  }

  /** RunDocs for a list of documents known to be the outcome's. */
  lemma OutcomeClosedForm(
    o: Outcome, rows: seq<MetaRow>, m: Matching, unusedOrder: seq<string>, env: Env,
    runDoc: map<string, Doc>, docs: seq<map<string, Doc>>, runType: Option<string>)
    requires Reconcilable(rows, m.dict.keys, m.dict.files) && ValidDict(m.dict) && NoCollision(env, m.dict.keys)
    requires o == RunOutcome(runDoc, docs, env, rows, m, unusedOrder, runType)
    ensures ClosedForm(o.docs, Pass(docs, rows), m.dict.keys, m.dict.files, env, env.runRef(runDoc))
  {
    RunDocs(rows, m, unusedOrder, env, runDoc, docs, runType);
  }

  /** RunIssues for an outcome, with the run document that records the issues. */
  lemma OutcomeIssues(
    o: Outcome, rows: seq<MetaRow>, m: Matching, unusedOrder: seq<string>, env: Env,
    runDoc: map<string, Doc>, docs: seq<map<string, Doc>>, runType: Option<string>)
    requires Reconcilable(rows, m.dict.keys, m.dict.files)
    requires forall i :: 0 <= i < |rows| ==> !rows[i].haveReads && rows[i].haveMetaData
    requires ListsOnce(unusedOrder, m.unused)
    requires o == RunOutcome(runDoc, docs, env, rows, m, unusedOrder, runType)
    ensures && o.issues.samplesWithoutMetadata == []
      && (forall n :: n in o.issues.samplesWithoutReads <==> n in NamesOf(rows) && n !in m.dict.keys)
      && o.issues.samplesWithoutReads == Unreached(rows, m.dict.keys)
      && o.issues.duplicatedSamples == NamesFlagged(rows, Duplicated)
      && o.issues.changedSampleNames == NamesFlagged(rows, Changed)
      && (forall f :: f in o.issues.unusedFiles <==> f in m.unused)
      && |o.issues.unusedFiles| == |m.unused|
      && o.runDoc.Keys == runDoc.Keys + {"type", "path", "issues"}
      && o.runDoc["issues"] == IssuesDoc(o.issues)
      && o.runDoc["path"] == Str(env.cwd)
      && (forall k :: k in runDoc && k !in {"type", "path", "issues"} ==> o.runDoc[k] == runDoc[k])
  {
    RunIssues(rows, m, unusedOrder, env, runDoc, docs, runType);
    RunDocAfterFields(runDoc, runType, env, o.issues);
  }

  /** A successful initialize_run is the run outcome of the formatted metadata and the
      matching of the folder. */
  lemma InitializeRunUnfold(
    runDoc: map<string, Doc>, docs: seq<map<string, Doc>>, env: Env, table: Table,
    listing: seq<string>, metadataFile: string, order: seq<seq<string>>, unusedOrder: seq<string>,
    runType: Option<string>)
    returns (rows: seq<MetaRow>, m: Matching)
    requires WellFormed(table)
    requires InitializeRunSpec(runDoc, docs, env, table, listing, metadataFile, order, unusedOrder, runType).Ok?
    ensures FormatMetadata(table) == Ok(rows)
    ensures ParseDirectorySpec(listing, order, rows, metadataFile) == Ok(m)
    ensures Reconcilable(rows, m.dict.keys, m.dict.files) && ValidDict(m.dict)
    ensures InitializeRunSpec(runDoc, docs, env, table, listing, metadataFile, order, unusedOrder, runType)
      == Ok(RunOutcome(runDoc, docs, env, rows, m, unusedOrder, runType))
  {
    rows := FormatMetadata(table).value;
    m := ParseDirectorySpec(listing, order, rows, metadataFile).value;
    MatchedKeysReconcilable(listing, order, rows, metadataFile);
  }

  /** The documents initialize_run leaves: the documents it was given, each rewritten by
      the last turn of its name or kept, followed by one new document per key of
      `sample_dict` no given document is named after, in key order. */
  lemma InitializeRunDocs(
    runDoc: map<string, Doc>, docs: seq<map<string, Doc>>, env: Env, table: Table,
    listing: seq<string>, metadataFile: string, order: seq<seq<string>>, unusedOrder: seq<string>,
    runType: Option<string>)
    requires WellFormed(table)
    requires InitializeRunSpec(runDoc, docs, env, table, listing, metadataFile, order, unusedOrder, runType).Ok?
    requires var rows := FormatMetadata(table).value;
      NoCollision(env, ParseDirectorySpec(listing, order, rows, metadataFile).value.dict.keys)
    ensures var rows := FormatMetadata(table).value;
      var m := ParseDirectorySpec(listing, order, rows, metadataFile).value;
      var out := InitializeRunSpec(runDoc, docs, env, table, listing, metadataFile, order, unusedOrder, runType).value.docs;
      && Reconcilable(rows, m.dict.keys, m.dict.files)
      && ClosedForm(out, Pass(docs, rows), m.dict.keys, m.dict.files, env, env.runRef(runDoc))
  {
    var rows, m := InitializeRunUnfold(runDoc, docs, env, table, listing, metadataFile, order, unusedOrder, runType);
    OutcomeClosedForm(RunOutcome(runDoc, docs, env, rows, m, unusedOrder, runType), rows, m, unusedOrder, env, runDoc, docs, runType);
  }

  /** The issues initialize_run records, stated against the formatted metadata and the
      matching of the folder, and the run document that holds them. */
  lemma InitializeRunIssues(
    runDoc: map<string, Doc>, docs: seq<map<string, Doc>>, env: Env, table: Table,
    listing: seq<string>, metadataFile: string, order: seq<seq<string>>, unusedOrder: seq<string>,
    runType: Option<string>)
    requires WellFormed(table)
    requires InitializeRunSpec(runDoc, docs, env, table, listing, metadataFile, order, unusedOrder, runType).Ok?
    requires ListsOnce(unusedOrder, ParseDirectorySpec(listing, order, FormatMetadata(table).value, metadataFile).value.unused)
    ensures var rows := FormatMetadata(table).value;
      var m := ParseDirectorySpec(listing, order, rows, metadataFile).value;
      var o := InitializeRunSpec(runDoc, docs, env, table, listing, metadataFile, order, unusedOrder, runType).value;
      && o.issues.samplesWithoutMetadata == []
      && (forall n :: n in o.issues.samplesWithoutReads <==> n in NamesOf(rows) && n !in m.dict.keys)
      && o.issues.samplesWithoutReads == Unreached(rows, m.dict.keys)
      && o.issues.duplicatedSamples == NamesFlagged(rows, Duplicated)
      && o.issues.changedSampleNames == NamesFlagged(rows, Changed)
      && (forall f :: f in o.issues.unusedFiles <==> f in m.unused)
      && |o.issues.unusedFiles| == |m.unused|
      && o.runDoc.Keys == runDoc.Keys + {"type", "path", "issues"}
      && o.runDoc["issues"] == IssuesDoc(o.issues)
      && o.runDoc["path"] == Str(env.cwd)
      && (forall k :: k in runDoc && k !in {"type", "path", "issues"} ==> o.runDoc[k] == runDoc[k])
  {
    var rows, m := InitializeRunUnfold(runDoc, docs, env, table, listing, metadataFile, order, unusedOrder, runType);
    forall i | 0 <= i < |rows|
      ensures !rows[i].haveReads && rows[i].haveMetaData
    {
      assert NormalisedFrom(rows[i], table.rows[rows[i].position]);
    }
    OutcomeIssues(RunOutcome(runDoc, docs, env, rows, m, unusedOrder, runType), rows, m, unusedOrder, env, runDoc, docs, runType);
  }
}
