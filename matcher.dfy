/** get_file_pairs and parse_directory: the filename groups the metadata names, matched
    against the files of the input folder. */
module Matcher {
  import opened Strings
  import opened Metadata

  /** The files of a group, as a set. */
  function Files(g: seq<string>): set<string>
  {
    set f | f in g
  }

  /** `sample_dict`: a Python dict from sample name to the group's files, which remembers
      the order in which its keys were first inserted. */
  datatype SampleDict = SampleDict(keys: seq<string>, files: map<string, seq<string>>)

  const EmptyDict := SampleDict([], map[])

  ghost predicate ValidDict(d: SampleDict)
  {
    && (forall i, j :: 0 <= i < j < |d.keys| ==> d.keys[i] != d.keys[j])
    && (forall k :: k in d.keys <==> k in d.files)
  }

  /** `d[k] = v`: a new key goes to the end, an existing key keeps its place. */
  function Put(d: SampleDict, k: string, v: seq<string>): (r: SampleDict)
    requires ValidDict(d)
    ensures ValidDict(r)
    ensures r.files == d.files[k := v]
    ensures k in d.files ==> r.keys == d.keys
    ensures k !in d.files ==> r.keys == d.keys + [k]
  {
    if k in d.files then SampleDict(d.keys, d.files[k := v]) else SampleDict(d.keys + [k], d.files[k := v])
  }

  /** The inner loop of parse_directory: every row whose `filenames` equals `g` records
      `g` under its sample name, in row order. */
  function Record(d: SampleDict, rows: seq<MetaRow>, g: seq<string>): (r: SampleDict)
    requires ValidDict(d)
    ensures ValidDict(r)
    decreases |rows|
  {
    if rows == [] then d
    else Record(if rows[0].filenames == g then Put(d, rows[0].sampleName, g) else d, rows[1..], g)
  }

  /** Some row carries group `g` under the name `k`. */
  ghost predicate Carries(rows: seq<MetaRow>, g: seq<string>, k: string)
  {
    exists i :: 0 <= i < |rows| && rows[i].filenames == g && rows[i].sampleName == k
  }

  /** `r` keeps the keys of `d` in their order, as its first keys. */
  ghost predicate KeepsOrder(d: SampleDict, r: SampleDict)
  {
    |d.keys| <= |r.keys| && r.keys[..|d.keys|] == d.keys
  }

  lemma KeepsOrderTransitive(a: SampleDict, b: SampleDict, c: SampleDict)
    requires KeepsOrder(a, b) && KeepsOrder(b, c)
    ensures KeepsOrder(a, c)
  {
    assert c.keys[..|b.keys|][..|a.keys|] == c.keys[..|a.keys|];
  }

  /** `Record` keeps the old keys in their order, as the first keys. */
  lemma {:induction false} RecordKeepsOrder(d: SampleDict, rows: seq<MetaRow>, g: seq<string>)
    requires ValidDict(d)
    ensures KeepsOrder(d, Record(d, rows, g))
    decreases |rows|
  {
    if rows != [] {
      var d' := if rows[0].filenames == g then Put(d, rows[0].sampleName, g) else d;
      RecordKeepsOrder(d', rows[1..], g);
      assert KeepsOrder(d, d') by {
        assert d'.keys[..|d.keys|] == d.keys;
      }
      KeepsOrderTransitive(d, d', Record(d, rows, g));
    }
  }

  /** The keys `Record` touches are the names of the rows carrying `g`, and each of them
      now holds `g`; every other entry is kept. */
  lemma {:induction false} RecordEntries(d: SampleDict, rows: seq<MetaRow>, g: seq<string>)
    requires ValidDict(d)
    ensures var r := Record(d, rows, g);
      && (forall k :: k in r.files <==> k in d.files || Carries(rows, g, k))
      && (forall k :: k in r.files ==> r.files[k] == if Carries(rows, g, k) then g else d.files[k])
    decreases |rows|
  {
    if rows != [] {
      var d' := if rows[0].filenames == g then Put(d, rows[0].sampleName, g) else d;
      RecordEntries(d', rows[1..], g);
      CarriesUnfold(rows, g);
    }
  }

  /** A group is carried by the first row or by one of the others. */
  lemma CarriesUnfold(rows: seq<MetaRow>, g: seq<string>)
    requires rows != []
    ensures forall k :: Carries(rows, g, k) <==> (rows[0].filenames == g && rows[0].sampleName == k) || Carries(rows[1..], g, k)
  {
    forall k
      ensures Carries(rows, g, k) <==> (rows[0].filenames == g && rows[0].sampleName == k) || Carries(rows[1..], g, k)
    {
      if Carries(rows, g, k) {
        var i :| 0 <= i < |rows| && rows[i].filenames == g && rows[i].sampleName == k;
        if i > 0 { assert rows[1..][i - 1] == rows[i]; }
      }
      if Carries(rows[1..], g, k) {
        var i :| 0 <= i < |rows[1..]| && rows[1..][i].filenames == g && rows[1..][i].sampleName == k;
        assert rows[i + 1] == rows[1..][i];
      }
    }
  }

  /** What the loop over the groups produces: the dictionary and the files left unused. */
  datatype Matching = Matching(dict: SampleDict, unused: set<string>)

  /** The loop of parse_directory from some point on: `avail` is the shared file set as it
      stands (it is both `all_files` and `unused_files`), `d` the dictionary so far. */
  function Match(avail: set<string>, groups: seq<seq<string>>, rows: seq<MetaRow>, d: SampleDict): (r: Result<Matching>)
    requires ValidDict(d)
    ensures r.Ok? ==> ValidDict(r.value.dict) && r.value.unused <= avail
    decreases |groups|
  {
    if groups == [] then Ok(Matching(d, avail))
    else if |groups[0]| != 2 then Err(WrongFileCount(groups[0]))
    else if Files(groups[0]) <= avail then
      Match(avail - Files(groups[0]), groups[1..], rows, Record(d, rows, groups[0]))
    else Match(avail, groups[1..], rows, d)
  }

  /** `parse_directory`: the dictionary and the unused files, the metadata file set aside. */
  function ParseDirectorySpec(listing: seq<string>, groups: seq<seq<string>>, rows: seq<MetaRow>, metadataFile: string): (r: Result<Matching>)
    ensures r.Ok? ==> ValidDict(r.value.dict) && r.value.unused <= Files(listing) && metadataFile !in r.value.unused
  {
    var m :- Match(Files(listing), groups, rows, EmptyDict);
    Ok(Matching(m.dict, m.unused - {metadataFile}))
  }

  /** The directory's file set, shared by two names in the source. */
  class FileSet {
    var files: set<string>

    /** `set(os.listdir(directory))`. */
    constructor (listing: seq<string>)
      ensures files == Files(listing)
    {
      files := Files(listing);
    }

    /** `issuperset(g)`. */
    predicate IsSupersetOf(g: seq<string>)
      reads this
    {
      Files(g) <= files
    }

    /** `difference_update(g)`. */
    method DifferenceUpdate(g: seq<string>)
      modifies this
      ensures files == old(files) - Files(g)
    {
      files := files - Files(g);
    }

    /** `discard(f)`. */
    method Discard(f: string)
      modifies this
      ensures files == old(files) - {f}
    {
      files := files - {f};
    }
  }

  /** `parse_directory(directory, file_name_list, run_metadata, run_metadata_filename)`,
      with the folder's listing given. `unused_files` is the very object `all_files`
      names, so a file taken by one group is gone for the superset test of the next. */
  method ParseDirectory(listing: seq<string>, groups: seq<seq<string>>, rows: seq<MetaRow>, metadataFile: string)
    returns (r: Result<Matching>)
    ensures r == ParseDirectorySpec(listing, groups, rows, metadataFile)
  {
    var allFiles := new FileSet(listing);
    var unusedFiles := allFiles;
    var sampleDict := EmptyDict;
    for i := 0 to |groups|
      invariant unusedFiles == allFiles && ValidDict(sampleDict)
      invariant Match(allFiles.files, groups[i..], rows, sampleDict) == Match(Files(listing), groups, rows, EmptyDict)
    {
      var sampleFiles := groups[i];
      assert groups[i..][1..] == groups[i + 1..];
      if |sampleFiles| != 2 {
        return Err(WrongFileCount(sampleFiles));
      }
      if allFiles.IsSupersetOf(sampleFiles) {
        unusedFiles.DifferenceUpdate(sampleFiles);
        ghost var before := sampleDict;
        for j := 0 to |rows|
          invariant ValidDict(sampleDict)
          invariant Record(sampleDict, rows[j..], sampleFiles) == Record(before, rows, sampleFiles)
        {
          assert rows[j..][1..] == rows[j + 1..];
          if rows[j].filenames == sampleFiles {
            sampleDict := Put(sampleDict, rows[j].sampleName, sampleFiles);
          }
        }
      }
    }
    unusedFiles.Discard(metadataFile);
    return Ok(Matching(sampleDict, unusedFiles.files));
  }

  /** The groups the loop takes, in order: those whose files are all still available
      when their turn comes. */
  function Taken(avail: set<string>, groups: seq<seq<string>>): seq<seq<string>>
    decreases |groups|
  {
    if groups == [] || |groups[0]| != 2 then []
    else if Files(groups[0]) <= avail then [groups[0]] + Taken(avail - Files(groups[0]), groups[1..])
    else Taken(avail, groups[1..])
  }

  /** The index of the first group that is not a pair. */
  function FirstNonPair(groups: seq<seq<string>>): (i: nat)
    requires exists i :: 0 <= i < |groups| && |groups[i]| != 2
    ensures i < |groups| && |groups[i]| != 2 && forall j :: 0 <= j < i ==> |groups[j]| == 2
  {
    if |groups[0]| != 2 then 0
    else
      assert exists i :: 0 <= i < |groups[1..]| && |groups[1..][i]| != 2 by {
        var i :| 0 <= i < |groups| && |groups[i]| != 2;
        assert groups[1..][i - 1] == groups[i];
      }
      FirstNonPair(groups[1..]) + 1
  }

  /** The loop fails exactly when some group is not a pair, and then with the first such
      group, whatever files are present: the length test comes before the superset test. */
  lemma {:induction false} MatchFailsOnFirstNonPair(avail: set<string>, groups: seq<seq<string>>, rows: seq<MetaRow>, d: SampleDict)
    requires ValidDict(d)
    ensures Match(avail, groups, rows, d).Err? <==> exists i :: 0 <= i < |groups| && |groups[i]| != 2
    ensures Match(avail, groups, rows, d).Err? ==>
      Match(avail, groups, rows, d).error == WrongFileCount(groups[FirstNonPair(groups)])
    decreases |groups|
  {
    if groups != [] && |groups[0]| == 2 {
      var d' := if Files(groups[0]) <= avail then Record(d, rows, groups[0]) else d;
      var avail' := if Files(groups[0]) <= avail then avail - Files(groups[0]) else avail;
      MatchFailsOnFirstNonPair(avail', groups[1..], rows, d');
      assert Match(avail, groups, rows, d) == Match(avail', groups[1..], rows, d');
      if exists i :: 0 <= i < |groups| && |groups[i]| != 2 {
        var i :| 0 <= i < |groups| && |groups[i]| != 2;
        assert groups[1..][i - 1] == groups[i];
        assert FirstNonPair(groups) == FirstNonPair(groups[1..]) + 1;
      }
      if exists i :: 0 <= i < |groups[1..]| && |groups[1..][i]| != 2 {
        var i :| 0 <= i < |groups[1..]| && |groups[1..][i]| != 2;
        assert groups[i + 1] == groups[1..][i];
      }
    }
  }

  /** On success the unused files are the available ones less the files of the groups
      taken; each group taken was wholly available, and no two taken groups share a file. */
  lemma {:induction false} MatchConsumesTaken(avail: set<string>, groups: seq<seq<string>>, rows: seq<MetaRow>, d: SampleDict)
    requires ValidDict(d)
    requires Match(avail, groups, rows, d).Ok?
    ensures var taken := Taken(avail, groups);
      && (forall f :: f in Match(avail, groups, rows, d).value.unused <==>
            f in avail && forall k :: 0 <= k < |taken| ==> f !in taken[k])
      && (forall k :: 0 <= k < |taken| ==> Files(taken[k]) <= avail && |taken[k]| == 2)
      && (forall k, l :: 0 <= k < l < |taken| ==> Files(taken[k]) !! Files(taken[l]))
    decreases |groups|
  {
    if groups != [] {
      var g := groups[0];
      if Files(g) <= avail {
        var avail' := avail - Files(g);
        var rest := Taken(avail', groups[1..]);
        MatchConsumesTaken(avail', groups[1..], rows, Record(d, rows, g));
        var taken := Taken(avail, groups);
        assert taken == [g] + rest;
        assert forall k :: 1 <= k < |taken| ==> taken[k] == rest[k - 1];
        assert Match(avail, groups, rows, d) == Match(avail', groups[1..], rows, Record(d, rows, g));
        forall f
          ensures (f in avail && forall k :: 0 <= k < |taken| ==> f !in taken[k])
              <==> (f in avail' && forall k :: 0 <= k < |rest| ==> f !in rest[k])
        {
          if f in avail && forall k :: 0 <= k < |taken| ==> f !in taken[k] {
            assert f !in taken[0];
            forall k | 0 <= k < |rest| ensures f !in rest[k] {
              assert rest[k] == taken[k + 1];
            }
          }
          if f in avail' && forall k :: 0 <= k < |rest| ==> f !in rest[k] {
            forall k | 0 <= k < |taken| ensures f !in taken[k] {
              if k > 0 { assert taken[k] == rest[k - 1]; }
            }
          }
        }
        forall k, l | 0 <= k < l < |taken|
          ensures Files(taken[k]) !! Files(taken[l])
        {
          if k == 0 {
            assert Files(taken[l]) <= avail';
          }
        }
      } else {
        MatchConsumesTaken(avail, groups[1..], rows, d);
        assert Taken(avail, groups) == Taken(avail, groups[1..]);
        assert Match(avail, groups, rows, d) == Match(avail, groups[1..], rows, d);
      }
    }
  }

  /** Successive `Record`s over the taken groups: the dictionary the loop builds. */
  function RecordAll(d: SampleDict, rows: seq<MetaRow>, taken: seq<seq<string>>): (r: SampleDict)
    requires ValidDict(d)
    ensures ValidDict(r)
    decreases |taken|
  {
    if taken == [] then d else RecordAll(Record(d, rows, taken[0]), rows, taken[1..])
  }

  /** On success the dictionary is built from the groups taken, and from them only: a
      group not wholly present adds nothing. */
  lemma {:induction false} MatchRecordsTaken(avail: set<string>, groups: seq<seq<string>>, rows: seq<MetaRow>, d: SampleDict)
    requires ValidDict(d)
    requires Match(avail, groups, rows, d).Ok?
    ensures Match(avail, groups, rows, d).value.dict == RecordAll(d, rows, Taken(avail, groups))
    decreases |groups|
  {
    if groups != [] {
      var g := groups[0];
      if Files(g) <= avail {
        MatchRecordsTaken(avail - Files(g), groups[1..], rows, Record(d, rows, g));
        assert Taken(avail, groups)[1..] == Taken(avail - Files(g), groups[1..]);
      } else {
        MatchRecordsTaken(avail, groups[1..], rows, d);
      }
    }
  }

  /** Some row carries one of the groups `taken` under the name `k`. */
  ghost predicate Carried(rows: seq<MetaRow>, taken: seq<seq<string>>, k: string)
  {
    exists j :: 0 <= j < |taken| && Carries(rows, taken[j], k)
  }

  /** A name is carried by a taken group when the first group or a later one carries it. */
  lemma CarriedUnfold(rows: seq<MetaRow>, taken: seq<seq<string>>)
    requires taken != []
    ensures forall k :: Carried(rows, taken, k) <==> Carries(rows, taken[0], k) || Carried(rows, taken[1..], k)
  {
    forall k
      ensures Carried(rows, taken, k) <==> Carries(rows, taken[0], k) || Carried(rows, taken[1..], k)
    {
      if Carried(rows, taken, k) {
        var j :| 0 <= j < |taken| && Carries(rows, taken[j], k);
        if j > 0 { assert taken[1..][j - 1] == taken[j]; }
      }
      if Carried(rows, taken[1..], k) {
        var j :| 0 <= j < |taken[1..]| && Carries(rows, taken[1..][j], k);
        assert taken[j + 1] == taken[1..][j];
      }
    }
  }

  /** The dictionary holds, besides the old entries, exactly the names of the rows that
      carry a taken group, each mapped to a taken group that a row of that name carries. */
  lemma {:induction false} RecordAllEntries(d: SampleDict, rows: seq<MetaRow>, taken: seq<seq<string>>)
    requires ValidDict(d)
    ensures var r := RecordAll(d, rows, taken);
      && KeepsOrder(d, r)
      && (forall k :: k in r.files <==> k in d.files || Carried(rows, taken, k))
      && (forall k :: k in r.files && Carried(rows, taken, k) ==>
            exists j :: 0 <= j < |taken| && Carries(rows, taken[j], k) && r.files[k] == taken[j])
      && (forall k :: k in r.files && !Carried(rows, taken, k) ==> r.files[k] == d.files[k])
    decreases |taken|
  {
    if taken != [] {
      var g := taken[0];
      var d' := Record(d, rows, g);
      RecordEntries(d, rows, g);
      RecordKeepsOrder(d, rows, g);
      RecordAllEntries(d', rows, taken[1..]);
      var r := RecordAll(d, rows, taken);
      KeepsOrderTransitive(d, d', r);
      CarriedUnfold(rows, taken);
      forall k | k in r.files && Carried(rows, taken, k)
        ensures exists j :: 0 <= j < |taken| && Carries(rows, taken[j], k) && r.files[k] == taken[j]
      {
        if Carried(rows, taken[1..], k) {
          var j :| 0 <= j < |taken[1..]| && Carries(rows, taken[1..][j], k) && r.files[k] == taken[1..][j];
          assert taken[j + 1] == taken[1..][j];
        } else {
          assert r.files[k] == taken[0];
        }
      }
    }
  }

  /** The loop's outcome in full, from the folder listing: it fails exactly on a group
      that is not a pair; otherwise the unused files are the listing less the taken
      groups and the metadata file, the taken groups are disjoint pairs from the listing,
      and the dictionary maps exactly the names of rows carrying a taken group, each to
      such a group. */
  lemma ParseDirectoryOutcome(listing: seq<string>, groups: seq<seq<string>>, rows: seq<MetaRow>, metadataFile: string)
    ensures var r := ParseDirectorySpec(listing, groups, rows, metadataFile);
      && (r.Err? <==> exists i :: 0 <= i < |groups| && |groups[i]| != 2)
      && (r.Err? ==> r.error == WrongFileCount(groups[FirstNonPair(groups)]))
    ensures var r := ParseDirectorySpec(listing, groups, rows, metadataFile);
      var taken := Taken(Files(listing), groups);
      r.Ok? ==>
        && (forall f :: f in r.value.unused <==>
              f in listing && f != metadataFile && forall k :: 0 <= k < |taken| ==> f !in taken[k])
        && (forall k :: 0 <= k < |taken| ==> Files(taken[k]) <= Files(listing) && |taken[k]| == 2)
        && (forall k, l :: 0 <= k < l < |taken| ==> Files(taken[k]) !! Files(taken[l]))
        && (forall n :: n in r.value.dict.files <==> Carried(rows, taken, n))
        && (forall n :: n in r.value.dict.files ==>
              exists j :: 0 <= j < |taken| && Carries(rows, taken[j], n) && r.value.dict.files[n] == taken[j])
  {
    MatchFailsOnFirstNonPair(Files(listing), groups, rows, EmptyDict);
    if Match(Files(listing), groups, rows, EmptyDict).Ok? {
      MatchConsumesTaken(Files(listing), groups, rows, EmptyDict);
      MatchRecordsTaken(Files(listing), groups, rows, EmptyDict);
      RecordAllEntries(EmptyDict, rows, Taken(Files(listing), groups));
    }
  }

  /** A group is taken when all its files are in the listing and no earlier group
      shares a file with it; a group with a file missing from the listing never is. */
  lemma {:induction false} TakenWhenUnshared(avail: set<string>, groups: seq<seq<string>>, i: nat)
    requires i < |groups| && forall j :: 0 <= j <= i ==> |groups[j]| == 2
    requires forall j :: 0 <= j < i ==> Files(groups[j]) !! Files(groups[i])
    ensures Files(groups[i]) <= avail <==> groups[i] in Taken(avail, groups)
    decreases i
  {
    if i == 0 {
      if groups[0] in Taken(avail, groups) && !(Files(groups[0]) <= avail) {
        NotTakenWhenAbsent(avail, groups[1..], groups[0]);
      }
    } else {
      var g := groups[0];
      var avail' := if Files(g) <= avail then avail - Files(g) else avail;
      assert groups[1..][i - 1] == groups[i];
      TakenWhenUnshared(avail', groups[1..], i - 1);
      if Files(g) <= avail && groups[i] == g {
        assert Files(groups[i]) <= avail && groups[i] in Taken(avail, groups);
      }
    }
  }

  /** A group with a file outside the available set is never taken later on. */
  lemma {:induction false} NotTakenWhenAbsent(avail: set<string>, groups: seq<seq<string>>, g: seq<string>)
    requires !(Files(g) <= avail)
    ensures g !in Taken(avail, groups)
    decreases |groups|
  {
    if groups != [] && |groups[0]| == 2 {
      if Files(groups[0]) <= avail {
        NotTakenWhenAbsent(avail - Files(groups[0]), groups[1..], g);
      } else {
        NotTakenWhenAbsent(avail, groups[1..], g);
      }
    }
  }

  /** The effect of the shared set: of two groups sharing a file, both wholly present,
      only the first is taken. */
  lemma SharedFileGoesToFirstGroup(listing: seq<string>, a: string, b: string, c: string)
    requires a != b && b != c && a != c
    requires a in listing && b in listing && c in listing
    ensures Taken(Files(listing), [[a, b], [b, c]]) == [[a, b]]
  {
    var avail := Files(listing);
    var groups := [[a, b], [b, c]];
    assert Files([a, b]) <= avail;
    assert groups[1..] == [[b, c]] && groups[1..][1..] == [];
    assert b in Files([b, c]) && b !in avail - Files([a, b]);
    assert Taken(avail - Files([a, b]), [[b, c]]) == [];
  }
}
