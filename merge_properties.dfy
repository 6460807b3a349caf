/** Properties of a whole `merge_samples` run, stated over the model in merge_files.dfy. */
module MergeProperties {
  import opened Common
  import opened Strings
  import opened Sorting
  import opened MergeFiles

  // ---------------------------------------------------------------- the written lines

  /** A data line splits back into the printed cells when no cell holds a tab. */
  lemma RenderRowFields(row: seq<Cell>)
    requires |row| >= 1
    requires forall i :: 0 <= i < |row| ==> '\t' !in Str(row[i])
    ensures var line := RenderRow(row);
      |line| >= 1 && line[|line| - 1] == '\n' &&
      Split(line[..|line| - 1], '\t') == seq(|row|, i requires 0 <= i < |row| => Str(row[i]))
  {
    var cells := seq(|row|, i requires 0 <= i < |row| => Str(row[i]));
    var line := RenderRow(row);
    assert line == Join(cells, '\t') + "\n";
    assert line[..|line| - 1] == Join(cells, '\t');
    SplitJoin(cells, '\t');
  }

  // ---------------------------------------------------------------- the collected rows

  /** A row is collected exactly when one of the files contributes it. */
  lemma CollectedRowsMembers(names: seq<string>, contents: map<string, Frame>, normal: bool, r: seq<Cell>)
    requires Loadable(contents) && AllPresent(names, contents)
    ensures r in CollectedRows(names, contents, normal) <==>
      exists i :: 0 <= i < |names| && r in FileRows(names[i], contents[names[i]], normal)
  {
    var pieces := MapSeq(names, RowsOf(contents, normal));
    FlattenMembers(pieces, r);
    if exists i :: 0 <= i < |names| && r in FileRows(names[i], contents[names[i]], normal) {
      var i :| 0 <= i < |names| && r in FileRows(names[i], contents[names[i]], normal);
      assert r in pieces[i];
    }
  }

  /** Every row of every file is collected. */
  lemma CollectedRowsIncludes(names: seq<string>, contents: map<string, Frame>, normal: bool, j: nat, r: seq<Cell>)
    requires Loadable(contents) && AllPresent(names, contents) && j < |names|
    requires r in FileRows(names[j], contents[names[j]], normal)
    ensures r in CollectedRows(names, contents, normal)
  {
    var pieces := MapSeq(names, RowsOf(contents, normal));
    assert r in pieces[j];
    FlattenMembers(pieces, r);
  }

  /** The status filter distributes over concatenation. */
  lemma {:induction false} KeptRowsConcat(a: seq<seq<Cell>>, b: seq<seq<Cell>>, falseCalls: seq<string>)
    requires CanonicalRows(a) && CanonicalRows(b)
    ensures CanonicalRows(a + b)
    ensures KeptRows(a + b, falseCalls) == KeptRows(a, falseCalls) + KeptRows(b, falseCalls)
    decreases |b|
  {
    if b == [] {
      assert a + b == a;
    } else {
      var front, last := b[..|b| - 1], b[|b| - 1];
      KeptRowsConcat(a, front, falseCalls);
      assert (a + b)[..|a + b| - 1] == a + front;
      assert (a + b)[|a + b| - 1] == last;
      var tail := if Keep(last[StatusIndex], falseCalls) then [last] else [];
      ConcatAssociative(KeptRows(a, falseCalls), KeptRows(front, falseCalls), tail);
    }
  }

  /** The default mode collects exactly the normal-mode rows less those with status "aF". */
  lemma {:induction false} CollectedDefaultRefinesNormal(names: seq<string>, contents: map<string, Frame>)
    requires Loadable(contents) && AllPresent(names, contents)
    ensures CanonicalRows(CollectedRows(names, contents, true))
    ensures CollectedRows(names, contents, false) == KeptRows(CollectedRows(names, contents, true), FalseCalls(false))
  {
    if names != [] {
      var n := |names| - 1;
      var front, last := names[..n], names[n];
      assert AllPresent(front, contents) by {
        forall i | 0 <= i < |front| ensures front[i] in contents { assert front[i] == names[i]; }
      }
      assert names[..n + 1] == names;
      CollectedDefaultRefinesNormal(front, contents);
      CollectedRowsSnoc(names, contents, true, n);
      CollectedRowsSnoc(names, contents, false, n);
      var f := contents[last];
      DefaultModeRefinesNormal(NormalizedRows(f, SampleOf(last)));
      KeptRowsConcat(CollectedRows(front, contents, true), FileRows(last, f, true), FalseCalls(false));
    } else {
      assert MapSeq(names, RowsOf(contents, true)) == [];
      assert MapSeq(names, RowsOf(contents, false)) == [];
    }
  }

  // ---------------------------------------------------------------- whole runs

  /** Listing the same names in another order gives the same matching multiset. */
  lemma MatchingFilesPermutation(l1: seq<string>, l2: seq<string>, extension: string)
    requires multiset(l1) == multiset(l2)
    ensures multiset(MatchingFiles(l1, extension)) == multiset(MatchingFiles(l2, extension))
  {
    var m1, m2 := multiset(MatchingFiles(l1, extension)), multiset(MatchingFiles(l2, extension));
    forall name ensures m1[name] == m2[name] {
    }
  }

  /** The order in which the directory lists its entries does not change the output. */
  lemma MergeOutputIgnoresListingOrder(l1: seq<string>, l2: seq<string>, extension: string,
                                       contents: map<string, Frame>, normal: bool)
    requires Loadable(contents) && multiset(l1) == multiset(l2)
    ensures MergeOutput(l1, extension, contents, normal) == MergeOutput(l2, extension, contents, normal)
  {
    MatchingFilesPermutation(l1, l2, extension);
    SortIgnoresInputOrder(MatchingFiles(l1, extension), MatchingFiles(l2, extension));
  }

  /** The files a run reads are the listed names with the extension. */
  lemma MergedFilesMembers(listing: seq<string>, extension: string)
    ensures forall name :: name in MergedFiles(listing, extension) <==> name in listing && EndsWith(name, extension)
  {
    var files := MergedFiles(listing, extension);
    forall name ensures name in files <==> name in listing && EndsWith(name, extension) {
      assert name in files <==> multiset(files)[name] > 0;
      assert name in listing <==> multiset(listing)[name] > 0;
    }
  }

  /** A run fails exactly when some listed file with the extension cannot be read. */
  lemma MergeFailsIffUnreadable(listing: seq<string>, extension: string, contents: map<string, Frame>)
    ensures MergeFailed(listing, extension, contents) <==>
      exists name :: name in listing && EndsWith(name, extension) && name !in contents
  {
    var files := MergedFiles(listing, extension);
    var k := FirstMissing(files, contents);
    MergedFilesMembers(listing, extension);
    if k < |files| {
      assert files[k] in files;
    } else {
      TakeAll(files);
      assert AllPresent(files, contents);
      forall name | name in listing && EndsWith(name, extension) ensures name in contents {
        var j :| 0 <= j < |files| && files[j] == name;
        assert files[j] in contents;
      }
    }
  }

  /** Every merged row comes from a listed, readable file with the extension. */
  lemma MergedRowSource(listing: seq<string>, extension: string, contents: map<string, Frame>, normal: bool,
                        r: seq<Cell>)
    requires Loadable(contents) && r in MergedRows(listing, extension, contents, normal)
    ensures exists name :: (name in listing && EndsWith(name, extension) && name in contents &&
                            r in FileRows(name, contents[name], normal))
  {
    var files := MergedFiles(listing, extension);
    var k := FirstMissing(files, contents);
    var pre := files[..k];
    MergedFilesMembers(listing, extension);
    CollectedRowsMembers(pre, contents, normal, r);
    var i :| 0 <= i < |pre| && r in FileRows(pre[i], contents[pre[i]], normal);
    PrefixMember(files, k, i);
  }

  /** When every file can be read (the run does not fail), every row a listed file with the extension contributes is
      merged. */
  lemma MergedRowComplete(listing: seq<string>, extension: string, contents: map<string, Frame>, normal: bool,
                          name: string, r: seq<Cell>)
    requires Loadable(contents)
    requires FirstMissing(MergedFiles(listing, extension), contents) == |MergedFiles(listing, extension)|
    requires name in listing && EndsWith(name, extension) && name in contents
    requires r in FileRows(name, contents[name], normal)
    ensures r in MergedRows(listing, extension, contents, normal)
  {
    var files := MergedFiles(listing, extension);
    MergedFilesMembers(listing, extension);
    var j :| 0 <= j < |files| && files[j] == name;
    TakeAll(files);
    CollectedRowsIncludes(files, contents, normal, j, r);
  }

  /** The default mode writes exactly the normal-mode rows less those whose status is "aF"
      (whether a run fails does not depend on the mode: `MergeFailed` has no mode parameter). */
  lemma DefaultRunRefinesNormal(listing: seq<string>, extension: string, contents: map<string, Frame>)
    requires Loadable(contents)
    ensures CanonicalRows(MergedRows(listing, extension, contents, true))
    ensures MergedRows(listing, extension, contents, false) ==
      KeptRows(MergedRows(listing, extension, contents, true), FalseCalls(false))
  {
    var files := MergedFiles(listing, extension);
    CollectedDefaultRefinesNormal(files[..FirstMissing(files, contents)], contents);
  }
}
