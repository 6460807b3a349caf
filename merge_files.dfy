/** Model of `merge_samples` in script/merge_files.py: merge the per-sample variant tables of a
    directory into one table with a fixed column set, tagging every row with its sample and
    dropping rows whose status marks a false call. */
module MergeFiles {
  import opened Strings
  import opened Sorting
  import opened Common

  /** One table cell: text as read (the files are read without NA conversion), or the missing
      value pandas' `reindex` puts in a column the file does not have. */
  datatype Cell = Text(text: string) | Missing

  /** `str(cell)`: a missing value prints as "nan". */
  function Str(c: Cell): string {
    match c
    case Text(t) => t
    case Missing => "nan"
  }

  /** What reading one file as a tab-separated table gives: the header's column names and,
      for each row, one cell per column. */
  datatype Frame = Frame(columns: seq<string>, rows: seq<seq<Cell>>)

  predicate Distinct(names: seq<string>) {
    forall i, j :: 0 <= i < j < |names| ==> names[i] != names[j]
  }

  /** The shape the table reader always delivers: column names are unique (repeated names are
      renamed by the reader) and every row has a cell for every column. */
  predicate WellFormed(f: Frame) {
    Distinct(f.columns) && forall r :: r in f.rows ==> |r| == |f.columns|
  }

  /** Every file that can be read yields a well-formed table. */
  predicate Loadable(contents: map<string, Frame>) {
    forall name :: name in contents ==> WellFormed(contents[name])
  }

  /** The canonical output columns, in output order: the name of column `k`. */
  function ColumnName(k: nat): string {
    if k == 0 then "sample" else
    if k == 1 then "event" else
    if k == 2 then "source" else
    if k == 3 then "type" else
    if k == 4 then "chromosome1" else
    if k == 5 then "bp1" else
    if k == 6 then "chromosome2" else
    if k == 7 then "bp2" else
    if k == 8 then "split_reads" else
    if k == 9 then "disc_reads" else
    if k == 10 then "genotype" else
    if k == 11 then "id" else
    if k == 12 then "length(Kb)" else
    if k == 13 then "position" else
    if k == 14 then "configuration" else
    if k == 15 then "allele_frequency" else
    if k == 16 then "log2(cnv)" else
    if k == 17 then "microhomology" else
    if k == 18 then "inserted_seq" else
    if k == 19 then "consensus" else
    if k == 20 then "contig_sequence" else
    if k == 21 then "mechanism" else
    if k == 22 then "bp1_locus" else
    if k == 23 then "bp2_locus" else
    if k == 24 then "affected_genes" else
    if k == 25 then "status" else
    if k == 26 then "notes" else
    "snp_freq"
  }

  /** The canonical header, as a list. */
  function HeaderList(): seq<string> {
    seq(Width, k requires 0 <= k < Width => ColumnName(k))
  }

  const Header: seq<string> := HeaderList()

  const Width := 28
  const SampleIndex := 0
  const InsertedSeqIndex := 18
  const ContigSequenceIndex := 20
  const StatusIndex := 25

  /** The positions above name the columns they are used for, and the header has no repeats. */
  lemma HeaderLayout()
    ensures |Header| == Width && Distinct(Header)
    ensures Header[SampleIndex] == "sample" && Header[InsertedSeqIndex] == "inserted_seq"
    ensures Header[ContigSequenceIndex] == "contig_sequence" && Header[StatusIndex] == "status"
  {
  }

  /** The first line written: the header, tab-separated. */
  function HeaderLine(): string {
    Join(Header, '\t') + "\n"
  }

  // ---------------------------------------------------------------- input discovery

  /** The shell-pattern filter with a wildcard followed by the extension, for an extension
      without glob metacharacters: the names that end with the extension, each as often as it
      is listed. */
  function MatchingFiles(listing: seq<string>, extension: string): (files: seq<string>)
    ensures forall name :: multiset(files)[name] == if EndsWith(name, extension) then multiset(listing)[name] else 0
  {
    if listing == [] then []
    else
      var rest := MatchingFiles(listing[1..], extension);
      assert listing == [listing[0]] + listing[1..];
      if EndsWith(listing[0], extension) then [listing[0]] + rest else rest
  }

  predicate IsPathSeparator(c: char) {
    c == '/' || c == '\\'
  }

  /** The text after the last path separator (all of `s` when it has none). */
  function AfterLastSeparator(s: string): (tail: string)
    ensures |tail| <= |s| && tail == s[|s| - |tail|..]
    ensures forall c :: c in tail ==> !IsPathSeparator(c)
    ensures |tail| == |s| || IsPathSeparator(s[|s| - |tail| - 1])
  {
    if s == [] || IsPathSeparator(s[|s| - 1]) then []
    else AfterLastSeparator(s[..|s| - 1]) + [s[|s| - 1]]
  }

  /** The Windows-style base name of a path: drop a drive prefix such as "C:", then everything
      up to the last '/' or '\'. */
  function Basename(path: string): (name: string)
    ensures |name| <= |path| && name == path[|path| - |name|..]
    ensures forall c :: c in name ==> !IsPathSeparator(c)
    ensures if |path| >= 2 && path[1] == ':' then
              |name| <= |path| - 2 && (|name| == |path| - 2 || IsPathSeparator(path[|path| - |name| - 1]))
            else
              |name| == |path| || IsPathSeparator(path[|path| - |name| - 1])
  {
    AfterLastSeparator(if |path| >= 2 && path[1] == ':' then path[2..] else path)
  }

  /** The sample a file belongs to: the part of its base name before the first underscore, or
      the whole base name when it has none. */
  function SampleOf(filename: string): (sample: string)
    ensures '_' !in sample
    ensures var b := Basename(filename);
      |sample| <= |b| && sample == b[..|sample|] && (|sample| == |b| || b[|sample|] == '_')
  {
    SplitFirst(Basename(filename), '_');
    Split(Basename(filename), '_')[0]
  }

  // ---------------------------------------------------------------- one row, as a value

  /** The cell of `row` under the column `name`, or Missing when there is no such column. */
  function Lookup(columns: seq<string>, row: seq<Cell>, name: string): (c: Cell)
    requires |row| == |columns|
    ensures name !in columns ==> c == Missing
  {
    if |columns| == 0 then Missing
    else if columns[0] == name then row[0]
    else Lookup(columns[1..], row[1..], name)
  }

  /** With unique column names, the cell under `columns[j]` is `row[j]`. */
  lemma {:induction false} LookupAt(columns: seq<string>, row: seq<Cell>, j: int)
    requires |row| == |columns| && Distinct(columns) && 0 <= j < |columns|
    ensures Lookup(columns, row, columns[j]) == row[j]
  {
    if j > 0 {
      assert columns[0] != columns[j];
      assert columns[1..][j - 1] == columns[j];
      LookupAt(columns[1..], row[1..], j - 1);
    }
  }

  /** The value the canonical column `name` takes for one row of a file with these columns:
      the file's sample; the "-" placeholder for the two sequence columns when the file has no
      `inserted_seq` column; otherwise the file's own cell, or Missing. */
  function CanonicalCell(columns: seq<string>, row: seq<Cell>, sample: string, name: string): (c: Cell)
    requires |row| == |columns|
    ensures name == "sample" ==> c == Text(sample)
    ensures name != "sample" && "inserted_seq" !in columns && (name == "inserted_seq" || name == "contig_sequence") ==>
      c == Text("-")
    ensures name != "sample" && name !in columns && c != Missing ==>
      "inserted_seq" !in columns && (name == "inserted_seq" || name == "contig_sequence") && c == Text("-")
  {
    if name == "sample" then Text(sample)
    else if "inserted_seq" !in columns && (name == "inserted_seq" || name == "contig_sequence") then Text("-")
    else Lookup(columns, row, name)
  }

  /** One input row after the column assignments and the reindex to the canonical header. */
  function NormalizeRow(columns: seq<string>, row: seq<Cell>, sample: string): (r: seq<Cell>)
    requires |row| == |columns|
    ensures |r| == |Header|
  {
    seq(|Header|, k requires 0 <= k < |Header| => CanonicalCell(columns, row, sample, Header[k]))
  }

  /** What every normalised row looks like: exactly the canonical columns; the sample column
      holds the file's sample whatever the file said; without an `inserted_seq` column both
      sequence columns hold "-"; every other canonical column carries the file's cell under that
      name, or Missing when the file lacks it. */
  lemma NormalizeRowShape(columns: seq<string>, row: seq<Cell>, sample: string)
    requires |row| == |columns| && Distinct(columns)
    ensures var r := NormalizeRow(columns, row, sample);
      && |r| == |Header|
      && r[SampleIndex] == Text(sample)
      && ("inserted_seq" !in columns ==> r[InsertedSeqIndex] == Text("-") && r[ContigSequenceIndex] == Text("-"))
      && (forall k, j ::
            (0 < k < |Header| && 0 <= j < |columns| && Header[k] == columns[j] &&
             ("inserted_seq" in columns || (k != InsertedSeqIndex && k != ContigSequenceIndex)))
            ==> r[k] == row[j])
      && (forall k ::
            (0 < k < |Header| && Header[k] !in columns &&
             ("inserted_seq" in columns || (k != InsertedSeqIndex && k != ContigSequenceIndex)))
            ==> r[k] == Missing)
  {
    HeaderLayout();
    forall k, j | 0 < k < |Header| && 0 <= j < |columns| && Header[k] == columns[j]
      ensures Lookup(columns, row, Header[k]) == row[j]
    {
      LookupAt(columns, row, j);
    }
  }

  /** The order of the input columns does not matter: two rows that give every column the same
      value normalise to the same canonical row. */
  lemma NormalizeRowIgnoresColumnOrder(c1: seq<string>, r1: seq<Cell>, c2: seq<string>, r2: seq<Cell>, sample: string)
    requires |r1| == |c1| && |r2| == |c2| && Distinct(c1) && Distinct(c2)
    requires forall name :: name in c1 <==> name in c2
    requires forall j, k :: 0 <= j < |c1| && 0 <= k < |c2| && c1[j] == c2[k] ==> r1[j] == r2[k]
    ensures NormalizeRow(c1, r1, sample) == NormalizeRow(c2, r2, sample)
  {
    forall k | 0 <= k < |Header|
      ensures CanonicalCell(c1, r1, sample, Header[k]) == CanonicalCell(c2, r2, sample, Header[k])
    {
      var name := Header[k];
      if name in c1 {
        var j :| 0 <= j < |c1| && c1[j] == name;
        var m :| 0 <= m < |c2| && c2[m] == name;
        LookupAt(c1, r1, j);
        LookupAt(c2, r2, m);
      }
    }
  }

  /** Columns outside the canonical header are dropped: adding one to the input changes nothing. */
  lemma NormalizeRowDropsExtraColumn(columns: seq<string>, row: seq<Cell>, name: string, value: Cell, sample: string)
    requires |row| == |columns| && name !in Header
    ensures NormalizeRow(columns + [name], row + [value], sample) == NormalizeRow(columns, row, sample)
  {
    HeaderLayout();
    assert "inserted_seq" in Header;
    assert ("inserted_seq" in columns + [name]) == ("inserted_seq" in columns);
    forall k | 0 <= k < |Header|
      ensures Lookup(columns + [name], row + [value], Header[k]) == Lookup(columns, row, Header[k])
    {
      LookupSkipsLast(columns, row, name, value, Header[k]);
    }
  }

  lemma {:induction false} LookupSkipsLast(columns: seq<string>, row: seq<Cell>, name: string, value: Cell, wanted: string)
    requires |row| == |columns| && wanted != name
    ensures Lookup(columns + [name], row + [value], wanted) == Lookup(columns, row, wanted)
  {
    if |columns| > 0 && columns[0] != wanted {
      assert (columns + [name])[1..] == columns[1..] + [name];
      assert (row + [value])[1..] == row[1..] + [value];
      LookupSkipsLast(columns[1..], row[1..], name, value, wanted);
    }
  }

  // ---------------------------------------------------------------- status filter

  /** `false_calls`: the status values whose rows are dropped; the normal-tissue mode keeps "aF". */
  function FalseCalls(normal: bool): (calls: seq<string>)
    ensures "F" in calls && ("aF" in calls <==> !normal)
  {
    if normal then ["F"] else ["F", "aF"]
  }

  /** A row is kept when its status is none of the dropped values; a missing status equals none
      of them. */
  predicate Keep(status: Cell, falseCalls: seq<string>) {
    match status
    case Missing => true
    case Text(t) => t !in falseCalls
  }

  /** The two modes: the default drops exactly "F" and "aF", the normal-tissue mode exactly "F". */
  lemma KeepModes(status: Cell)
    ensures Keep(status, FalseCalls(false)) <==> status != Text("F") && status != Text("aF")
    ensures Keep(status, FalseCalls(true)) <==> status != Text("F")
  {
  }

  /** Rows of the canonical width: 28 cells. */
  predicate CanonicalRows(rows: seq<seq<Cell>>) {
    forall i :: 0 <= i < |rows| ==> |rows[i]| == Width
  }

  /** The rows the `iterrows` loop writes, in their order. */
  function KeptRows(rows: seq<seq<Cell>>, falseCalls: seq<string>): (kept: seq<seq<Cell>>)
    requires CanonicalRows(rows)
    ensures CanonicalRows(kept)
  {
    if rows == [] then []
    else
      var last := rows[|rows| - 1];
      KeptRows(rows[..|rows| - 1], falseCalls) + if Keep(last[StatusIndex], falseCalls) then [last] else []
  }

  /** The kept rows are exactly the rows whose status is kept, in their original order. */
  lemma {:induction false} KeptRowsSpec(rows: seq<seq<Cell>>, falseCalls: seq<string>)
    requires CanonicalRows(rows)
    ensures IsSubsequence(KeptRows(rows, falseCalls), rows)
    ensures forall r :: r in KeptRows(rows, falseCalls) <==> r in rows && Keep(r[StatusIndex], falseCalls)
  {
    if rows != [] {
      var front, last := rows[..|rows| - 1], rows[|rows| - 1];
      assert rows == front + [last];
      KeptRowsSpec(front, falseCalls);
      var kf := KeptRows(front, falseCalls);
      if Keep(last[StatusIndex], falseCalls) {
        var k := kf + [last];
        assert k[..|k| - 1] == kf;
      } else {
        assert KeptRows(rows, falseCalls) == kf;
      }
    }
  }

  /** The default mode writes exactly the normal-mode rows less those with status "aF". */
  lemma {:induction false} DefaultModeRefinesNormal(rows: seq<seq<Cell>>)
    requires CanonicalRows(rows)
    ensures KeptRows(rows, FalseCalls(false)) == KeptRows(KeptRows(rows, FalseCalls(true)), FalseCalls(false))
  {
    if rows != [] {
      var front, last := rows[..|rows| - 1], rows[|rows| - 1];
      DefaultModeRefinesNormal(front);
      var kn := KeptRows(front, FalseCalls(true));
      assert rows == front + [last];
      if Keep(last[StatusIndex], FalseCalls(true)) {
        var k := kn + [last];
        assert KeptRows(rows, FalseCalls(true)) == k;
        assert k[..|k| - 1] == kn && k[|k| - 1] == last;
      } else {
        assert KeptRows(rows, FalseCalls(true)) == kn;
        assert !Keep(last[StatusIndex], FalseCalls(false));
      }
    }
  }

  // ---------------------------------------------------------------- one file, one run

  /** Every row of a file, normalised. */
  function NormalizedRows(f: Frame, sample: string): (rows: seq<seq<Cell>>)
    requires WellFormed(f)
    ensures |rows| == |f.rows| && CanonicalRows(rows)
  {
    seq(|f.rows|, i requires 0 <= i < |f.rows| => NormalizeRow(f.columns, f.rows[i], sample))
  }

  /** The rows one file contributes to the output. */
  function FileRows(name: string, f: Frame, normal: bool): seq<seq<Cell>>
    requires WellFormed(f)
  {
    KeptRows(NormalizedRows(f, SampleOf(name)), FalseCalls(normal))
  }

  /** A canonical row carries the file's sample, and the placeholder backfill when the file has
      no `inserted_seq` column. */
  predicate Tagged(r: seq<Cell>, sample: string, columns: seq<string>)
    requires |r| == Width
  {
    && r[SampleIndex] == Text(sample)
    && ("inserted_seq" !in columns ==> r[InsertedSeqIndex] == Text("-") && r[ContigSequenceIndex] == Text("-"))
  }

  /** Every normalised row of a file is tagged. */
  lemma NormalizedRowsTagged(f: Frame, sample: string)
    requires WellFormed(f)
    ensures forall r :: r in NormalizedRows(f, sample) ==> Tagged(r, sample, f.columns)
  {
    HeaderLayout();
  }

  /** What a file contributes: its own rows, normalised, in order, those with a false-call status
      left out. */
  lemma FileRowsSpec(name: string, f: Frame, normal: bool)
    requires WellFormed(f)
    ensures var kept := FileRows(name, f, normal);
      && CanonicalRows(kept)
      && IsSubsequence(kept, NormalizedRows(f, SampleOf(name)))
      && forall r :: r in kept <==> r in NormalizedRows(f, SampleOf(name)) && Keep(r[StatusIndex], FalseCalls(normal))
  {
    KeptRowsSpec(NormalizedRows(f, SampleOf(name)), FalseCalls(normal));
  }

  /** Every row a file contributes is tagged with the file's sample, and carries the placeholder
      backfill when the file has no `inserted_seq` column. */
  lemma FileRowsTagged(name: string, f: Frame, normal: bool)
    requires WellFormed(f)
    ensures forall r :: r in FileRows(name, f, normal) ==> |r| == Width && Tagged(r, SampleOf(name), f.columns)
  {
    KeptRowsSpec(NormalizedRows(f, SampleOf(name)), FalseCalls(normal));
    NormalizedRowsTagged(f, SampleOf(name));
  }

  /** All names are readable. */
  predicate AllPresent(names: seq<string>, contents: map<string, Frame>) {
    forall i :: 0 <= i < |names| ==> names[i] in contents
  }

  /** The rows the file `name` contributes (none when it cannot be read). */
  function RowsOf(contents: map<string, Frame>, normal: bool): (rowsOf: string -> seq<seq<Cell>>)
    requires Loadable(contents)
  {
    name => if name in contents then FileRows(name, contents[name], normal) else []
  }

  /** The rows of the files `names`, file after file. */
  function CollectedRows(names: seq<string>, contents: map<string, Frame>, normal: bool): seq<seq<Cell>>
    requires Loadable(contents) && AllPresent(names, contents)
  {
    Flatten(MapSeq(names, RowsOf(contents, normal)))
  }

  /** The position of the first name that cannot be read, or the number of names. */
  function FirstMissing(names: seq<string>, contents: map<string, Frame>): (k: nat)
    ensures k <= |names| && AllPresent(names[..k], contents)
    ensures k < |names| ==> names[k] !in contents
  {
    if names == [] || names[0] !in contents then 0
    else
      var k := FirstMissing(names[1..], contents);
      assert names[..k + 1] == [names[0]] + names[1..][..k];
      k + 1
  }

  /** The first unreadable name is the one at `k` when all before it are readable. */
  lemma FirstMissingAt(names: seq<string>, contents: map<string, Frame>, k: nat)
    requires k <= |names| && AllPresent(names[..k], contents)
    requires k < |names| ==> names[k] !in contents
    ensures FirstMissing(names, contents) == k
  {
  }

  lemma AllPresentSnoc(names: seq<string>, contents: map<string, Frame>, i: nat)
    requires i < |names| && AllPresent(names[..i], contents) && names[i] in contents
    ensures AllPresent(names[..i + 1], contents)
  {
    var pre := names[..i + 1];
    forall j | 0 <= j < |pre| ensures pre[j] in contents {
      if j < i { assert names[..i][j] == names[j]; }
    }
  }

  /** Reading one more file appends its rows. */
  lemma CollectedRowsSnoc(names: seq<string>, contents: map<string, Frame>, normal: bool, i: nat)
    requires Loadable(contents) && i < |names| && AllPresent(names[..i], contents)
    requires AllPresent(names[..i + 1], contents)
    ensures CollectedRows(names[..i + 1], contents, normal) ==
      CollectedRows(names[..i], contents, normal) + FileRows(names[i], contents[names[i]], normal)
  {
    var pieces := MapSeq(names[..i], RowsOf(contents, normal));
    var more := RowsOf(contents, normal)(names[i]);
    MapSeqSnoc(names, RowsOf(contents, normal), i);
    FlattenSnoc(pieces, more);
  }

  /** The line written for one row: its cells printed with `str`, tab-separated. */
  function RenderRow(row: seq<Cell>): (line: string)
    ensures |line| >= 1 && line[|line| - 1] == '\n'
  {
    Join(seq(|row|, i requires 0 <= i < |row| => Str(row[i])), '\t') + "\n"
  }

  /** The lines written for a sequence of rows, one per row. */
  function RenderAll(rows: seq<seq<Cell>>): (lines: seq<string>)
    ensures |lines| == |rows|
  {
    if rows == [] then [] else RenderAll(rows[..|rows| - 1]) + [RenderRow(rows[|rows| - 1])]
  }

  /** Line `i` is the line of row `i`. */
  lemma {:induction false} RenderAllLines(rows: seq<seq<Cell>>)
    ensures forall i :: 0 <= i < |rows| ==> RenderAll(rows)[i] == RenderRow(rows[i])
  {
    if rows != [] {
      var front := rows[..|rows| - 1];
      RenderAllLines(front);
      forall i | 0 <= i < |front| ensures RenderAll(rows)[i] == RenderRow(rows[i]) {
        assert front[i] == rows[i];
      }
    }
  }

  /** A column of `n` equal cells, as a scalar assignment to a column makes. */
  function Filled(n: nat, value: string): (cells: seq<Cell>)
    ensures |cells| == n && forall i :: 0 <= i < n ==> cells[i] == Text(value)
  {
    seq(n, _ => Text(value))
  }

  /** The columns of a file's frame (`n` rows) after the assignments of one iteration: the
      placeholder pair when there is no `inserted_seq` column, then the sample column. */
  function AssignedColumns(loaded: map<string, seq<Cell>>, n: nat, sample: string): map<string, seq<Cell>>
  {
    var backfilled :=
      if "inserted_seq" in loaded then loaded
      else loaded["inserted_seq" := Filled(n, "-")]["contig_sequence" := Filled(n, "-")];
    backfilled["sample" := Filled(n, sample)]
  }

  /** The cells of the given columns for each of `n` rows, Missing for an absent column. */
  function Reindexed(cells: map<string, seq<Cell>>, n: nat, header: seq<string>): seq<seq<Cell>>
    requires forall name :: name in cells ==> |cells[name]| == n
  {
    seq(n, i requires 0 <= i < n =>
      seq(|header|, k requires 0 <= k < |header| => if header[k] in cells then cells[header[k]][i] else Missing))
  }

  /** After the assignments, the cell of row `r` under a column `name` is the canonical one. */
  lemma UpdatedCell(f: Frame, sample: string, loaded: map<string, seq<Cell>>, r: nat, name: string)
    requires WellFormed(f) && r < |f.rows|
    requires forall c :: c in loaded <==> c in f.columns
    requires forall c :: c in loaded ==> |loaded[c]| == |f.rows|
    requires forall j, i :: 0 <= j < |f.columns| && 0 <= i < |f.rows| ==> loaded[f.columns[j]][i] == f.rows[i][j]
    ensures var updated := AssignedColumns(loaded, |f.rows|, sample);
      (if name in updated then updated[name][r] else Missing) == CanonicalCell(f.columns, f.rows[r], sample, name)
  {
    var n := |f.rows|;
    var backfilled :=
      if "inserted_seq" in loaded then loaded
      else loaded["inserted_seq" := Filled(n, "-")]["contig_sequence" := Filled(n, "-")];
    var updated := backfilled["sample" := Filled(n, sample)];
    assert updated == AssignedColumns(loaded, n, sample);
    if name == "sample" {
      assert updated[name] == Filled(n, sample);
    } else if "inserted_seq" !in f.columns && (name == "inserted_seq" || name == "contig_sequence") {
      assert updated[name] == Filled(n, "-");
    } else {
      assert name in updated <==> name in loaded;
      if name in f.columns {
        var c :| 0 <= c < |f.columns| && f.columns[c] == name;
        assert updated[name] == loaded[name];
        LookupAt(f.columns, f.rows[r], c);
      }
    }
  }

  /** The three column assignments followed by the reindex turn a file's frame into its
      normalised rows. */
  lemma AssignedColumnsNormalize(f: Frame, sample: string, loaded: map<string, seq<Cell>>)
    requires WellFormed(f)
    requires forall name :: name in loaded <==> name in f.columns
    requires forall name :: name in loaded ==> |loaded[name]| == |f.rows|
    requires forall j, i :: 0 <= j < |f.columns| && 0 <= i < |f.rows| ==> loaded[f.columns[j]][i] == f.rows[i][j]
    ensures var updated := AssignedColumns(loaded, |f.rows|, sample);
      (forall name :: name in updated ==> |updated[name]| == |f.rows|) &&
      Reindexed(updated, |f.rows|, Header) == NormalizedRows(f, sample)
  {
    var n := |f.rows|;
    var updated := AssignedColumns(loaded, n, sample);
    var rows := Reindexed(updated, n, Header);
    var want := NormalizedRows(f, sample);
    forall r | 0 <= r < n
      ensures rows[r] == want[r]
    {
      forall k | 0 <= k < |Header|
        ensures rows[r][k] == want[r][k]
      {
        UpdatedCell(f, sample, loaded, r, Header[k]);
      }
    }
  }

  /** The matching names in the order the file loop reads them. */
  function MergedFiles(listing: seq<string>, extension: string): (files: seq<string>)
    ensures Sorted(files) && multiset(files) == multiset(MatchingFiles(listing, extension))
  {
    Sort(MatchingFiles(listing, extension))
  }

  /** The rows merged from the sorted matching names before the first one that cannot be read. */
  function MergedRows(listing: seq<string>, extension: string, contents: map<string, Frame>, normal: bool): seq<seq<Cell>>
    requires Loadable(contents)
  {
    var files := MergedFiles(listing, extension);
    CollectedRows(files[..FirstMissing(files, contents)], contents, normal)
  }

  /** The lines of the output file, and whether a read failure cut the run short (the lines
      written before it stay in the file). */
  datatype MergeResult = MergeResult(lines: seq<string>, failed: bool)

  /** Whether some sorted matching name cannot be read. */
  predicate MergeFailed(listing: seq<string>, extension: string, contents: map<string, Frame>) {
    var files := MergedFiles(listing, extension);
    FirstMissing(files, contents) < |files|
  }

  function MergeOutput(listing: seq<string>, extension: string, contents: map<string, Frame>, normal: bool): MergeResult
    requires Loadable(contents)
  {
    MergeResult([HeaderLine()] + RenderAll(MergedRows(listing, extension, contents, normal)),
                MergeFailed(listing, extension, contents))
  }

  lemma {:induction false} RenderAllConcat(a: seq<seq<Cell>>, b: seq<seq<Cell>>)
    ensures RenderAll(a + b) == RenderAll(a) + RenderAll(b)
    decreases |b|
  {
    if b == [] {
      assert a + b == a;
    } else {
      var front := b[..|b| - 1];
      RenderAllConcat(a, front);
      assert (a + b)[..|a + b| - 1] == a + front;
      assert (a + b)[|a + b| - 1] == b[|b| - 1];
    }
  }

  /** Extending the rows by one row extends their kept lines by that row's line exactly when it is kept. */
  lemma WriteKeptStep(rows: seq<seq<Cell>>, j: nat, falseCalls: seq<string>)
    requires CanonicalRows(rows) && j < |rows|
    ensures RenderAll(KeptRows(rows[..j + 1], falseCalls))
      == RenderAll(KeptRows(rows[..j], falseCalls)) + if Keep(rows[j][StatusIndex], falseCalls) then [RenderRow(rows[j])] else []
  {
    var kept := KeptRows(rows[..j], falseCalls);
    assert rows[..j + 1][..j] == rows[..j];
    if Keep(rows[j][StatusIndex], falseCalls) {
      var more := kept + [rows[j]];
      assert KeptRows(rows[..j + 1], falseCalls) == more;
      assert more[..|more| - 1] == kept;
    } else {
      assert KeptRows(rows[..j + 1], falseCalls) == kept;
    }
  }

  /** The `iterrows` loop over one reindexed frame: append the line of every row whose status
      is not a false call. */
  method WriteKeptRows(lines: seq<string>, rows: seq<seq<Cell>>, falseCalls: seq<string>) returns (out: seq<string>)
    requires CanonicalRows(rows)
    ensures out == lines + RenderAll(KeptRows(rows, falseCalls))
  {
    out := lines;
    var j := 0;
    while j < |rows|
      invariant 0 <= j <= |rows|
      invariant out == lines + RenderAll(KeptRows(rows[..j], falseCalls))
    {
      WriteKeptStep(rows, j, falseCalls);
      if Keep(rows[j][StatusIndex], falseCalls) {
        out := out + [RenderRow(rows[j])];
      }
      j := j + 1;
    }
    TakeAll(rows);
  }

  /** One iteration of the file loop: read the file's frame, backfill the sequence columns when
      it has no `inserted_seq` column, tag every row with the sample, reindex to the canonical
      header and write the rows whose status is not a false call. */
  method WriteFile(lines: seq<string>, name: string, frame: Frame, normal: bool) returns (out: seq<string>)
    requires WellFormed(frame)
    ensures out == lines + RenderAll(FileRows(name, frame, normal))
  {
    var sample := SampleOf(name);
    var df := new DataFrame.FromFrame(frame);
    ghost var loaded := df.data;
    if !df.Contains("inserted_seq") {
      df.SetColumn("inserted_seq", "-");
      df.SetColumn("contig_sequence", "-");
    }
    df.SetColumn("sample", sample);
    assert df.data == AssignedColumns(loaded, |frame.rows|, sample);
    var rows := df.Reindex(Header);
    AssignedColumnsNormalize(frame, sample, loaded);
    var falseCalls := FalseCalls(normal);
    out := WriteKeptRows(lines, rows, falseCalls);
  }

  /** The lines written for the first `i + 1` names extend those for the first `i` by the
      lines of file `i`. */
  lemma CollectedLinesSnoc(lines0: seq<string>, names: seq<string>, contents: map<string, Frame>, normal: bool, i: nat)
    requires Loadable(contents) && i < |names| && AllPresent(names[..i], contents) && names[i] in contents
    ensures AllPresent(names[..i + 1], contents)
    ensures lines0 + RenderAll(CollectedRows(names[..i + 1], contents, normal)) ==
      (lines0 + RenderAll(CollectedRows(names[..i], contents, normal))) + RenderAll(FileRows(names[i], contents[names[i]], normal))
  {
    AllPresentSnoc(names, contents, i);
    CollectedRowsSnoc(names, contents, normal, i);
    var done := CollectedRows(names[..i], contents, normal);
    var more := FileRows(names[i], contents[names[i]], normal);
    RenderAllConcat(done, more);
    ConcatAssociative(lines0, RenderAll(done), RenderAll(more));
  }

  /** The file loop of `merge_samples` over the sorted names: append the lines of each file in
      turn, stopping at the first file that cannot be read. */
  method WriteFiles(lines0: seq<string>, names: seq<string>, contents: map<string, Frame>, normal: bool)
    returns (lines: seq<string>, failed: bool)
    requires Loadable(contents)
    ensures var k := FirstMissing(names, contents);
      lines == lines0 + RenderAll(CollectedRows(names[..k], contents, normal)) && failed == (k < |names|)
  {
    lines := lines0;
    var i := 0;
    while i < |names|
      invariant 0 <= i <= |names|
      invariant AllPresent(names[..i], contents)
      invariant lines == lines0 + RenderAll(CollectedRows(names[..i], contents, normal))
    {
      var f := names[i];
      if f !in contents {
        FirstMissingAt(names, contents, i);
        failed := true;
        return;
      }
      CollectedLinesSnoc(lines0, names, contents, normal, i);
      lines := WriteFile(lines, f, contents[f], normal);
      i := i + 1;
    }
    TakeAll(names);
    FirstMissingAt(names, contents, |names|);
    failed := false;
  }

  /** `merge_samples`: write the header, then for each matching file in sorted order tag and
      normalise its rows and write those whose status is not a false call. A file that cannot
      be read stops the run. */
  method MergeSamples(listing: seq<string>, extension: string, contents: map<string, Frame>, normal: bool)
    returns (lines: seq<string>, failed: bool)
    requires Loadable(contents)
    ensures MergeResult(lines, failed) == MergeOutput(listing, extension, contents, normal)
  {
    var files := MatchingFiles(listing, extension);
    var sorted := Sort(files);
    lines, failed := WriteFiles([HeaderLine()], sorted, contents, normal);
  }

  /** The cells of one column of a frame, top to bottom. */
  function ColumnCells(f: Frame, name: string): (cells: seq<Cell>)
    requires WellFormed(f)
    ensures |cells| == |f.rows|
  {
    seq(|f.rows|, i requires 0 <= i < |f.rows| => Lookup(f.columns, f.rows[i], name))
  }

  /** The pandas DataFrame of one file, column by column: the column names in order, the cells
      of each column, and the number of rows. */
  class DataFrame {
    var columns: seq<string>
    var data: map<string, seq<Cell>>
    var height: nat

    ghost predicate Valid()
      reads this
    {
      && Distinct(columns)
      && (forall name :: name in data <==> name in columns)
      && (forall name :: name in data ==> |data[name]| == height)
    }

    /** The frame the table reader returns for one file. */
    constructor FromFrame(f: Frame)
      requires WellFormed(f)
      ensures Valid() && columns == f.columns && height == |f.rows|
      ensures forall j, i :: 0 <= j < |f.columns| && 0 <= i < |f.rows| ==> data[f.columns[j]][i] == f.rows[i][j]
    {
      columns := f.columns;
      height := |f.rows|;
      var cells := map name | name in f.columns :: ColumnCells(f, name);
      forall j, i | 0 <= j < |f.columns| && 0 <= i < |f.rows|
        ensures cells[f.columns[j]][i] == f.rows[i][j]
      {
        LookupAt(f.columns, f.rows[i], j);
      }
      data := cells;
    }

    /** The frame has a column called `name`. */
    predicate Contains(name: string)
      reads this
      ensures Valid() ==> (Contains(name) <==> name in columns)
    {
      name in data
    }

    /** Assigning a scalar to a column: every cell of column `name` becomes `value`; a new column
        goes last. */
    method SetColumn(name: string, value: string)
      requires Valid()
      modifies this
      ensures Valid() && height == old(height)
      ensures columns == if name in old(columns) then old(columns) else old(columns) + [name]
      ensures data == old(data)[name := seq(height, _ => Text(value))]
    {
      if name !in columns {
        columns := columns + [name];
      }
      data := data[name := seq(height, _ => Text(value))];
    }

    /** Reindexing to `header`: for each row, its cells under the given columns in the given
        order, Missing where the frame has no such column. */
    function Reindex(header: seq<string>): (rows: seq<seq<Cell>>)
      reads this
      requires Valid()
      ensures |rows| == height && forall i :: 0 <= i < height ==> |rows[i]| == |header|
      ensures forall i, k :: 0 <= i < height && 0 <= k < |header| ==>
        rows[i][k] == if header[k] in data then data[header[k]][i] else Missing
    {
      Reindexed(data, height, header)
    }
  }
}
