/** Model of script/update_bps.py: build a blocklist of breakpoint keys from the false-call
    listing, then copy the breakpoint lines whose coordinates are not on it. Files are given as
    their lines, each with its line terminator as read. */
module UpdateBps {
  import opened Common
  import opened Strings

  // ---------------------------------------------------------------- keys of the false-call listing

  /** A key formatted from three parts with underscores between them: the same text as joining
      the three parts with "_". */
  function Key(a: string, b: string, c: string): (key: string)
    ensures key == Join([a, b, c], '_')
  {
    assert [a, b, c][1..] == [b, c] && [b, c][1..] == [c];
    assert Join([b, c], '_') == b + "_" + c;
    a + "_" + b + "_" + c
  }

  /** The two keys one listing line adds. */
  datatype Keys = Keys(first: string, second: string)

  /** The keys of one listing line: split the line, trailing whitespace removed, at each "_";
      the keys are parts 0, 1, 2 and parts 0, 3, 4, each joined with "_". None when there are
      fewer than five parts, where the script stops with an IndexError. */
  function LineKeys(line: string): Option<Keys> {
    var parts := Split(RStrip(line), '_');
    if |parts| < 5 then None else Some(Keys(Key(parts[0], parts[1], parts[2]), Key(parts[0], parts[3], parts[4])))
  }

  /** A line whose text before the trailing whitespace is `tokens` joined with "_" yields the
      keys of its first five tokens, whatever follows them; with fewer than five tokens it is
      an error. */
  lemma LineKeysOfTokens(tokens: seq<string>, ws: string)
    requires |tokens| >= 1 && forall t :: t in tokens ==> '_' !in t
    requires var text := Join(tokens, '_'); text == [] || !IsSpace(text[|text| - 1])
    requires forall i :: 0 <= i < |ws| ==> IsSpace(ws[i])
    ensures |tokens| < 5 ==> LineKeys(Join(tokens, '_') + ws) == None
    ensures |tokens| >= 5 ==>
      LineKeys(Join(tokens, '_') + ws) == Some(Keys(Key(tokens[0], tokens[1], tokens[2]), Key(tokens[0], tokens[3], tokens[4])))
  {
    var text := Join(tokens, '_');
    RStripTrailing(text, ws);
    SplitJoin(tokens, '_');
  }

  /** `key` is one of the keys of listing line `line`. */
  predicate Listed(key: string, line: string) {
    LineKeys(line).Some? && (key == LineKeys(line).value.first || key == LineKeys(line).value.second)
  }

  /** The set the listing loop builds, or None when a line stops it. */
  function Blocklist(lines: seq<string>): Option<set<string>> {
    if lines == [] then Some({})
    else
      var prev := Blocklist(lines[..|lines| - 1]);
      var keys := LineKeys(lines[|lines| - 1]);
      if prev.None? || keys.None? then None
      else Some(prev.value + {keys.value.first} + {keys.value.second})
  }

  /** The listing loop completes exactly when every line has its five parts. */
  lemma {:induction false} BlocklistCompletes(lines: seq<string>)
    ensures Blocklist(lines).Some? <==> forall line :: line in lines ==> LineKeys(line).Some?
  {
    if lines != [] {
      var front, last := lines[..|lines| - 1], lines[|lines| - 1];
      assert lines == front + [last];
      BlocklistCompletes(front);
    }
  }

  /** When the listing loop completes, a key is in the set exactly when some line lists it. */
  lemma {:induction false} BlocklistMembers(lines: seq<string>, key: string)
    requires Blocklist(lines).Some?
    ensures key in Blocklist(lines).value <==> exists line :: line in lines && Listed(key, line)
  {
    if lines != [] {
      var front, last := lines[..|lines| - 1], lines[|lines| - 1];
      assert lines == front + [last];
      BlocklistMembers(front, key);
      if key in Blocklist(front).value {
        var line :| line in front && Listed(key, line);
        assert line in lines;
      } else if Listed(key, last) {
        assert last in lines;
      } else {
        forall line | line in lines ensures !Listed(key, line) {
          if line != last {
            assert line in front;
          }
        }
      }
    }
  }

  /** Only which lines occur matters: their order and repetitions do not change the set. */
  lemma BlocklistIgnoresOrder(l1: seq<string>, l2: seq<string>)
    requires forall line :: line in l1 <==> line in l2
    ensures Blocklist(l1) == Blocklist(l2)
  {
    BlocklistCompletes(l1);
    BlocklistCompletes(l2);
    if Blocklist(l1).Some? {
      assert Blocklist(l2).Some?;
      var s1, s2 := Blocklist(l1).value, Blocklist(l2).value;
      forall key ensures key in s1 <==> key in s2 {
        BlocklistMembers(l1, key);
        BlocklistMembers(l2, key);
      }
      assert s1 == s2;
    } else {
      assert Blocklist(l2).None?;
    }
  }

  /** The listing loop (lines 9-16 of the script): split every line, add both keys to the set.
      `ok` is false when a line has fewer than five parts. */
  method BuildBlocklist(lines: seq<string>) returns (falseCalls: set<string>, ok: bool)
    ensures ok <==> Blocklist(lines).Some?
    ensures ok ==> falseCalls == Blocklist(lines).value
  {
    falseCalls := {};
    var i := 0;
    while i < |lines|
      invariant 0 <= i <= |lines|
      invariant Blocklist(lines[..i]) == Some(falseCalls)
    {
      var parts := Split(RStrip(lines[i]), '_');
      if |parts| < 5 {
        BlocklistCompletes(lines);
        assert LineKeys(lines[i]).None?;
        ok := false;
        return;
      }
      var key1 := Key(parts[0], parts[1], parts[2]);
      var key2 := Key(parts[0], parts[3], parts[4]);
      assert lines[..i + 1][..i] == lines[..i];
      falseCalls := falseCalls + {key1};
      falseCalls := falseCalls + {key2};
      i := i + 1;
    }
    TakeAll(lines);
    ok := true;
  }

  // ---------------------------------------------------------------- the breakpoint filter

  /** The coordinates of a breakpoint line: split the line, trailing whitespace removed, at each
      tab; the coordinates are fields 2, 3 and 4 joined with "_". None when there are fewer than
      five fields, where the script stops with an IndexError. */
  function Coords(line: string): Option<string> {
    var parts := Split(RStrip(line), '\t');
    if |parts| < 5 then None else Some(Join([parts[2], parts[3], parts[4]], '_'))
  }

  /** A line whose text before the trailing whitespace is `fields` joined with tabs has as
      coordinates the key of its fields 2, 3 and 4, whatever follows them; with fewer than five
      fields it is an error. */
  lemma CoordsOfFields(fields: seq<string>, ws: string)
    requires |fields| >= 1 && forall f :: f in fields ==> '\t' !in f
    requires var text := Join(fields, '\t'); text == [] || !IsSpace(text[|text| - 1])
    requires forall i :: 0 <= i < |ws| ==> IsSpace(ws[i])
    ensures |fields| < 5 ==> Coords(Join(fields, '\t') + ws) == None
    ensures |fields| >= 5 ==> Coords(Join(fields, '\t') + ws) == Some(Key(fields[2], fields[3], fields[4]))
  {
    var text := Join(fields, '\t');
    RStripTrailing(text, ws);
    SplitJoin(fields, '\t');
  }

  /** `filter`'s test: coordinates not in the set pass. */
  predicate Passes(coords: string, falseCalls: set<string>) {
    coords !in falseCalls
  }

  /** `filter`: write the line exactly when its coordinates pass; the line is written as read,
      terminator included. */
  method Filter(coords: string, falseCalls: set<string>, out: seq<string>, line: string) returns (written: seq<string>)
    ensures Passes(coords, falseCalls) ==> written == out + [line]
    ensures !Passes(coords, falseCalls) ==> written == out
  {
    written := out;
    if coords !in falseCalls {
      written := written + [line];
    }
  }

  /** The lines written, and whether the loop reached the end of the input. */
  datatype Filtered = Filtered(written: seq<string>, complete: bool)

  /** What the breakpoint loop writes: every line whose coordinates pass, in order, up to the
      first line without five fields, where it stops. */
  function FilterLines(lines: seq<string>, falseCalls: set<string>): Filtered {
    if lines == [] then Filtered([], true)
    else
      var prev := FilterLines(lines[..|lines| - 1], falseCalls);
      var last := lines[|lines| - 1];
      if !prev.complete then prev
      else if Coords(last).None? then Filtered(prev.written, false)
      else if Passes(Coords(last).value, falseCalls) then Filtered(prev.written + [last], true)
      else prev
  }

  /** The written lines are unmodified input lines in their input order, and each has
      coordinates that pass. */
  lemma {:induction false} FilterLinesSubsequence(lines: seq<string>, falseCalls: set<string>)
    ensures IsSubsequence(FilterLines(lines, falseCalls).written, lines)
    ensures forall line :: line in FilterLines(lines, falseCalls).written ==>
      Coords(line).Some? && Passes(Coords(line).value, falseCalls)
  {
    if lines != [] {
      var front, last := lines[..|lines| - 1], lines[|lines| - 1];
      FilterLinesSubsequence(front, falseCalls);
      var prev := FilterLines(front, falseCalls);
      var w := FilterLines(lines, falseCalls).written;
      if w == prev.written + [last] {
        assert w[..|w| - 1] == prev.written;
      } else {
        assert w == prev.written;
        assert lines[..|lines| - 1] == front;
      }
    }
  }

  /** The breakpoint loop completes exactly when every line has five fields. */
  lemma {:induction false} FilterLinesCompletes(lines: seq<string>, falseCalls: set<string>)
    ensures FilterLines(lines, falseCalls).complete <==> forall line :: line in lines ==> Coords(line).Some?
  {
    if lines != [] {
      var front, last := lines[..|lines| - 1], lines[|lines| - 1];
      assert lines == front + [last];
      FilterLinesCompletes(front, falseCalls);
    }
  }

  /** When the breakpoint loop completes, a line is written exactly when its coordinates pass. */
  lemma {:induction false} FilterLinesMembers(lines: seq<string>, falseCalls: set<string>, line: string)
    requires FilterLines(lines, falseCalls).complete && line in lines
    ensures Coords(line).Some?
    ensures line in FilterLines(lines, falseCalls).written <==> Passes(Coords(line).value, falseCalls)
  {
    FilterLinesCompletes(lines, falseCalls);
    var front, last := lines[..|lines| - 1], lines[|lines| - 1];
    assert lines == front + [last];
    FilterLinesCompletes(front, falseCalls);
    var prev := FilterLines(front, falseCalls).written;
    if line != last {
      assert line in front;
      FilterLinesMembers(front, falseCalls, line);
      assert line in FilterLines(lines, falseCalls).written <==> line in prev;
    } else if !Passes(Coords(last).value, falseCalls) {
      FilterLinesSubsequence(front, falseCalls);
      assert FilterLines(lines, falseCalls).written == prev;
    }
  }

  /** In a run that completes, each distinct line is written as many times as it occurs when
      its coordinates pass, and never otherwise. */
  lemma {:induction false} FilterLinesCounts(lines: seq<string>, falseCalls: set<string>, x: string)
    requires FilterLines(lines, falseCalls).complete
    ensures multiset(FilterLines(lines, falseCalls).written)[x] ==
      if Coords(x).Some? && Passes(Coords(x).value, falseCalls) then multiset(lines)[x] else 0
  {
    if lines != [] {
      var front, last := lines[..|lines| - 1], lines[|lines| - 1];
      assert lines == front + [last];
      var prev := FilterLines(front, falseCalls);
      assert prev.complete && Coords(last).Some?;
      FilterLinesCounts(front, falseCalls, x);
      var w := FilterLines(lines, falseCalls).written;
      assert multiset(lines) == multiset(front) + multiset{last};
      if Passes(Coords(last).value, falseCalls) {
        assert w == prev.written + [last];
        assert multiset(w) == multiset(prev.written) + multiset{last};
      } else {
        assert w == prev.written;
      }
    }
  }

  /** Every written line is a line of the input. */
  lemma FilterLinesFromInput(lines: seq<string>, falseCalls: set<string>, line: string)
    requires line in FilterLines(lines, falseCalls).written
    ensures line in lines
  {
    FilterLinesSubsequence(lines, falseCalls);
    SubsequenceMembers(FilterLines(lines, falseCalls).written, lines, line);
  }

  /** Lines that all pass are all written. */
  lemma {:induction false} FilterLinesAllPass(lines: seq<string>, falseCalls: set<string>)
    requires forall line :: line in lines ==> Coords(line).Some? && Passes(Coords(line).value, falseCalls)
    ensures FilterLines(lines, falseCalls) == Filtered(lines, true)
  {
    if lines != [] {
      var front := lines[..|lines| - 1];
      assert lines == front + [lines[|lines| - 1]];
      FilterLinesAllPass(front, falseCalls);
    }
  }

  /** Filtering the written lines again with the same set writes all of them and completes. */
  lemma FilterIdempotent(lines: seq<string>, falseCalls: set<string>)
    ensures var w := FilterLines(lines, falseCalls).written; FilterLines(w, falseCalls) == Filtered(w, true)
  {
    FilterLinesSubsequence(lines, falseCalls);
    FilterLinesAllPass(FilterLines(lines, falseCalls).written, falseCalls);
  }

  /** Once the loop has stopped, further lines change nothing. */
  lemma {:induction false} FilterLinesFrozen(a: seq<string>, b: seq<string>, falseCalls: set<string>)
    requires !FilterLines(a, falseCalls).complete
    ensures FilterLines(a + b, falseCalls) == FilterLines(a, falseCalls)
    decreases |b|
  {
    if b == [] {
      assert a + b == a;
    } else {
      var front := b[..|b| - 1];
      FilterLinesFrozen(a, front, falseCalls);
      assert (a + b)[..|a + b| - 1] == a + front;
    }
  }

  /** On an error the lines written before it stay written: when line `i` is the first line
      without five fields, the output is that of the lines before it, marked incomplete. */
  lemma FilterStopsAtFirstShort(lines: seq<string>, falseCalls: set<string>, i: nat)
    requires i < |lines| && Coords(lines[i]).None?
    requires forall line :: line in lines[..i] ==> Coords(line).Some?
    ensures FilterLines(lines, falseCalls) == Filtered(FilterLines(lines[..i], falseCalls).written, false)
  {
    FilterLinesCompletes(lines[..i], falseCalls);
    var upto := lines[..i + 1];
    assert upto[..|upto| - 1] == lines[..i];
    assert lines == upto + lines[i + 1..];
    FilterLinesFrozen(upto, lines[i + 1..], falseCalls);
  }

  /** `remove_false_positives_from_bps`: read the breakpoint lines one by one, compute each
      line's coordinates and hand it to `filter`. `complete` is false when a line has fewer than
      five fields; the lines written before it stay written. */
  method RemoveFalsePositives(lines: seq<string>, falseCalls: set<string>) returns (written: seq<string>, complete: bool)
    ensures Filtered(written, complete) == FilterLines(lines, falseCalls)
  {
    written := [];
    var i := 0;
    while i < |lines|
      invariant 0 <= i <= |lines|
      invariant FilterLines(lines[..i], falseCalls) == Filtered(written, true)
    {
      var l := lines[i];
      var parts := Split(RStrip(l), '\t');
      assert lines[..i + 1][..i] == lines[..i];
      if |parts| < 5 {
        FilterLinesCompletes(lines[..i], falseCalls);
        FilterStopsAtFirstShort(lines, falseCalls, i);
        complete := false;
        return;
      }
      var coords := Join([parts[2], parts[3], parts[4]], '_');
      written := Filter(coords, falseCalls, written, l);
      i := i + 1;
    }
    TakeAll(lines);
    complete := true;
  }

  // ---------------------------------------------------------------- the whole script

  /** The script's result: None when the listing loop stops (the output file is never
      opened), otherwise what the breakpoint loop writes. */
  function UpdateOutput(fpLines: seq<string>, bpLines: seq<string>): Option<Filtered> {
    var falseCalls := Blocklist(fpLines);
    if falseCalls.None? then None else Some(FilterLines(bpLines, falseCalls.value))
  }

  /** The script: build the blocklist from the false-call listing, then filter the breakpoint
      lines with it. */
  method UpdateBreakpoints(fpLines: seq<string>, bpLines: seq<string>) returns (result: Option<Filtered>)
    ensures result == UpdateOutput(fpLines, bpLines)
  {
    var falseCalls, ok := BuildBlocklist(fpLines);
    if !ok {
      return None;
    }
    var written, complete := RemoveFalsePositives(bpLines, falseCalls);
    result := Some(Filtered(written, complete));
  }

  /** In a run that completes, a breakpoint line is written exactly when no line of the
      false-call listing lists its coordinates. */
  lemma UpdateOutputMembers(fpLines: seq<string>, bpLines: seq<string>, line: string)
    requires UpdateOutput(fpLines, bpLines).Some? && UpdateOutput(fpLines, bpLines).value.complete
    requires line in bpLines
    ensures Coords(line).Some?
    ensures line in UpdateOutput(fpLines, bpLines).value.written <==>
      !exists fpLine :: fpLine in fpLines && Listed(Coords(line).value, fpLine)
    ensures multiset(UpdateOutput(fpLines, bpLines).value.written)[line] ==
      if exists fpLine :: fpLine in fpLines && Listed(Coords(line).value, fpLine) then 0 else multiset(bpLines)[line]
  {
    var falseCalls := Blocklist(fpLines).value;
    FilterLinesMembers(bpLines, falseCalls, line);
    FilterLinesCounts(bpLines, falseCalls, line);
    BlocklistMembers(fpLines, Coords(line).value);
  }

  /** A breakpoint line whose fields 2, 3 and 4 are the tokens 0, 1, 2 or the tokens 0, 3, 4 of
      a listing line is never written. */
  lemma ListedBreakpointDropped(fpLines: seq<string>, bpLines: seq<string>, fpLine: string, line: string)
    requires UpdateOutput(fpLines, bpLines).Some?
    requires fpLine in fpLines && Coords(line).Some? && Listed(Coords(line).value, fpLine)
    ensures line !in UpdateOutput(fpLines, bpLines).value.written
  {
    BlocklistMembers(fpLines, Coords(line).value);
    FilterLinesSubsequence(bpLines, Blocklist(fpLines).value);
  }
}
