/** Writing a configuration map and loading it again: exactly when the map comes back. A line
    that lost its newline runs into the next one, so that fewer chunks are read than lines
    were written. */
module ConfigRoundTrip {
  import opened Basics
  import opened ConfigFile

  // ---- Every chunk yields at most one entry ----

  /** How many times fgets succeeds. */
  ghost function Chunks(file: string): nat
    decreases |file|
  {
    if file == [] then 0 else 1 + Chunks(file[|Chunk(file, BUF_SIZE - 1)|..])
  }

  lemma TakeLineAddsOne(m: map<string, string>, chunk: string)
    ensures |TakeLine(m, chunk)| <= |m| + 1
  {
    var line := LineOf(chunk);
    var head := Before(line, '=');
    if line != [] && head != line { EntryAddsOne(m, Trim(head), Trim(line[|head| + 1..])); }
  }

  lemma EntryAddsOne(m: map<string, string>, key: Option<string>, value: Option<string>)
    ensures |Entry(m, key, value)| <= |m| + 1
  {
    if key.Some? && value.Some? && key.value !in m {
      assert Entry(m, key, value).Keys == m.Keys + {key.value};
    }
  }

  lemma {:induction false} EntriesAtMostChunks(file: string, m: map<string, string>)
    ensures |Load(file, m)| <= |m| + Chunks(file)
    decreases |file|
  {
    if file != [] {
      var chunk := Chunk(file, BUF_SIZE - 1);
      TakeLineAddsOne(m, chunk);
      EntriesAtMostChunks(file[|chunk|..], TakeLine(m, chunk));
    }
  }

  // ---- Lines that run into each other ----

  /** A written line, or the end of one: short, with a newline at its end or nowhere. */
  ghost predicate IsLine(t: string) {
    0 < |t| < LINE_SIZE && '\n' !in t[..|t| - 1]
  }

  ghost predicate Ended(t: string) {
    t != [] && t[|t| - 1] == '\n'
  }

  ghost predicate AllLines(lines: seq<string>) {
    forall i :: 0 <= i < |lines| ==> IsLine(lines[i])
  }

  ghost function Joined(lines: seq<string>): string {
    if lines == [] then [] else lines[0] + Joined(lines[1..])
  }

  /** The line ends still to come: in the rest of a line, then in whole lines. */
  ghost function Ends(rest: string, lines: seq<string>): nat {
    |lines| + if rest == [] then 0 else 1
  }

  /** Somewhere a line runs into the next. */
  ghost predicate RunsOn(rest: string, lines: seq<string>) {
    || (rest != [] && !Ended(rest) && lines != [])
    || exists i :: 0 <= i < |lines| - 1 && !Ended(lines[i])
  }

  /** Dropping characters leaves the rest of a line and whole lines, no more of them. */
  lemma {:induction false} DropLeavesLines(lines: seq<string>, d: nat) returns (rest: string, more: seq<string>)
    requires AllLines(lines) && d <= |Joined(lines)|
    ensures Joined(lines)[d..] == rest + Joined(more)
    ensures (rest == [] || IsLine(rest)) && AllLines(more) && Ends(rest, more) <= |lines|
    decreases |lines|
  {
    if d == 0 {
      rest, more := [], lines;
      assert Joined(lines)[0..] == [] + Joined(lines);
    } else if d < |lines[0]| {
      rest, more := lines[0][d..], lines[1..];
      assert IsLine(rest) by { assert forall j :: 0 <= j < |rest| - 1 ==> rest[j] == lines[0][..|lines[0]| - 1][d + j]; }
    } else {
      rest, more := DropLeavesLines(lines[1..], d - |lines[0]|);
      assert Joined(lines)[d..] == Joined(lines[1..])[d - |lines[0]|..];
    }
  }

  lemma {:induction false} LineEndAtLeast(t: string, k: nat, room: nat, at: nat)
    requires k < at <= |t| && at <= k + room && '\n' !in t[..at - 1]
    ensures LineEnd(t, k, room) >= at
    decreases at - k
  {
    if k < at - 1 {
      assert t[k] == t[..at - 1][k];
      LineEndAtLeast(t, k + 1, room - 1, at);
    }
  }

  /** One chunk covers at least a start without an inner newline. */
  lemma ChunkCovers(start: string, tail: string) returns (d: nat)
    requires 0 < |start| <= BUF_SIZE - 1 && '\n' !in start[..|start| - 1]
    ensures d <= |tail| && Chunks(start + tail) == 1 + Chunks(tail[d..])
  {
    var file := start + tail;
    assert file[..|start| - 1] == start[..|start| - 1];
    LineEndAtLeast(file, 0, BUF_SIZE - 1, |start|);
    d := |Chunk(file, BUF_SIZE - 1)| - |start|;
    assert file[|start| + d..] == tail[d..];
  }

  /** An ended line is a chunk of its own. */
  lemma EndedLineIsChunk(line: string, tail: string)
    requires IsLine(line) && Ended(line)
    ensures Chunks(line + tail) == 1 + Chunks(tail)
  {
    var text := line[..|line| - 1];
    assert line == text + ['\n'];
    ChunkOfLine(text, tail, BUF_SIZE - 1);
    assert (line + tail)[|line|..] == tail;
  }

  lemma RunOnIsShort(rest: string, lines: seq<string>)
    requires IsLine(rest) && !Ended(rest) && lines != [] && AllLines(lines)
    ensures IsLine(lines[0]) && '\n' !in (rest + lines[0])[..|rest| + |lines[0]| - 1]
  {
    assert (rest + lines[0])[..|rest| + |lines[0]| - 1] == rest + lines[0][..|lines[0]| - 1];
    assert rest == rest[..|rest| - 1] + [rest[|rest| - 1]];
  }

  /** Every chunk takes at least one line end; one that starts in a line without newline
      takes the next line too. */
  lemma {:induction false} ChunksAtMostEnds(rest: string, lines: seq<string>)
    requires (rest == [] || IsLine(rest)) && AllLines(lines)
    ensures Chunks(rest + Joined(lines)) <= Ends(rest, lines)
    ensures RunsOn(rest, lines) ==> Chunks(rest + Joined(lines)) < Ends(rest, lines)
    decreases |rest| + |Joined(lines)|, |lines|
  {
    if rest == [] && lines == [] {
      assert rest + Joined(lines) == [];
    } else if rest == [] {
      assert rest + Joined(lines) == lines[0] + Joined(lines[1..]);
      ChunksAtMostEnds(lines[0], lines[1..]);
      if RunsOn([], lines) { RunsOnFirst(lines); }
    } else if Ended(rest) {
      EndedLineIsChunk(rest, Joined(lines));
      ChunksAtMostEnds([], lines);
      assert [] + Joined(lines) == Joined(lines);
    } else if lines == [] {
      var d := ChunkCovers(rest, []);
    } else {
      var r, more := RunOnTakesTwo(rest, lines);
      ChunksAtMostEnds(r, more);
    }
  }

  lemma RunOnTakesTwo(rest: string, lines: seq<string>) returns (r: string, more: seq<string>)
    requires IsLine(rest) && !Ended(rest) && lines != [] && AllLines(lines)
    ensures (r == [] || IsLine(r)) && AllLines(more) && Ends(r, more) < |lines|
    ensures Chunks(rest + Joined(lines)) == 1 + Chunks(r + Joined(more))
    ensures |r| + |Joined(more)| < |rest| + |Joined(lines)|
  {
    RunOnIsShort(rest, lines);
    var tail := Joined(lines[1..]);
    assert rest + Joined(lines) == (rest + lines[0]) + tail;
    var d := ChunkCovers(rest + lines[0], tail);
    r, more := DropLeavesLines(lines[1..], d);
  }

  lemma RunsOnFirst(lines: seq<string>)
    requires lines != [] && AllLines(lines) && RunsOn([], lines)
    ensures RunsOn(lines[0], lines[1..])
  {
    var i :| 0 <= i < |lines| - 1 && !Ended(lines[i]);
    if i > 0 { assert lines[1..][i - 1] == lines[i]; }
  }

  // ---- The theorem ----

  ghost function Lines(m: map<string, string>, order: seq<string>): seq<string>
    requires forall k :: k in order ==> k in m
  {
    if order == [] then [] else [Line(order[0], m[order[0]])] + Lines(m, order[1..])
  }

  lemma {:induction false} LinesAre(m: map<string, string>, order: seq<string>)
    requires forall k :: k in order ==> k in m && CleanEntry(k, m[k])
    ensures |Lines(m, order)| == |order| && Joined(Lines(m, order)) == Write(m, order)
    ensures forall i :: 0 <= i < |order| ==> Lines(m, order)[i] == Line(order[i], m[order[i]])
    ensures AllLines(Lines(m, order))
    decreases |order|
  {
    hide Line, IsLine, CleanEntry;
    if order != [] {
      LinesAre(m, order[1..]);
      LineIsLine(order[0], m[order[0]]);
      assert Lines(m, order)[1..] == Lines(m, order[1..]);
    }
  }

  /** A clean entry's line is ended exactly when it fits. */
  lemma LineIsLine(k: string, v: string)
    requires CleanEntry(k, v)
    ensures IsLine(Line(k, v)) && (Ended(Line(k, v)) <==> |k| + |v| + 2 <= LINE_SIZE - 1)
  {
    var text := k + ['='] + v;
    EntryIsOneLine(k, v);
    assert Line(k, v) == (text + ['\n'])[..Min(|text| + 1, LINE_SIZE - 1)];
    assert Line(k, v)[..|Line(k, v)| - 1] <= text;
  }

  ghost predicate KeepsNewline(k: string, v: string) {
    |k| + |v| + 2 <= 127
  }

  ghost predicate KeepsText(k: string, v: string) {
    |k| + 1 + |v| <= 127
  }

  /** Every line but the last keeps its newline. */
  ghost predicate FrontFits(m: map<string, string>, order: seq<string>)
    requires forall k :: k in order ==> k in m
  {
    forall i :: 0 <= i < |order| - 1 ==> KeepsNewline(order[i], m[order[i]])
  }

  /** And the last keeps all its text. */
  ghost predicate Fits(m: map<string, string>, order: seq<string>)
    requires forall k :: k in order ==> k in m
  {
    FrontFits(m, order) && (order != [] ==> KeepsText(order[|order| - 1], m[order[|order| - 1]]))
  }

  lemma {:induction false} KeysAreCounted(order: seq<string>)
    requires Distinct(order)
    ensures |set k | k in order| == |order|
    decreases |order|
  {
    if order != [] {
      var front, last := order[..|order| - 1], order[|order| - 1];
      KeysAreCounted(front);
      assert (set k | k in order) == (set k | k in front) + {last};
    }
  }

  lemma SizeIsCount(m: map<string, string>, order: seq<string>)
    requires Enumerates(order, m)
    ensures |m| == |order|
  {
    KeysAreCounted(order);
    assert m.Keys == set k | k in order;
  }

  lemma FewerChunks(m: map<string, string>, order: seq<string>, i: nat)
    requires forall k :: k in order ==> k in m && CleanEntry(k, m[k])
    requires i < |order| - 1 && !KeepsNewline(order[i], m[order[i]])
    ensures Chunks(Write(m, order)) < |order|
  {
    LinesAre(m, order);
    var lines := Lines(m, order);
    LineIsLine(order[i], m[order[i]]);
    assert RunsOn([], lines) by { assert !Ended(lines[i]); }
    ChunksAtMostEnds([], lines);
    assert [] + Joined(lines) == Write(m, order);
  }

  /** A line that lost its newline in front of another one costs an entry. */
  lemma RunOnLosesAnEntry(m: map<string, string>, order: seq<string>, i: nat)
    requires Enumerates(order, m) && Clean(m)
    requires i < |order| - 1 && !KeepsNewline(order[i], m[order[i]])
    ensures Load(Write(m, order), map[]) != m
  {
    FewerChunks(m, order, i);
    EntriesAtMostChunks(Write(m, order), map[]);
    SizeIsCount(m, order);
  }

  lemma {:induction false} WriteSplit(m: map<string, string>, order: seq<string>)
    requires order != [] && forall k :: k in order ==> k in m
    ensures var last := order[|order| - 1];
      Write(m, order) == Write(m, order[..|order| - 1]) + Line(last, m[last])
    decreases |order|
  {
    hide Line;
    if |order| > 1 {
      var last := order[|order| - 1];
      DropBothEnds(order);
      WriteSplit(m, order[1..]);
      Assoc(Line(order[0], m[order[0]]), Write(m, order[..|order| - 1][1..]), Line(last, m[last]));
    }
  }

  lemma {:induction false} GatherLast(m: map<string, string>, order: seq<string>, got: map<string, string>)
    requires order != [] && forall k :: k in order ==> k in m
    ensures var last := order[|order| - 1];
      Gather(m, order, got) == Gather(m, order[..|order| - 1], got)[last := m[last]]
    decreases |order|
  {
    if |order| > 1 {
      DropBothEnds(order);
      GatherLast(m, order[1..], got[order[0] := m[order[0]]]);
    }
  }

  /** When all lines but the last keep their newlines, only the last entry is in doubt. */
  lemma LastDecides(m: map<string, string>, order: seq<string>)
    requires Enumerates(order, m) && Clean(m) && order != [] && FrontFits(m, order)
    ensures Load(Write(m, order), map[]) == m <==> KeepsText(order[|order| - 1], m[order[|order| - 1]])
  {
    var front, last := order[..|order| - 1], order[|order| - 1];
    var got := Gather(m, front, map[]);
    WriteSplit(m, order);
    WrittenIsLoaded(m, front, map[], Line(last, m[last]));
    GatherKeys(m, front, map[], last);
    LastEntryExactlyWhenFits(last, m[last], got);
    GatherLast(m, order, map[]);
    GatherIsAll(m, order, map[]);
  }

  /** Writing a map and loading the file gives the map back exactly when all its entries are
      clean and no written line runs into the next or loses text. */
  lemma RoundTripExactlyWhen(m: map<string, string>, order: seq<string>)
    requires Enumerates(order, m)
    ensures Load(Write(m, order), map[]) == m <==> Clean(m) && Fits(m, order)
  {
    LoadedIsClean(Write(m, order), map[]);
    if Clean(m) { CleanRoundTrip(m, order); }
  }

  lemma CleanRoundTrip(m: map<string, string>, order: seq<string>)
    requires Enumerates(order, m) && Clean(m)
    ensures Load(Write(m, order), map[]) == m <==> Fits(m, order)
  {
    if order == [] {
      assert m == map[];
    } else if FrontFits(m, order) {
      LastDecides(m, order);
    } else {
      var i :| 0 <= i < |order| - 1 && !KeepsNewline(order[i], m[order[i]]);
      RunOnLosesAnEntry(m, order, i);
    }
  }

  /** For example, a line that lost only its newline swallows the next one. */
  lemma NewlineLost(k: string, v: string, k2: string, v2: string)
    requires CleanEntry(k, v) && CleanEntry(k2, v2)
    requires |k| + 1 + |v| == LINE_SIZE - 1 && |k2| + |v2| + 2 <= LINE_SIZE - 1
    ensures Load(Line(k, v) + Line(k2, v2), map[]) == map[k := v + (k2 + ['='] + v2)]
  {
    EntryIsOneLine(k2, v2);
    SwallowedIsClean(v, k2 + ['='] + v2);
    SwallowedLine(k, v, k2, v2);
    LongLineReadsBack(k, v + (k2 + ['='] + v2));
  }

  lemma SwallowedLine(k: string, v: string, k2: string, v2: string)
    requires CleanEntry(k, v) && CleanEntry(k2, v2)
    requires |k| + 1 + |v| == LINE_SIZE - 1 && |k2| + |v2| + 2 <= LINE_SIZE - 1
    ensures Line(k, v) + Line(k2, v2) == (k + ['='] + (v + (k2 + ['='] + v2))) + ['\n'] + []
  {
    WholeLine(k2, v2);
    assert Line(k, v) == k + ['='] + v;
  }

  lemma SwallowedIsClean(v: string, more: string)
    requires CleanText(v) && OneLine(more) && more != [] && !IsBlank(more[|more| - 1])
    ensures CleanText(v + more)
  {
  }

  lemma LongLineReadsBack(k: string, v: string)
    requires CleanEntry(k, v) && |k| + |v| + 2 <= BUF_SIZE - 1
    ensures Load((k + ['='] + v) + ['\n'] + [], map[]) == map[k := v]
  {
    EntryIsOneLine(k, v);
    LoadStep(k + ['='] + v, ['\n'], [], map[]);
    EntryIsParsed(k, v, map[]);
    TrimOfClean(v);
  }

  // ---- What is written can be read ----

  lemma {:induction false} WithoutNulIsReadable(file: string)
    requires NUL !in file
    ensures Readable(file)
    decreases |file|
  {
    if file != [] { WithoutNulIsReadable(file[|Chunk(file, BUF_SIZE - 1)|..]); }
  }

  lemma {:induction false} NoNulWritten(m: map<string, string>, order: seq<string>)
    requires forall k :: k in order ==> k in m
    ensures NUL !in Write(m, order)
    decreases |order|
  {
    if order != [] {
      NoNulWritten(m, order[1..]);
    }
  }
}
