/** The configuration file: lines are read into a fixed buffer, cut and trimmed in place
    as C strings, and written back one "key=value" line per entry. */
module ConfigFile {
  import opened Basics

  const BUF_SIZE: nat := 256
  const LINE_SIZE: nat := 128
  const NUL: char := '\0'

  // ---- What a line means ----

  predicate IsBlank(c: char) { c == ' ' || c == '\t' }

  /** The first index from k on that holds no blank, or the end. */
  function FirstInk(t: string, k: nat): (r: nat)
    requires k <= |t|
    ensures k <= r <= |t| && (r < |t| ==> !IsBlank(t[r]))
    decreases |t| - k
  {
    if k < |t| && IsBlank(t[k]) then FirstInk(t, k + 1) else k
  }

  /** How much of t[..n] is left once its trailing blanks are gone. */
  function LastInk(t: string, n: nat): (r: nat)
    requires n <= |t|
    ensures r <= n && (r > 0 ==> !IsBlank(t[r - 1]))
  {
    if n > 0 && IsBlank(t[n - 1]) then LastInk(t, n - 1) else n
  }

  function TrimLeft(t: string): string { t[FirstInk(t, 0)..] }

  function TrimRight(t: string): string { t[..LastInk(t, |t|)] }

  function Trim(t: string): Option<string> {
    var left := TrimLeft(t);
    if left == [] then None else Some(TrimRight(left))
  }

  /** The part of t before the first c, or all of t. */
  function Before(t: string, c: char): (r: string)
    ensures r <= t && c !in r
    ensures |r| < |t| ==> t[|r|] == c
    ensures c !in t <==> r == t
  {
    t[..IndexOf(t, c, 0)]
  }

  /** std::map::insert leaves an existing entry alone. */
  function Insert(m: map<string, string>, k: string, v: string): map<string, string> {
    if k in m then m else m[k := v]
  }

  function ParseLine(m: map<string, string>, line: string): map<string, string> {
    var head := Before(line, '=');
    if head == line then m
    else
      Entry(m, Trim(head), Trim(line[|head| + 1..]))
  }

  /** A blank key or value drops the line. */
  function Entry(m: map<string, string>, key: Option<string>, value: Option<string>): map<string, string> {
    if key.Some? && value.Some? then Insert(m, key.value, value.value) else m
  }

  /** Where one fgets stops: behind a newline, after room characters or at the end. */
  function LineEnd(file: string, k: nat, room: nat): (r: nat)
    requires k <= |file|
    ensures k <= r <= |file| && r <= k + room
    ensures k < |file| && room > 0 ==> k < r
    ensures forall j :: k <= j < r - 1 ==> file[j] != '\n'
    decreases room
  {
    if k == |file| || room == 0 then k
    else if file[k] == '\n' then k + 1
    else LineEnd(file, k + 1, room - 1)
  }

  /** What one fgets takes. */
  function Chunk(file: string, size: nat): (r: string)
    ensures r <= file && |r| <= size
    ensures file != [] && size > 0 ==> r != []
  {
    file[..LineEnd(file, 0, size)]
  }

  function WithoutNewline(t: string): string {
    if t != [] && t[|t| - 1] == '\n' then t[..|t| - 1] else t
  }

  function Load(file: string, m: map<string, string>): map<string, string>
    decreases |file|
  {
    if file == [] then m
    else
      var chunk := Chunk(file, BUF_SIZE - 1);
      Load(file[|chunk|..], TakeLine(m, chunk))
  }

  /** What is left of a chunk: a C string ends at the first NUL; then the newline and the
      comment are cut off. */
  function LineOf(chunk: string): string {
    Before(WithoutNewline(Before(chunk, NUL)), '#')
  }

  function TakeLine(m: map<string, string>, chunk: string): map<string, string> {
    var line := LineOf(chunk);
    if line == [] then m else ParseLine(m, line)
  }

  /** No chunk is an empty C string, whose last character the reader would look up. */
  predicate Readable(file: string)
    decreases |file|
  {
    file == [] || (file[0] != NUL && Readable(file[|Chunk(file, BUF_SIZE - 1)|..]))
  }

  /** What is loaded up to the first chunk that is an empty C string. */
  function LoadInside(file: string, m: map<string, string>): map<string, string>
    decreases |file|
  {
    if file == [] || file[0] == NUL then m
    else
      var chunk := Chunk(file, BUF_SIZE - 1);
      LoadInside(file[|chunk|..], TakeLine(m, chunk))
  }

  /** snprintf prints C strings and keeps what fits. */
  function Line(k: string, v: string): string {
    var full := Before(k, NUL) + "=" + Before(v, NUL) + "\n";
    full[..Min(|full|, LINE_SIZE - 1)]
  }

  function Write(m: map<string, string>, order: seq<string>): string
    requires forall k :: k in order ==> k in m
  {
    if order == [] then [] else Line(order[0], m[order[0]]) + Write(m, order[1..])
  }

  /** The keys of m, each once, in iteration order. */
  ghost predicate Enumerates(order: seq<string>, m: map<string, string>) {
    && (forall k :: k in m <==> k in order)
    && Distinct(order)
  }

  // ---- Reading back what was written ----

  predicate OneLine(t: string) {
    '\n' !in t && '#' !in t && NUL !in t
  }

  predicate CleanText(t: string) {
    t != [] && !IsBlank(t[0]) && !IsBlank(t[|t| - 1]) && OneLine(t)
  }

  ghost predicate Clean(m: map<string, string>) {
    forall k :: k in m ==> CleanEntry(k, m[k])
  }

  predicate CleanEntry(k: string, v: string) {
    CleanText(k) && '=' !in k && CleanText(v)
  }

  lemma {:induction false} ReadableIsLoaded(file: string, m: map<string, string>)
    requires Readable(file)
    ensures LoadInside(file, m) == Load(file, m)
    decreases |file|
  {
    hide TakeLine;
    if file != [] {
      var chunk := Chunk(file, BUF_SIZE - 1);
      ReadableIsLoaded(file[|chunk|..], TakeLine(m, chunk));
    }
  }

  lemma TrimOfClean(t: string)
    requires CleanText(t)
    ensures Trim(t) == Some(t)
  {
    assert t[0..] == t && t[..|t|] == t;
  }

  lemma BeforeOf(head: string, c: char, rest: string)
    requires c !in head
    ensures Before(head + [c] + rest, c) == head
  {
    var t := head + [c] + rest;
    assert t[|head|] == c && t[..|head|] == head;
    assert IndexOf(t, c, 0) == |head| by { IndexIs(t, c, 0, |head|); }
  }

  lemma {:induction false} IndexIs(t: string, c: char, k: nat, at: nat)
    requires k <= at < |t| && t[at] == c && c !in t[..at]
    ensures IndexOf(t, c, k) == at
    decreases at - k
  {
    if k < at {
      assert t[k] == t[..at][k];
      IndexIs(t, c, k + 1, at);
    }
  }

  lemma {:induction false} LineEndIs(t: string, k: nat, room: nat, at: nat)
    requires k <= at < |t| && t[at] == '\n' && '\n' !in t[..at] && at < k + room
    ensures LineEnd(t, k, room) == at + 1
    decreases at - k
  {
    if k < at {
      assert t[k] == t[..at][k];
      LineEndIs(t, k + 1, room - 1, at);
    }
  }

  lemma {:induction false} LineEndIsEnd(t: string, k: nat, room: nat)
    requires k <= |t| <= k + room && '\n' !in t
    ensures LineEnd(t, k, room) == |t|
    decreases |t| - k
  {
    if k < |t| { LineEndIsEnd(t, k + 1, room - 1); }
  }

  lemma ChunkOfLine(line: string, rest: string, size: nat)
    requires '\n' !in line && |line| + 1 <= size
    ensures Chunk(line + ['\n'] + rest, size) == line + ['\n']
  {
    var t := line + ['\n'] + rest;
    assert t[..|line|] == line;
    LineEndIs(t, 0, size, |line|);
  }

  lemma CutAtEquals(head: string, tail: string, m: map<string, string>)
    requires '=' !in head
    ensures ParseLine(m, head + ['='] + tail) == Entry(m, Trim(head), Trim(tail))
  {
    var line := head + ['='] + tail;
    BeforeOf(head, '=', tail);
    assert line[|head| + 1..] == tail;
  }

  lemma EntryIsParsed(k: string, value: string, m: map<string, string>)
    requires CleanText(k) && '=' !in k
    ensures ParseLine(m, k + ['='] + value) == Entry(m, Some(k), Trim(value))
  {
    CutAtEquals(k, value, m);
    TrimOfClean(k);
  }

  lemma LineOfPlain(line: string, end: string)
    requires OneLine(line) && (end == ['\n'] || end == [])
    ensures LineOf(line + end) == line
  {
    assert NUL !in line + end;
    assert WithoutNewline(line + end) == line;
  }

  lemma LoadStep(line: string, end: string, rest: string, m: map<string, string>)
    requires line != [] && OneLine(line)
    requires (end == ['\n'] && |line| + 1 <= BUF_SIZE - 1) || (end == [] && rest == [] && |line| <= BUF_SIZE - 1)
    ensures Load(line + end + rest, m) == Load(rest, ParseLine(m, line))
  {
    var file := line + end + rest;
    if end == [] {
      LineEndIsEnd(line, 0, BUF_SIZE - 1);
      assert file == line;
    } else {
      ChunkOfLine(line, rest, BUF_SIZE - 1);
    }
    LoadChunk(file, line + end, rest, m);
    LineOfPlain(line, end);
  }

  lemma LoadChunk(file: string, chunk: string, rest: string, m: map<string, string>)
    requires file != [] && Chunk(file, BUF_SIZE - 1) == chunk && file == chunk + rest
    ensures Load(file, m) == Load(rest, TakeLine(m, chunk))
  {
    assert file[|chunk|..] == rest;
  }

  lemma EntryIsOneLine(k: string, v: string)
    requires CleanEntry(k, v)
    ensures OneLine(k + ['='] + v)
  {
  }

  /** A line that fits its buffer. */
  lemma WholeLine(k: string, v: string)
    requires CleanEntry(k, v) && |k| + |v| + 2 <= LINE_SIZE - 1
    ensures Line(k, v) == k + ['='] + v + ['\n']
  {
  }

  lemma LineReadsBack(k: string, v: string, rest: string, m: map<string, string>)
    requires CleanEntry(k, v) && |k| + |v| + 2 <= LINE_SIZE - 1
    ensures Load(Line(k, v) + rest, m) == Load(rest, Insert(m, k, v))
  {
    WholeLine(k, v);
    EntryIsOneLine(k, v);
    LoadStep(k + ['='] + v, ['\n'], rest, m);
    EntryIsParsed(k, v, m);
    TrimOfClean(v);
  }

  /** The entries of m named in order, added to got one after the other. */
  ghost function Gather(m: map<string, string>, order: seq<string>, got: map<string, string>): map<string, string>
    requires forall k :: k in order ==> k in m
  {
    if order == [] then got else Gather(m, order[1..], got[order[0] := m[order[0]]])
  }

  lemma {:induction false} GatherIsAll(m: map<string, string>, order: seq<string>, got: map<string, string>)
    requires forall k :: k in order ==> k in m
    requires forall k :: k in got ==> k in m && got[k] == m[k]
    requires forall k :: k in m ==> k in got || k in order
    ensures Gather(m, order, got) == m
    decreases |order|
  {
    if order != [] { GatherIsAll(m, order[1..], got[order[0] := m[order[0]]]); }
  }

  lemma {:induction false} GatherKeys(m: map<string, string>, order: seq<string>, got: map<string, string>, k: string)
    requires forall k :: k in order ==> k in m
    requires k !in order && k !in got
    ensures k !in Gather(m, order, got)
    decreases |order|
  {
    if order != [] { GatherKeys(m, order[1..], got[order[0] := m[order[0]]], k); }
  }

  /** Entries whose lines fit are loaded one by one, whatever follows them. */
  lemma {:induction false} WrittenIsLoaded(m: map<string, string>, order: seq<string>, got: map<string, string>, rest: string)
    requires forall k :: k in order ==> k in m && k !in got
    requires forall k :: k in order ==> CleanEntry(k, m[k]) && |k| + |m[k]| + 2 <= LINE_SIZE - 1
    requires Distinct(order)
    ensures Load(Write(m, order) + rest, got) == Load(rest, Gather(m, order, got))
    decreases |order|
  {
    if order == [] {
      assert Write(m, order) + rest == rest;
    } else {
      var k, more := order[0], Write(m, order[1..]);
      assert Line(k, m[k]) + more + rest == Line(k, m[k]) + (more + rest);
      LineReadsBack(k, m[k], more + rest, got);
      WrittenIsLoaded(m, order[1..], got[k := m[k]], rest);
    }
  }

  /** A clean entry at the end of the file survives exactly when key, '=' and value fit the
      line buffer; only the newline may be lost. */
  lemma LastEntryExactlyWhenFits(k: string, v: string, got: map<string, string>)
    requires CleanEntry(k, v) && k !in got
    ensures Load(Line(k, v), got) == got[k := v] <==> |k| + 1 + |v| <= LINE_SIZE - 1
  {
    if |k| + |v| + 2 <= LINE_SIZE - 1 {
      LineReadsBack(k, v, [], got);
      assert Line(k, v) + [] == Line(k, v);
    } else if |k| + 1 + |v| == LINE_SIZE - 1 {
      CutLine(k, v, got);
      CutEntry(k, v, v, got);
      TrimOfClean(v);
    } else {
      LongEntryIsLost(k, v, got);
    }
  }

  lemma LongEntryIsLost(k: string, v: string, got: map<string, string>)
    requires CleanEntry(k, v) && k !in got && |k| + 1 + |v| > LINE_SIZE - 1
    ensures Load(Line(k, v), got) != got[k := v]
  {
    CutLine(k, v, got);
    if |k| < LINE_SIZE - 1 {
      CutEntry(k, v, v[..LINE_SIZE - 2 - |k|], got);
      ShorterIsOther(k, Trim(v[..LINE_SIZE - 2 - |k|]), v, got);
    } else {
      assert (k + ['='] + v)[..LINE_SIZE - 1] == k[..LINE_SIZE - 1];
      NoEntry(k[..LINE_SIZE - 1], got);
      assert k in got[k := v];
    }
  }

  lemma ShorterIsOther(k: string, kept: Option<string>, v: string, got: map<string, string>)
    requires k !in got && (kept.Some? ==> |kept.value| < |v|)
    ensures Entry(got, Some(k), kept) != got[k := v]
  {
    assert got[k := v][k] == v;
  }

  lemma NoEntry(line: string, got: map<string, string>)
    requires '=' !in line
    ensures ParseLine(got, line) == got
  {
  }

  /** What is loaded from a line that was cut. */
  lemma CutLine(k: string, v: string, got: map<string, string>)
    requires CleanEntry(k, v) && |k| + 1 + |v| >= LINE_SIZE - 1
    ensures var cut := (k + ['='] + v)[..LINE_SIZE - 1];
      Line(k, v) == cut && Load(Line(k, v), got) == ParseLine(got, cut)
  {
    var cut := (k + ['='] + v)[..LINE_SIZE - 1];
    assert Line(k, v) == cut;
    EntryIsOneLine(k, v);
    assert OneLine(cut);
    LoadStep(cut, [], [], got);
    assert cut + [] + [] == cut;
  }

  lemma CutEntry(k: string, v: string, kept: string, got: map<string, string>)
    requires CleanText(k) && '=' !in k && |k| + 1 + |kept| == LINE_SIZE - 1 && kept <= v
    ensures ParseLine(got, (k + ['='] + v)[..LINE_SIZE - 1]) == Entry(got, Some(k), Trim(kept))
    ensures Trim(kept).Some? ==> |Trim(kept).value| <= |kept|
  {
    assert (k + ['='] + v)[..LINE_SIZE - 1] == k + ['='] + kept;
    EntryIsParsed(k, kept, got);
  }

  // ---- What can be loaded at all ----

  lemma LineOfChunk(file: string, size: nat)
    ensures OneLine(LineOf(Chunk(file, size)))
  {
    var text := Before(Chunk(file, size), NUL);
    assert forall j :: 0 <= j < |text| - 1 ==> text[j] == Chunk(file, size)[j];
    assert '\n' !in WithoutNewline(text);
  }

  /** Every entry of a loaded map is clean, whatever the file holds. */
  lemma {:induction false} LoadedIsClean(file: string, m: map<string, string>)
    requires Clean(m)
    ensures Clean(Load(file, m))
    decreases |file|
  {
    if file != [] {
      var chunk := Chunk(file, BUF_SIZE - 1);
      LineOfChunk(file, BUF_SIZE - 1);
      if LineOf(chunk) != [] {
        ParsedLineIsClean(LineOf(chunk), m);
      }
      LoadedIsClean(file[|chunk|..], TakeLine(m, chunk));
    }
  }

  lemma TrimmedIsPart(t: string, c: char)
    requires Trim(t).Some? && c !in t
    ensures c !in Trim(t).value
  {
    assert c !in TrimLeft(t);
  }

  lemma TrimmedIsClean(t: string)
    requires OneLine(t) && Trim(t).Some?
    ensures CleanText(Trim(t).value)
  {
    TrimmedIsPart(t, '\n');
    TrimmedIsPart(t, '#');
    TrimmedIsPart(t, NUL);
    var left := TrimLeft(t);
    FirstInkStays(left, |left|);
  }

  lemma {:induction false} FirstInkStays(t: string, n: nat)
    requires 0 < n <= |t| && !IsBlank(t[0])
    ensures 0 < LastInk(t, n)
  {
    if IsBlank(t[n - 1]) { FirstInkStays(t, n - 1); }
  }

  lemma ParsedLineIsClean(line: string, m: map<string, string>)
    requires Clean(m) && OneLine(line)
    ensures Clean(ParseLine(m, line))
  {
    var head := Before(line, '=');
    if head != line {
      PartsAreOneLine(line, |head|);
      EntryIsClean(m, head, line[|head| + 1..]);
    }
  }

  lemma PartsAreOneLine(line: string, at: nat)
    requires OneLine(line) && at < |line|
    ensures OneLine(line[..at]) && OneLine(line[at + 1..])
  {
  }

  lemma EntryIsClean(m: map<string, string>, head: string, tail: string)
    requires Clean(m) && '=' !in head && OneLine(head) && OneLine(tail)
    ensures Clean(Entry(m, Trim(head), Trim(tail)))
  {
    if Trim(head).Some? && Trim(tail).Some? {
      TrimmedIsClean(head);
      TrimmedIsClean(tail);
      TrimmedIsPart(head, '=');
      InsertKeepsClean(m, Trim(head).value, Trim(tail).value);
    }
  }

  lemma InsertKeepsClean(m: map<string, string>, k: string, v: string)
    requires Clean(m) && CleanEntry(k, v)
    ensures Clean(Insert(m, k, v))
  {
  }
}
