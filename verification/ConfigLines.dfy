/** What single lines of a configuration file mean: blanks, comments, repeated keys, lines
    without an entry and lines longer than the buffer. */
module ConfigLines {
  import opened Basics
  import opened ConfigFile

  ghost predicate Blanks(t: string) {
    forall i :: 0 <= i < |t| ==> t[i] == ' ' || t[i] == '\t'
  }

  ghost predicate Inked(t: string) {
    t != [] && t[0] !in {' ', '\t'} && t[|t| - 1] !in {' ', '\t'}
  }

  // ---- Blanks ----

  lemma {:induction false} FirstInkIs(t: string, k: nat, at: nat)
    requires k <= at <= |t| && (forall i :: k <= i < at ==> IsBlank(t[i])) && (at < |t| ==> !IsBlank(t[at]))
    ensures FirstInk(t, k) == at
    decreases at - k
  {
    if k < at { FirstInkIs(t, k + 1, at); }
  }

  lemma {:induction false} LastInkIs(t: string, n: nat, at: nat)
    requires at <= n <= |t| && (forall i :: at <= i < n ==> IsBlank(t[i])) && (at > 0 ==> !IsBlank(t[at - 1]))
    ensures LastInk(t, n) == at
    decreases n
  {
    if at < n { LastInkIs(t, n - 1, at); }
  }

  /** Trimming takes exactly the blanks at both ends. */
  lemma TrimIsExact(left: string, t: string, right: string)
    requires Blanks(left) && Inked(t) && Blanks(right)
    ensures Trim(left + t + right) == Some(t)
  {
    var all := left + t + right;
    assert all[|left|] == t[0];
    FirstInkIs(all, 0, |left|);
    assert all[|left|..] == t + right;
    LastInkIs(t + right, |t + right|, |t|);
    assert (t + right)[..|t|] == t;
  }

  lemma BlankIsNothing(t: string)
    requires Blanks(t)
    ensures Trim(t) == None
  {
    FirstInkIs(t, 0, |t|);
  }

  /** Blanks around key and value do not matter. */
  lemma PaddedEntryIsParsed(a: string, k: string, b: string, c: string, v: string, d: string, m: map<string, string>)
    requires Blanks(a) && Blanks(b) && Blanks(c) && Blanks(d)
    requires Inked(k) && '=' !in k && Inked(v)
    ensures ParseLine(m, a + k + b + ['='] + (c + v + d)) == Insert(m, k, v)
  {
    assert '=' !in a + k + b;
    hide Trim, ParseLine;
    CutAtEquals(a + k + b, c + v + d, m);
    TrimIsExact(a, k, b);
    TrimIsExact(c, v, d);
  }

  /** A line without '=', and one with nothing but blanks on a side of it, adds nothing. */
  lemma NoEntryIsAdded(head: string, tail: string, m: map<string, string>)
    requires '=' !in head && (Blanks(head) || Blanks(tail))
    ensures ParseLine(m, head) == m
    ensures ParseLine(m, head + ['='] + tail) == m
  {
    NoEntry(head, m);
    CutAtEquals(head, tail, m);
    if Blanks(head) { BlankIsNothing(head); } else { BlankIsNothing(tail); }
    hide Trim, ParseLine;
  }

  // ---- Comments ----

  lemma CommentIsCut(line: string, comment: string, end: string)
    requires OneLine(line) && '\n' !in comment && NUL !in comment && (end == ['\n'] || end == [])
    ensures LineOf(line + ['#'] + comment + end) == line
  {
    var text := line + ['#'] + comment;
    assert NUL !in text + end;
    assert WithoutNewline(text + end) == text;
    BeforeOf(line, '#', comment);
  }

  /** A comment is as if it was not there, up to the whole line. */
  lemma CommentIsIgnored(line: string, comment: string, rest: string, m: map<string, string>)
    requires OneLine(line) && '\n' !in comment && NUL !in comment && |line| + |comment| + 2 <= BUF_SIZE - 1
    ensures Load(line + ['#'] + comment + ['\n'] + rest, m) == Load(rest, if line == [] then m else ParseLine(m, line))
  {
    var text := line + ['#'] + comment;
    ChunkOfLine(text, rest, BUF_SIZE - 1);
    hide ParseLine, LineOf, Chunk;
    LoadChunk(text + ['\n'] + rest, text + ['\n'], rest, m);
    CommentIsCut(line, comment, ['\n']);
    hide Load;
  }

  // ---- Repeated keys ----

  lemma TakeLineKeeps(m: map<string, string>, chunk: string, k: string)
    requires k in m
    ensures k in TakeLine(m, chunk) && TakeLine(m, chunk)[k] == m[k]
  {
  }

  /** Loading never changes an entry that is there. */
  lemma {:induction false} LoadKeepsEntries(file: string, m: map<string, string>, k: string)
    requires k in m
    ensures k in Load(file, m) && Load(file, m)[k] == m[k]
    decreases |file|
  {
    hide TakeLine;
    if file != [] {
      var chunk := Chunk(file, BUF_SIZE - 1);
      TakeLineKeeps(m, chunk, k);
      LoadKeepsEntries(file[|chunk|..], TakeLine(m, chunk), k);
    }
  }

  /** So of all lines with one key the first one wins, whatever comes later. */
  lemma FirstLineWins(k: string, v: string, rest: string, m: map<string, string>)
    requires CleanEntry(k, v) && |k| + |v| + 2 <= LINE_SIZE - 1 && k !in m
    ensures k in Load(Line(k, v) + rest, m) && Load(Line(k, v) + rest, m)[k] == v
  {
    hide Load, Line, CleanEntry;
    LineReadsBack(k, v, rest, m);
    LoadKeepsEntries(rest, m[k := v], k);
  }

  // ---- Long lines ----

  lemma {:induction false} LineEndIsRoom(t: string, k: nat, room: nat)
    requires k + room <= |t| && '\n' !in t[..k + room]
    ensures LineEnd(t, k, room) == k + room
    decreases room
  {
    if room > 0 {
      assert t[..k + room][k] == t[k];
      LineEndIsRoom(t, k + 1, room - 1);
    }
  }

  /** A longer line is read in pieces of 255 characters, each a line of its own. */
  lemma LongLineIsSplit(piece: string, rest: string, m: map<string, string>)
    requires |piece| == 255 && OneLine(piece)
    ensures Load(piece + rest, m) == Load(rest, ParseLine(m, piece))
  {
    assert (piece + rest)[..255] == piece;
    LineEndIsRoom(piece + rest, 0, 255);
    LineOfPlain(piece, []);
    assert piece + [] == piece;
    hide ParseLine, LineOf;
    LoadChunk(piece + rest, piece, rest, m);
    hide Load;
  }
}
