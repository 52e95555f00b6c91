/** The configuration reader itself: fgets-style chunks in a 256-character buffer, edited
    in place with NUL characters. */
module ConfigReaders {
  import opened Basics
  import opened ConfigFile
  import RoundTrip = ConfigRoundTrip

  /** A C string: t starts at index i of the buffer and ends with a NUL. */
  ghost predicate IsCString(s: seq<char>, i: nat, t: string) {
    i + |t| < |s| && s[i..i + |t|] == t && s[i + |t|] == NUL && NUL !in t
  }

  lemma CharsOf(s: seq<char>, i: nat, t: string)
    requires IsCString(s, i, t)
    ensures forall j :: 0 <= j < |t| ==> s[i + j] == t[j] && s[i + j] != NUL
    ensures s[i + |t|] == NUL
  {
    forall j | 0 <= j < |t| ensures t[j] == s[i + j] {
      assert s[i..i + |t|][j] == s[i + j];
    }
  }

  /** A C string survives changes elsewhere. */
  lemma Untouched(s: seq<char>, r: seq<char>, i: nat, t: string)
    requires IsCString(s, i, t) && |r| == |s|
    requires forall j :: i <= j <= i + |t| ==> r[j] == s[j]
    ensures IsCString(r, i, t)
  {
    assert r[i..i + |t|] == s[i..i + |t|];
  }

  /** Cutting a line at an index leaves two C strings. */
  lemma CutAt(s: seq<char>, line: string, at: nat)
    requires IsCString(s, 0, line) && at < |line|
    ensures IsCString(s[at := NUL], 0, line[..at]) && IsCString(s[at := NUL], at + 1, line[at + 1..])
  {
    var r := s[at := NUL];
    assert s[0..|line|] == line;
    assert r[0..at] == line[..at];
    assert r[at + 1..at + 1 + |line[at + 1..]|] == line[at + 1..];
  }

  /** std::string(char*) */
  method ToString(buf: array<char>, i: nat, ghost t: string) returns (r: string)
    requires IsCString(buf[..], i, t)
    ensures r == t
  {
    var n := StrLen(buf, i, t);
    r := buf[i..i + n];
    assert r == buf[..][i..i + n];
  }

  method StrLen(buf: array<char>, i: nat, ghost t: string) returns (len: nat)
    requires IsCString(buf[..], i, t)
    ensures len == |t|
  {
    len := 0;
    CharsOf(buf[..], i, t);
    while buf[i + len] != NUL
      invariant 0 <= len <= |t| && (buf[i + len] == NUL <==> len == |t|)
      decreases |t| - len
    {
      len := len + 1;
    }
  }

  /** strchr: the index of the first c, if any. */
  method StrChr(buf: array<char>, i: nat, c: char, ghost t: string) returns (p: Option<nat>)
    requires IsCString(buf[..], i, t) && c != NUL
    ensures p.None? <==> c !in t
    ensures p.Some? ==> p.value == i + |Before(t, c)|
  {
    var k := 0;
    CharsOf(buf[..], i, t);
    while buf[i + k] != NUL
      invariant 0 <= k <= |t| && (buf[i + k] == NUL <==> k == |t|)
      invariant IndexOf(t, c, 0) == IndexOf(t, c, k)
      decreases |t| - k
    {
      if buf[i + k] == c {
        return Some(i + k);
      }
      k := k + 1;
    }
    p := None;
  }

  method SkipBlanks(buf: array<char>, name: nat, ghost t: string) returns (start: nat)
    requires IsCString(buf[..], name, t)
    ensures start == name + FirstInk(t, 0)
  {
    start := name;
    CharsOf(buf[..], name, t);
    while IsBlank(buf[start])
      invariant name <= start <= name + |t|
      invariant buf[start] == if start < name + |t| then t[start - name] else NUL
      invariant FirstInk(t, 0) == FirstInk(t, start - name)
      decreases name + |t| - start
    {
      start := start + 1;
    }
  }

  /** Cuts trailing blanks off the string at start; the scan stops at its first
      character at the latest, because that one is not blank. */
  method CutBlanks(buf: array<char>, start: nat, ghost left: string) returns (end: nat)
    requires IsCString(buf[..], start, left) && left != [] && !IsBlank(left[0])
    modifies buf
    ensures start <= end && IsCString(buf[..], start, TrimRight(left)) && |TrimRight(left)| == end - start + 1
    ensures forall j :: 0 <= j < buf.Length && !(start <= j < start + |left|) ==> buf[j] == old(buf[j])
  {
    ghost var was := buf[..];
    CharsOf(was, start, left);
    var len := StrLen(buf, start, left);
    end := EraseBlanks(buf, start, start + len - 1, left);
    PrefixOf(was, buf[..], start, left, LastInk(left, |left|));
  }

  /** The backward scan, writing a NUL over each blank. */
  method EraseBlanks(buf: array<char>, start: nat, last: nat, ghost left: string) returns (end: nat)
    requires left != [] && !IsBlank(left[0]) && last + 1 == start + |left| < buf.Length && buf[last + 1] == NUL
    requires forall j :: 0 <= j < |left| ==> left[j] == buf[start + j]
    modifies buf
    ensures start <= end && end + 1 - start == LastInk(left, |left|) && buf[end + 1] == NUL
    ensures forall j :: 0 <= j < buf.Length && !(end < j <= last) ==> buf[j] == old(buf[j])
  {
    end := last;
    while IsBlank(buf[end])
      invariant start <= end <= last && buf[end + 1] == NUL && buf[end] == left[end - start]
      invariant forall j :: 0 <= j < buf.Length && !(end < j <= last) ==> buf[j] == old(buf[j])
      invariant LastInk(left, |left|) == LastInk(left, end + 1 - start)
      decreases end
    {
      buf[end] := NUL;
      end := end - 1;
      assert left[end - start] == old(buf[start + (end - start)]);
    }
  }

  /** A string cut short, with a NUL behind what is kept. */
  lemma PrefixOf(s: seq<char>, r: seq<char>, i: nat, t: string, n: nat)
    requires IsCString(s, i, t) && n <= |t| && |r| == |s|
    requires (forall j :: i <= j < i + n ==> r[j] == s[j]) && r[i + n] == NUL
    ensures IsCString(r, i, t[..n])
  {
    assert r[i..i + n] == s[i..i + |t|][..n];
  }

  /** The end of a string is a string. */
  lemma SuffixOf(s: seq<char>, i: nat, t: string, n: nat)
    requires IsCString(s, i, t) && n <= |t|
    ensures IsCString(s, i + n, t[n..])
  {
    assert s[i + n..i + n + |t[n..]|] == s[i..i + |t|][n..];
  }

  /** Where the string without its leading blanks starts. */
  method LeftEnd(buf: array<char>, name: nat, ghost t: string) returns (start: nat)
    requires IsCString(buf[..], name, t)
    ensures name <= start && start + |TrimLeft(t)| == name + |t| < buf.Length
    ensures IsCString(buf[..], start, TrimLeft(t)) && (TrimLeft(t) != [] ==> !IsBlank(TrimLeft(t)[0]))
    ensures |TrimRight(TrimLeft(t))| <= |TrimLeft(t)|
  {
    start := SkipBlanks(buf, name, t);
    SuffixOf(buf[..], name, t, start - name);
  }

  /** _TrimSpace: trims the string at `name` in place and returns where it now starts, or
      nothing if it was blank. */
  method TrimSpace(buf: array<char>, name: nat, ghost t: string) returns (start: Option<nat>)
    requires IsCString(buf[..], name, t)
    modifies buf
    ensures start.Some? <==> Trim(t).Some?
    ensures start.Some? ==> name <= start.value && IsCString(buf[..], start.value, Trim(t).value)
    ensures start.Some? ==> start.value + |Trim(t).value| <= name + |t|
    ensures forall j :: 0 <= j < buf.Length && !(name <= j < name + |t|) ==> buf[j] == old(buf[j])
  {
    var startPos := LeftEnd(buf, name, t);
    hide FirstInk, LastInk, IsCString, TrimLeft, TrimRight;
    ghost var left := TrimLeft(t);
    var rest := StrLen(buf, startPos, left);
    if rest == 0 {
      return None;
    }
    var endPos := CutBlanks(buf, startPos, left);
    var len := endPos - startPos + 1;
    if len <= 0 {
      assert false;
      return None;
    }
    start := Some(startPos);
  }

  /** A NUL in the middle leaves two strings. */
  method CutString(buf: array<char>, ghost line: string, at: nat)
    requires IsCString(buf[..], 0, line) && at < |line|
    modifies buf
    ensures IsCString(buf[..], 0, line[..at]) && IsCString(buf[..], at + 1, line[at + 1..])
  {
    CutAt(buf[..], line, at);
    ghost var cut := buf[..][at := NUL];
    buf[at] := NUL;
    assert buf[..] == cut;
  }

  method CutNewline(buf: array<char>, ghost chunk: string)
    requires IsCString(buf[..], 0, chunk) && chunk != []
    modifies buf
    ensures IsCString(buf[..], 0, WithoutNewline(chunk))
  {
    var len := StrLen(buf, 0, chunk);
    CharsOf(buf[..], 0, chunk);
    if buf[len - 1] == '\n' {
      CutString(buf, chunk, len - 1);
    }
  }

  method CutComment(buf: array<char>, ghost line: string)
    requires IsCString(buf[..], 0, line)
    modifies buf
    ensures IsCString(buf[..], 0, Before(line, '#'))
  {
    var ch := StrChr(buf, 0, '#', line);
    if ch.Some? {
      CutString(buf, line, ch.value);
    }
  }

  /** Trims the strings on both sides of the cut and copies them out. */
  method TrimBoth(buf: array<char>, at: nat, ghost head: string, ghost tail: string)
    returns (key: Option<string>, value: Option<string>)
    requires IsCString(buf[..], 0, head) && IsCString(buf[..], at + 1, tail) && |head| == at
    modifies buf
    ensures key.Some? && value.Some? <==> Trim(head).Some? && Trim(tail).Some?
    ensures key.Some? && value.Some? ==> key == Trim(head) && value == Trim(tail)
  {
    key, value := None, None;
    ghost var cut := buf[..];
    var k := TrimSpace(buf, 0, head);
    ghost var keyed := buf[..];
    Untouched(cut, keyed, at + 1, tail);
    var v := TrimSpace(buf, at + 1, tail);
    if k.Some? && v.Some? {
      Untouched(keyed, buf[..], k.value, Trim(head).value);
      var keyText := ToString(buf, k.value, Trim(head).value);
      var valueText := ToString(buf, v.value, Trim(tail).value);
      key, value := Some(keyText), Some(valueText);
    }
  }

  lemma ParseLineAt(m: map<string, string>, line: string, at: nat)
    requires at == |Before(line, '=')| < |line|
    ensures ConfigFile.ParseLine(m, line) == Entry(m, Trim(line[..at]), Trim(line[at + 1..]))
  {
  }

  lemma WriteNext(m: map<string, string>, order: seq<string>, i: nat)
    requires i < |order| && forall k :: k in order ==> k in m
    ensures Write(m, order[..i + 1]) == Write(m, order[..i]) + Line(order[i], m[order[i]])
  {
    assert order[..i + 1][..i] == order[..i];
    RoundTrip.WriteSplit(m, order[..i + 1]);
  }

  class CConfigFileReader {
    var loadOk: bool
    var configMap: map<string, string>

    constructor ()
      ensures !loadOk && configMap == map[]
    {
      loadOk, configMap := false, map[];
    }

    /** _ParseLine: cuts the line at the first '=' and trims both sides. */
    method ParseLine(buf: array<char>, ghost line: string)
      requires IsCString(buf[..], 0, line)
      modifies buf, `configMap
      ensures configMap == ConfigFile.ParseLine(old(configMap), line)
    {
      var p := StrChr(buf, 0, '=', line);
      if p.None? {
        return;
      }
      CutString(buf, line, p.value);
      ParseLineAt(configMap, line, p.value);
      var key, value := TrimBoth(buf, p.value, line[..p.value], line[p.value + 1..]);
      if key.Some? && value.Some? {
        if key.value !in configMap {
          configMap := configMap[key.value := value.value];
        }
      }
    }

    /** _LoadFile: nothing happens when the file cannot be opened. Reports whether every
        access stayed inside the buffer: a chunk that starts with a NUL is an empty C string,
        and the source looks at the character before its first one. The model stops there. */
    method LoadFile(file: Option<string>) returns (inside: bool)
      modifies this
      ensures file.None? ==> inside && loadOk == old(loadOk) && configMap == old(configMap)
      ensures file.Some? ==> (inside <==> Readable(file.value))
      ensures file.Some? && inside ==> loadOk && configMap == Load(file.value, old(configMap))
      ensures !inside ==> loadOk == old(loadOk) && configMap == LoadInside(file.value, old(configMap))
    {
      if file.None? {
        return true;
      }
      var fp := file.value;
      var buf := new char[BUF_SIZE](_ => NUL);
      while fp != []
        invariant Readable(fp) <==> Readable(file.value)
        invariant LoadInside(fp, configMap) == LoadInside(file.value, old(configMap))
        invariant loadOk == old(loadOk)
        decreases |fp|
      {
        ghost var chunk := Chunk(fp, BUF_SIZE - 1);
        fp := FGets(buf, fp);
        inside := LoadLine(buf, chunk);
        if !inside {
          return;
        }
      }
      if Readable(file.value) { ReadableIsLoaded(file.value, old(configMap)); }
      loadOk, inside := true, true;
    }

    /** One pass of the loop: newline and comment are cut off, then the line is parsed. */
    method LoadLine(buf: array<char>, ghost chunk: string) returns (inside: bool)
      requires IsCString(buf[..], 0, Before(chunk, NUL))
      modifies buf, `configMap
      ensures inside <==> Before(chunk, NUL) != []
      ensures configMap == if inside then TakeLine(old(configMap), chunk) else old(configMap)
    {
      ghost var text := Before(chunk, NUL);
      var len := StrLen(buf, 0, text);
      if len == 0 {
        return false;
      }
      CutNewline(buf, text);
      CutComment(buf, WithoutNewline(text));
      var n := StrLen(buf, 0, LineOf(chunk));
      if n != 0 {
        ParseLine(buf, LineOf(chunk));
      }
      inside := true;
    }

    /** _WriteFIle: the lines of all entries, in iteration order. When a write fails the
        lines before it, and any part of its own, are in the file. */
    method WriteFile(order: seq<string>, disk: Disk) returns (r: int, file: string)
      requires Enumerates(order, configMap)
      ensures disk.CannotOpen? ==> r == -1 && file == []
      ensures disk.FailsAt? && disk.i < |order| ==>
        r == -1 && file == Write(configMap, order[..disk.i]) + Partial(Line(order[disk.i], configMap[order[disk.i]]), disk.kept)
      ensures disk.Works? || (disk.FailsAt? && disk.i >= |order|) ==> r == 0 && file == Write(configMap, order)
    {
      file := [];
      if disk.CannotOpen? {
        return -1, file;
      }
      for i := 0 to |order|
        invariant file == Write(configMap, order[..i])
        invariant disk.FailsAt? ==> i <= disk.i
      {
        var line := Line(order[i], configMap[order[i]]);
        if disk.FailsAt? && disk.i == i {
          file := file + Partial(line, disk.kept);
          return -1, file;
        }
        WriteNext(configMap, order, i);
        file := file + line;
      }
      assert order[..|order|] == order;
      r := 0;
    }

    /** SetConfigValue: refuses before a load, otherwise replaces the entry, even if
        rewriting the file then fails. The iteration order of the new map is the caller's. */
    method SetConfigValue(name: string, value: string, order: seq<string>, disk: Disk)
      returns (r: int, file: Option<string>)
      requires Enumerates(order, configMap[name := value])
      modifies `configMap
      ensures !old(loadOk) ==> r == -1 && configMap == old(configMap) && file == None
      ensures old(loadOk) ==> configMap == old(configMap)[name := value]
      ensures old(loadOk) && disk.Works? ==> r == 0 && file == Some(Write(configMap, order))
      ensures old(loadOk) && (disk.CannotOpen? || (disk.FailsAt? && disk.i < |order|)) ==> r == -1
    {
      if !loadOk {
        return -1, None;
      }
      configMap := configMap[name := value];
      var text;
      r, text := WriteFile(order, disk);
      file := Some(text);
    }
  }

  /** How writing the file goes: write i may fail after some characters. */
  datatype Disk = Works | CannotOpen | FailsAt(i: nat, kept: nat)

  function Partial(line: string, kept: nat): string {
    line[..Min(kept, |line|)]
  }

  /** fgets: stores one chunk of the file, ended by a NUL, and leaves the rest of the file. */
  method FGets(buf: array<char>, fp: string) returns (rest: string)
    requires fp != [] && buf.Length == BUF_SIZE
    modifies buf
    ensures rest == fp[|Chunk(fp, BUF_SIZE - 1)|..] && |rest| < |fp|
    ensures var text := Before(Chunk(fp, BUF_SIZE - 1), NUL);
      IsCString(buf[..], 0, text) && (text == [] <==> fp[0] == NUL)
  {
    var chunk := Chunk(fp, BUF_SIZE - 1);
    rest := fp[|chunk|..];
    Store(buf, chunk);
    CStringOf(buf[..], chunk);
    assert chunk[0] == fp[0];
  }

  /** The C string in a buffer that holds t and then a NUL. */
  lemma CStringOf(s: seq<char>, t: string)
    requires |t| < |s| && s[..|t|] == t && s[|t|] == NUL
    ensures IsCString(s, 0, Before(t, NUL))
  {
    var n := |Before(t, NUL)|;
    assert s[0..n] == s[..|t|][..n];
    if n < |t| { assert s[..|t|][n] == NUL; }
  }

  method Store(buf: array<char>, t: string)
    requires |t| < buf.Length
    modifies buf
    ensures buf[..|t|] == t && buf[|t|] == NUL
  {
    for i := 0 to |t|
      invariant buf[..i] == t[..i]
    {
      buf[i] := t[i];
    }
    buf[|t|] := NUL;
  }

  /** Writing the map and loading the file into a new reader gives the same map back
      exactly when all entries are clean and their lines fit. */
  method Reload(m: map<string, string>, order: seq<string>) returns (same: bool)
    requires Enumerates(order, m)
    ensures same <==> Clean(m) && RoundTrip.Fits(m, order)
  {
    var writer := new CConfigFileReader();
    writer.configMap := m;
    var r, file := writer.WriteFile(order, Works);
    RoundTrip.NoNulWritten(m, order);
    RoundTrip.WithoutNulIsReadable(file);
    var reader := new CConfigFileReader();
    var inside := reader.LoadFile(Some(file));
    RoundTrip.RoundTripExactlyWhen(m, order);
    same := reader.configMap == m;
  }

  /** A line that starts with a NUL makes a file unreadable, whatever follows it: the reader
      really does leave its buffer. */
  lemma NulLineIsUnreadable(line: string, rest: string)
    requires OneLine(line) && |line| + 1 <= BUF_SIZE - 1
    ensures !Readable([NUL] + rest) && !Readable(line + ['\n'] + ([NUL] + rest))
  {
    var file := line + ['\n'] + ([NUL] + rest);
    ChunkOfLine(line, [NUL] + rest, BUF_SIZE - 1);
    assert file[|line + ['\n']|..] == [NUL] + rest;
  }
}
