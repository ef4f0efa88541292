/** The history list of the line editor, its file format, and what comes back when a saved file is loaded. */
module History {
  import opened Sequences
  import opened Wrappers

  type Byte = b: int | 0 <= b < 256

  const NUL: Byte := 0
  const NL: Byte := 10
  const CR: Byte := 13
  const BACKSLASH: Byte := 92
  const LETTER_N: Byte := 110
  const LETTER_R: Byte := 114

  /** The bytes of a C string, without its terminator. */
  predicate CString(s: seq<Byte>) {
    NUL !in s
  }

  // ----- the escapes of the file -----

  function EncodeByte(c: Byte): seq<Byte> {
    if c == BACKSLASH then [BACKSLASH, BACKSLASH]
    else if c == NL then [BACKSLASH, LETTER_N]
    else if c == CR then [BACKSLASH, LETTER_R]
    else [c]
  }

  function Encode(s: seq<Byte>): seq<Byte> {
    if s == [] then [] else EncodeByte(s[0]) + Encode(s[1..])
  }

  /** The line does not end in the middle of an escape, as far as it is looked at: up to a NUL that is not escaped. */
  predicate Complete(s: seq<Byte>) {
    s == [] || s[0] == NUL || if s[0] == BACKSLASH then |s| > 1 && Complete(s[2..]) else Complete(s[1..])
  }

  function Unescape(c: Byte): Byte {
    if c == LETTER_N then NL else if c == LETTER_R then CR else c
  }

  function Decode(s: seq<Byte>): seq<Byte>
    requires Complete(s)
  {
    if s == [] || s[0] == NUL then []
    else if s[0] == BACKSLASH then [Unescape(s[1])] + Decode(s[2..])
    else [s[0]] + Decode(s[1..])
  }

  lemma {:induction false} EncodeIsLine(s: seq<Byte>)
    ensures NL !in Encode(s) && CR !in Encode(s) && (Encode(s) == [] <==> s == [])
    ensures CString(s) ==> CString(Encode(s))
  {
    if s != [] {
      EncodeIsLine(s[1..]);
    }
  }

  /** What is written for an entry is one line, is complete, and stands for the entry. */
  lemma {:induction false} DecodeEncode(s: seq<Byte>)
    requires CString(s)
    ensures Complete(Encode(s)) && Decode(Encode(s)) == s
    ensures NL !in Encode(s) && CR !in Encode(s) && CString(Encode(s)) && (Encode(s) == [] <==> s == [])
  {
    EncodeIsLine(s);
    if s != [] {
      DecodeEncode(s[1..]);
      DecodeFront(s[0], Encode(s[1..]));
    }
  }

  lemma {:induction false} DecodeFront(c: Byte, more: seq<Byte>)
    requires Complete(more) && c != NUL
    ensures Complete(EncodeByte(c) + more) && Decode(EncodeByte(c) + more) == [c] + Decode(more)
  {
    var e := EncodeByte(c);
    if |e| == 2 {
      DecodeEscape(e[1], more);
      assert e == [BACKSLASH, e[1]] && Unescape(e[1]) == c;
    } else {
      assert ([c] + more)[1..] == more;
    }
  }

  lemma {:induction false} DecodeEscape(c: Byte, more: seq<Byte>)
    requires Complete(more)
    ensures Complete([BACKSLASH, c] + more) && Decode([BACKSLASH, c] + more) == [Unescape(c)] + Decode(more)
  {
    assert ([BACKSLASH, c] + more)[2..] == more;
  }

  lemma {:induction false} EncodeConcat(s: seq<Byte>, t: seq<Byte>)
    ensures Encode(s + t) == Encode(s) + Encode(t)
  {
    if s == [] {
      assert s + t == t;
    } else {
      assert (s + t)[1..] == s[1..] + t;
      EncodeConcat(s[1..], t);
      Assoc(EncodeByte(s[0]), Encode(s[1..]), Encode(t));
    }
  }

  lemma {:induction false} EncodePlain(s: seq<Byte>)
    requires NL !in s && CR !in s && BACKSLASH !in s
    ensures Encode(s) == s
  {
    if s != [] {
      EncodePlain(s[1..]);
    }
  }

  /** What is written for an entry of two lines, of two old Macintosh lines, and with a backslash in it. */
  lemma {:induction false} EscapesOf(a: seq<Byte>, b: seq<Byte>)
    requires NL !in a && CR !in a && BACKSLASH !in a && NL !in b && CR !in b && BACKSLASH !in b
    ensures Encode(a + ([NL] + b)) == a + ([92, 110] + b)
    ensures Encode(a + ([CR] + b)) == a + ([92, 114] + b)
    ensures Encode(a + ([BACKSLASH] + b)) == a + ([92, 92] + b)
  {
    EncodePlain(a);
    EncodePlain(b);
    EscapeBetween(a, NL, b);
    EscapeBetween(a, CR, b);
    EscapeBetween(a, BACKSLASH, b);
  }

  lemma {:induction false} EscapeBetween(a: seq<Byte>, c: Byte, b: seq<Byte>)
    ensures Encode(a + ([c] + b)) == Encode(a) + (EncodeByte(c) + Encode(b))
  {
    EncodeConcat(a, [c] + b);
    assert ([c] + b)[1..] == b;
  }

  /** The C string at the start of a buffer. */
  function UpToNul(s: seq<Byte>): (r: seq<Byte>)
    ensures CString(r) && r <= s && (CString(s) ==> r == s)
  {
    if s == [] || s[0] == NUL then [] else [s[0]] + UpToNul(s[1..])
  }

  // ----- lines of a file -----

  /** The place of the first line end, or the end of the file. */
  function LineEnd(file: seq<Byte>): (n: nat)
    ensures n <= |file| && NL !in file[..n] && (n < |file| ==> file[n] == NL)
  {
    if file == [] || file[0] == NL then 0
    else
      var n := 1 + LineEnd(file[1..]);
      assert file[..n] == [file[0]] + file[1..][..n - 1];
      n
  }

  function WithoutCr(s: seq<Byte>): seq<Byte> {
    if s == [] then [] else if s[0] == CR then WithoutCr(s[1..]) else [s[0]] + WithoutCr(s[1..])
  }

  /** What follows the first line. */
  function Rest(file: seq<Byte>): (r: seq<Byte>)
    ensures file != [] ==> |r| < |file|
  {
    var n := LineEnd(file);
    if n < |file| then file[n + 1..] else []
  }

  /** The lines that are read one after the other, until one is missing or empty. */
  function LinesRead(file: seq<Byte>): seq<seq<Byte>>
    decreases |file|
  {
    if file == [] then []
    else
      var line := WithoutCr(file[..LineEnd(file)]);
      if line == [] then [] else [line] + LinesRead(Rest(file))
  }

  /** The file that is written for `entries`. */
  function File(entries: seq<seq<Byte>>): seq<Byte> {
    if entries == [] then [] else Encode(entries[0]) + [NL] + File(entries[1..])
  }

  /** The entries before the first empty one. */
  function BeforeEmpty(entries: seq<seq<Byte>>): seq<seq<Byte>> {
    if entries == [] || entries[0] == [] then [] else [entries[0]] + BeforeEmpty(entries[1..])
  }

  function EncodeAll(entries: seq<seq<Byte>>): (r: seq<seq<Byte>>)
    ensures |r| == |entries|
  {
    if entries == [] then [] else [Encode(entries[0])] + EncodeAll(entries[1..])
  }

  lemma {:induction false} NoCr(s: seq<Byte>)
    requires CR !in s
    ensures WithoutCr(s) == s
  {
    if s != [] {
      NoCr(s[1..]);
    }
  }

  lemma {:induction false} LineEndAt(line: seq<Byte>, more: seq<Byte>)
    requires NL !in line
    ensures LineEnd(line + [NL] + more) == |line|
  {
    var file := line + [NL] + more;
    if line != [] {
      assert file[1..] == line[1..] + [NL] + more && file[0] == line[0];
      LineEndAt(line[1..], more);
    }
  }

  /** Reading a saved file gives the encoded entries, up to the first empty one: an empty line reads like the end. */
  lemma {:induction false} LinesOfFile(entries: seq<seq<Byte>>)
    ensures LinesRead(File(entries)) == EncodeAll(BeforeEmpty(entries))
  {
    if entries != [] {
      var line, file := Encode(entries[0]), File(entries);
      EncodeIsLine(entries[0]);
      LineEndAt(line, File(entries[1..]));
      NoCr(line);
      assert file[..|line|] == line && file[|line| + 1..] == File(entries[1..]);
      LinesOfFile(entries[1..]);
    }
  }

  // ----- the history list -----

  /** linenoiseHistoryAddAllocated: no immediate repetition, and the oldest entry gives way. */
  function Added(h: seq<seq<Byte>>, maxLen: nat, line: seq<Byte>): seq<seq<Byte>> {
    if maxLen == 0 || (h != [] && h[|h| - 1] == line) then h
    else (if |h| == maxLen then h[1..] else h) + [line]
  }

  function AddedAll(h: seq<seq<Byte>>, maxLen: nat, lines: seq<seq<Byte>>): seq<seq<Byte>>
    decreases |lines|
  {
    if lines == [] then h else AddedAll(Added(h, maxLen, lines[0]), maxLen, lines[1..])
  }

  ghost predicate AllCStrings(h: seq<seq<Byte>>) {
    forall i | 0 <= i < |h| :: CString(h[i])
  }

  /** What every history looks like: C strings, no immediate repetition, not too long. */
  ghost predicate Proper(h: seq<seq<Byte>>, maxLen: nat) {
    AllCStrings(h) && |h| <= maxLen && forall i, j | 0 <= i < j < |h| && j == i + 1 :: h[i] != h[j]
  }

  lemma {:induction false} AddedProper(h: seq<seq<Byte>>, maxLen: nat, line: seq<Byte>)
    requires Proper(h, maxLen) && CString(line)
    ensures Proper(Added(h, maxLen, line), maxLen)
    ensures maxLen > 0 ==> Added(h, maxLen, line) != [] && Added(h, maxLen, line)[|Added(h, maxLen, line)| - 1] == line
  {
  }

  /** Entries that make a proper history with what is there are all taken. */
  lemma {:induction false} AllTaken(h: seq<seq<Byte>>, maxLen: nat, lines: seq<seq<Byte>>)
    requires Proper(h + lines, maxLen)
    ensures AddedAll(h, maxLen, lines) == h + lines
    decreases |lines|
  {
    if lines == [] {
      assert h + lines == h;
    } else {
      assert h != [] ==> (h + lines)[|h| - 1] != (h + lines)[|h|];
      assert Added(h, maxLen, lines[0]) == h + [lines[0]];
      assert h + [lines[0]] + lines[1..] == h + lines;
      AllTaken(h + [lines[0]], maxLen, lines[1..]);
    }
  }

  lemma {:induction false} BeforeEmptyIsPrefix(entries: seq<seq<Byte>>)
    ensures BeforeEmpty(entries) <= entries && [] !in BeforeEmpty(entries)
    ensures BeforeEmpty(entries) == entries <==> [] !in entries
  {
    if entries != [] && entries[0] != [] {
      BeforeEmptyIsPrefix(entries[1..]);
      assert entries == [entries[0]] + entries[1..];
    }
  }

  predicate AllComplete(lines: seq<seq<Byte>>) {
    forall i | 0 <= i < |lines| :: Complete(lines[i])
  }

  /** The entry that a line stands for. */
  function EntryOf(line: seq<Byte>): (entry: seq<Byte>)
    requires Complete(line)
    ensures CString(entry)
  {
    UpToNul(Decode(line))
  }

  function EntriesOf(lines: seq<seq<Byte>>): seq<seq<Byte>>
    requires AllComplete(lines)
  {
    if lines == [] then [] else [EntryOf(lines[0])] + EntriesOf(lines[1..])
  }

  lemma {:induction false} DecodeEncodeAll(entries: seq<seq<Byte>>)
    requires AllCStrings(entries)
    ensures AllComplete(EncodeAll(entries))
    ensures EntriesOf(EncodeAll(entries)) == entries
  {
    if entries != [] {
      assert CString(entries[0]);
      DecodeEncode(entries[0]);
      DecodeEncodeAll(entries[1..]);
      var r := EncodeAll(entries);
      assert r[1..] == EncodeAll(entries[1..]);
      forall i | 0 <= i < |entries| ensures Complete(r[i]) {
        if i > 0 {
          assert r[i] == r[1..][i - 1];
        }
      }
    }
  }

  /** What loading a file makes of the history `h`. */
  function Loaded(h: seq<seq<Byte>>, maxLen: nat, file: seq<Byte>): seq<seq<Byte>>
    requires AllComplete(LinesRead(file))
  {
    AddedAll(h, maxLen, EntriesOf(LinesRead(file)))
  }

  /** Loading a saved history into any history adds the entries before the first empty one. */
  lemma {:induction false} LoadSaved(h: seq<seq<Byte>>, maxLen: nat, entries: seq<seq<Byte>>)
    requires AllCStrings(entries)
    ensures AllComplete(LinesRead(File(entries)))
    ensures Loaded(h, maxLen, File(entries)) == AddedAll(h, maxLen, BeforeEmpty(entries))
  {
    LinesOfFile(entries);
    BeforeEmptyIsPrefix(entries);
    var front := BeforeEmpty(entries);
    assert forall i | 0 <= i < |front| :: front[i] == entries[i];
    DecodeEncodeAll(BeforeEmpty(entries));
  }

  /**
   * Saving a history and loading it into an empty one gives it back exactly when it has no empty entry;
   * otherwise it gives the part before the first empty one.
   */
  lemma {:induction false} RoundTrip(entries: seq<seq<Byte>>, maxLen: nat)
    requires Proper(entries, maxLen)
    ensures AllComplete(LinesRead(File(entries)))
    ensures Loaded([], maxLen, File(entries)) == BeforeEmpty(entries) <= entries
    ensures Loaded([], maxLen, File(entries)) == entries <==> [] !in entries
  {
    LoadSaved([], maxLen, entries);
    BeforeEmptyIsPrefix(entries);
    FrontTaken(entries, BeforeEmpty(entries), maxLen);
  }

  lemma {:induction false} FrontTaken(entries: seq<seq<Byte>>, front: seq<seq<Byte>>, maxLen: nat)
    requires Proper(entries, maxLen) && front <= entries
    ensures AddedAll([], maxLen, front) == front
  {
    assert [] + front == front;
    assert forall i | 0 <= i < |front| :: front[i] == entries[i];
    AllTaken([], maxLen, front);
  }

  /** An entry that is lost with all that follow it. */
  lemma {:induction false} EmptyEntryEndsLoading()
    ensures Proper([[65], [], [66]], 100) && BeforeEmpty([[65], [], [66]]) == [[65]]
  {
    var h: seq<seq<Byte>> := [[65], [], [66]];
    assert h[1..] == [[], [66]];
    assert BeforeEmpty(h[1..]) == [];
  }

  /** A line that is one backslash: the decoder steps over the terminator. */
  lemma {:induction false} LoneBackslash()
    ensures LinesRead([BACKSLASH, NL]) == [[BACKSLASH]] && !AllComplete(LinesRead([BACKSLASH, NL]))
  {
    var file: seq<Byte>, line: seq<Byte> := [BACKSLASH, NL], [BACKSLASH];
    LineEndIs(file, 1);
    NoCr(line);
    assert file[..1] == line && file[2..] == [];
    assert LinesRead(file) == [line] + LinesRead(Rest(file)) && !Complete(LinesRead(file)[0]);
  }

  lemma {:induction false} WithoutCrConcat(a: seq<Byte>, b: seq<Byte>)
    ensures WithoutCr(a + b) == WithoutCr(a) + WithoutCr(b)
  {
    if a == [] {
      assert a + b == b;
    } else {
      assert (a + b)[1..] == a[1..] + b;
      WithoutCrConcat(a[1..], b);
    }
  }

  /** Carriage returns are never seen: a file that was written with CR LF at the line ends reads like the one without. */
  lemma {:induction false} CrIsInvisible(file: seq<Byte>)
    ensures LinesRead(WithoutCr(file)) == LinesRead(file)
    decreases |file|
  {
    if file != [] {
      var n := LineEnd(file);
      var line, seen := file[..n], WithoutCr(file[..n]);
      WithoutCrMembers(line);
      NoCr(seen);
      if n < |file| {
        var rest := WithoutCr(Rest(file));
        assert file == line + ([NL] + Rest(file));
        WithoutCrConcat(line, [NL] + Rest(file));
        assert ([NL] + Rest(file))[1..] == Rest(file);
        assert WithoutCr(file) == seen + [NL] + rest;
        LineEndAt(seen, rest);
        assert WithoutCr(file)[..|seen|] == seen && Rest(WithoutCr(file)) == rest;
        CrIsInvisible(Rest(file));
      } else {
        assert line == file;
        LineEndIs(seen, |seen|);
        assert seen[..|seen|] == seen;
      }
    }
  }

  // ----- the code -----

  lemma {:induction false} LineEndIs(file: seq<Byte>, n: nat)
    requires n <= |file| && NL !in file[..n] && (n < |file| ==> file[n] == NL)
    ensures LineEnd(file) == n
  {
    var e := LineEnd(file);
    assert forall x | 0 <= x < n :: file[..n][x] == file[x];
    assert forall x | 0 <= x < e :: file[..e][x] == file[x];
    var atE, atN := if e < |file| then file[e] else NUL, if n < |file| then file[n] else NUL;
  }

  lemma {:induction false} WithoutCrMore(s: seq<Byte>, c: Byte)
    ensures WithoutCr(s + [c]) == WithoutCr(s) + if c == CR then [] else [c]
  {
    if s == [] {
      assert s + [c] == [c] && [c][1..] == [];
    } else {
      assert (s + [c])[1..] == s[1..] + [c] && (s + [c])[0] == s[0];
      WithoutCrMore(s[1..], c);
    }
  }

  /** sb_getline on what is left of a file: None when nothing was stored, at the end or for an empty line. */
  method GetLine(file: seq<Byte>, pos: nat) returns (line: Option<seq<Byte>>, next: nat)
    requires pos <= |file|
    ensures pos <= next <= |file| && file[next..] == Rest(file[pos..])
    ensures
      var first := WithoutCr(file[pos..][..LineEnd(file[pos..])]);
      line == if first == [] then None else Some(first)
  {
    hide LineEnd;
    var sb: seq<Byte> := [];
    next := pos;
    assert file[pos..next] == [];
    while next < |file| && file[next] != NL
      invariant pos <= next <= |file| && sb == WithoutCr(file[pos..next]) && NL !in file[pos..next]
    {
      WithoutCrMore(file[pos..next], file[next]);
      assert file[pos..next + 1] == file[pos..next] + [file[next]];
      if file[next] != CR {
        sb := sb + [file[next]];
      }
      next := next + 1;
    }
    ghost var rest, n := file[pos..], next - pos;
    assert rest[..n] == file[pos..next];
    LineEndIs(rest, n);
    if next < |file| {
      assert rest[n + 1..] == file[next + 1..];
      next := next + 1;
    }
    line := if sb == [] then None else Some(sb);
  }

  /** The next character of a line, plain or escaped. */
  lemma {:induction false} DecodeMore(line: seq<Byte>, src: nat, out: seq<Byte>)
    requires src < |line| && line[src] != NUL
    ensures line[src] != BACKSLASH ==>
      && (Complete(line[src..]) <==> Complete(line[src + 1..]))
      && (Complete(line[src..]) ==> out + Decode(line[src..]) == (out + [line[src]]) + Decode(line[src + 1..]))
    ensures line[src] == BACKSLASH && src + 1 < |line| ==>
      && (Complete(line[src..]) <==> Complete(line[src + 2..]))
      && (Complete(line[src..]) ==> out + Decode(line[src..]) == (out + [Unescape(line[src + 1])]) + Decode(line[src + 2..]))
    ensures line[src] == BACKSLASH && src + 1 == |line| ==> !Complete(line[src..])
  {
    assert line[src..][1..] == line[src + 1..];
    if src + 1 < |line| {
      assert line[src..][2..] == line[src + 2..];
    }
  }

  /**
   * The decoding loop of linenoiseHistoryLoad, in place on a terminated buffer, which may have other NULs in it. It
   * never writes ahead of what it reads, and it stays within the buffer exactly when the line does not end in the
   * middle of an escape; otherwise `inside` is false, at the point where the source steps over the terminator.
   */
  method DecodeInPlace(buf: array<Byte>) returns (inside: bool, len: nat)
    requires buf.Length > 0 && buf[buf.Length - 1] == NUL
    modifies buf
    ensures inside <==> Complete(old(buf[..buf.Length - 1]))
    ensures inside ==> len < buf.Length && buf[len] == NUL && buf[..len] == Decode(old(buf[..buf.Length - 1]))
  {
    var src, dest := 0, 0;
    var n := buf.Length - 1;
    ghost var line := buf[..n];
    assert line[0..] == line;
    while buf[src] != NUL
      invariant dest <= src <= n && buf[n] == NUL
      invariant forall x | src <= x < n :: buf[x] == line[x]
      invariant Complete(line) <==> Complete(line[src..])
      invariant Complete(line) ==> Decode(line) == buf[..dest] + Decode(line[src..])
      decreases n - src
    {
      var ch := buf[src];
      DecodeMore(line, src, buf[..dest]);
      if ch == BACKSLASH {
        src := src + 1;
        if src == n {
          return false, 0;
        }
        ch := if buf[src] == LETTER_N then NL else if buf[src] == LETTER_R then CR else buf[src];
      }
      Put(buf, dest, ch);
      dest := dest + 1;
      src := src + 1;
    }
    buf[dest] := NUL;
    inside, len := true, dest;
  }

  method Put(buf: array<Byte>, dest: nat, ch: Byte)
    requires dest < buf.Length
    modifies buf
    ensures buf[..dest + 1] == old(buf[..dest]) + [ch]
    ensures forall x | dest < x < buf.Length :: buf[x] == old(buf[x])
  {
    buf[dest] := ch;
  }

  /** The history of the process. */
  class Editor {
    var history: seq<seq<Byte>>
    var maxLen: nat

    ghost predicate Valid()
      reads this
    {
      Proper(history, maxLen)
    }

    constructor (maxLen: nat)
      ensures Valid() && history == [] && this.maxLen == maxLen
    {
      history, this.maxLen := [], maxLen;
    }

    /** linenoiseHistoryAdd: 1 if the line was inserted. */
    method Add(line: seq<Byte>) returns (inserted: bool)
      requires Valid() && CString(line)
      modifies this`history
      ensures Valid() && history == Added(old(history), maxLen, line)
      ensures inserted <==> maxLen > 0 && (old(history) == [] || old(history)[|old(history)| - 1] != line)
      ensures !inserted ==> history == old(history)
      ensures inserted ==>
        && |history| == (if |old(history)| < maxLen then |old(history)| + 1 else maxLen)
        && history == old(history)[|old(history)| + 1 - |history|..] + [line]
    {
      if maxLen == 0 || (|history| > 0 && history[|history| - 1] == line) {
        return false;
      }
      AddedProper(history, maxLen, line);
      if |history| == maxLen {
        history := history[1..];
      }
      history := history + [line];
      inserted := true;
    }

    /** linenoiseHistorySetMaxLen: the oldest entries give way. */
    method SetMaxLen(len: int) returns (done: bool)
      requires Valid()
      modifies this
      ensures Valid() && (done <==> len >= 1)
      ensures !done ==> unchanged(this)
      ensures done ==> maxLen == len && |history| == (if |old(history)| < len then |old(history)| else len)
      ensures done ==> history == old(history)[|old(history)| - |history|..]
    {
      if len < 1 {
        return false;
      }
      var toCopy := |history|;
      if len < toCopy {
        toCopy := len;
      }
      var k := |history| - toCopy;
      assert forall i | 0 <= i < toCopy :: history[k..][i] == history[k + i];
      history, maxLen := history[k..], len;
      done := true;
    }

    /** linenoiseHistorySave: the bytes that are written. */
    method Save() returns (file: seq<Byte>)
      ensures file == File(history)
    {
      file := [];
      assert history[0..] == history;
      for j := 0 to |history|
        invariant file + File(history[j..]) == File(history)
      {
        FileMore(file, history, j);
        file := SaveEntry(file, history[j]);
      }
      assert history[|history|..] == [];
    }

    /** linenoiseHistoryLoad, unless a line ends in the middle of an escape. */
    method Load(file: seq<Byte>) returns (inside: bool)
      requires Valid()
      modifies this`history
      ensures Valid()
      ensures inside <==> AllComplete(LinesRead(file))
      ensures inside ==> history == Loaded(old(history), maxLen, file)
    {
      var pos := 0;
      ghost var lines := LinesRead(file);
      assert file[pos..] == file;
      while true
        invariant pos <= |file| && Valid() && lines == LinesRead(file[pos..])
        invariant AllComplete(lines) <==> AllComplete(LinesRead(file))
        invariant AllComplete(lines) ==> AddedAll(history, maxLen, EntriesOf(lines)) == Loaded(old(history), maxLen, file)
        decreases |lines|
      {
        var line, next := GetLine(file, pos);
        if line.None? {
          return true;
        }
        var ok, entry := DecodeLine(line.value);
        CompleteFirst(lines);
        if !ok {
          return false;
        }
        var _ := Add(entry);
        pos, lines := next, lines[1..];
      }
    }
  }

  lemma {:induction false} CompleteFirst(lines: seq<seq<Byte>>)
    requires lines != []
    ensures AllComplete(lines) <==> Complete(lines[0]) && AllComplete(lines[1..])
  {
    assert forall i | 0 < i < |lines| :: lines[i] == lines[1..][i - 1];
  }

  lemma {:induction false} FileMore(file: seq<Byte>, entries: seq<seq<Byte>>, j: nat)
    requires j < |entries|
    ensures file + File(entries[j..]) == (file + Encode(entries[j]) + [NL]) + File(entries[j + 1..])
  {
    assert entries[j..][1..] == entries[j + 1..];
    Regroup(file, Encode(entries[j]), [NL], File(entries[j + 1..]));
  }

  lemma {:induction false} Regroup(a: seq<Byte>, b: seq<Byte>, c: seq<Byte>, d: seq<Byte>)
    ensures a + ((b + c) + d) == ((a + b) + c) + d
  {
  }

  /** One entry, as one line. */
  method SaveEntry(file: seq<Byte>, str: seq<Byte>) returns (r: seq<Byte>)
    ensures r == file + Encode(str) + [NL]
  {
    r := file;
    assert str[0..] == str;
    for i := 0 to |str|
      invariant r + Encode(str[i..]) == file + Encode(str)
    {
      assert str[i..][1..] == str[i + 1..];
      var c, more := EncodeByte(str[i]), Encode(str[i + 1..]);
      assert r + (c + more) == (r + c) + more;
      r := r + c;
    }
    assert str[|str|..] == [];
    r := r + [NL];
  }

  /** One line, decoded in a buffer of its own. */
  method DecodeLine(line: seq<Byte>) returns (inside: bool, entry: seq<Byte>)
    ensures inside <==> Complete(line)
    ensures inside ==> entry == EntryOf(line)
  {
    var buf := ToBuffer(line);
    var len;
    inside, len := DecodeInPlace(buf);
    entry := if inside then UpToNul(buf[..len]) else [];
  }

  /** A terminated copy. */
  method ToBuffer(s: seq<Byte>) returns (buf: array<Byte>)
    ensures fresh(buf) && buf.Length == |s| + 1 && buf[..|s|] == s && buf[|s|] == NUL
  {
    buf := new Byte[|s| + 1](i => if 0 <= i < |s| then s[i] else NUL);
  }

  /** A history that is saved and loaded into a new one comes back as far as its first empty entry. */
  method SaveAndLoad(editor: Editor) returns (loaded: Editor)
    requires editor.Valid()
    ensures fresh(loaded) && loaded.Valid() && loaded.maxLen == editor.maxLen
    ensures loaded.history == BeforeEmpty(editor.history)
    ensures loaded.history == editor.history <==> [] !in editor.history
  {
    var file := editor.Save();
    loaded := new Editor(editor.maxLen);
    RoundTrip(editor.history, editor.maxLen);
    var inside := loaded.Load(file);
    assert inside;
  }

  lemma {:induction false} WithoutCrMembers(s: seq<Byte>)
    ensures forall c | c in WithoutCr(s) :: c in s && c != CR
  {
    if s != [] {
      WithoutCrMembers(s[1..]);
    }
  }
}
