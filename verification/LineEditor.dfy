/**
 * The line editor: a byte buffer with a character count and a cursor measured in characters, against a line of code
 * points; and what the editing keys make of the line.
 */
module LineEditor {
  import opened Wrappers
  import opened Text

  // ----- lines of code points -----

  /** The characters, the cursor, and what has been cut. */
  datatype Line = Line(text: seq<Code>, pos: nat, cut: Option<seq<Code>>)

  const SPACE: Code := 32

  function Insert(l: Line, at: int, chars: seq<Code>): (r: Line)
    ensures 0 <= at <= |l.text| ==> |r.text| == |l.text| + |chars|
  {
    if 0 <= at <= |l.text| then
      Line(l.text[..at] + chars + l.text[at..], if l.pos >= at then l.pos + |chars| else l.pos, l.cut)
    else l
  }

  /** The character at `at` goes; a cursor behind it follows. */
  function Remove(l: Line, at: int): Line {
    if 0 <= at < |l.text| then
      Line(l.text[..at] + l.text[at + 1..], if l.pos > at then l.pos - 1 else l.pos, l.cut)
    else l
  }

  /** Up to `n` characters from `at` on are cut; all of them have to be there to be kept for yanking. */
  function Kill(l: Line, at: nat, n: nat): Line
    requires at <= |l.text|
  {
    var end := if at + n <= |l.text| then at + n else |l.text|;
    Line(
      l.text[..at] + l.text[end..],
      if l.pos > end then l.pos - (end - at) else if l.pos > at then at else l.pos,
      if n > 0 && at + n <= |l.text| then Some(l.text[at..end]) else l.cut)
  }

  function SpacesBack(text: seq<Code>, p: nat): (r: nat)
    requires p <= |text|
    ensures r <= p
  {
    if p > 0 && text[p - 1] == SPACE then SpacesBack(text, p - 1) else p
  }

  function WordBack(text: seq<Code>, p: nat): (r: nat)
    requires p <= |text|
    ensures r <= p
  {
    if p > 0 && text[p - 1] != SPACE then WordBack(text, p - 1) else p
  }

  predicate Proper(l: Line) {
    l.pos <= |l.text|
  }

  function KillLeft(l: Line): Line
    requires Proper(l)
  {
    Kill(l, 0, l.pos)
  }

  function KillRight(l: Line): Line
    requires Proper(l)
  {
    Kill(l, l.pos, |l.text| - l.pos)
  }

  function KillWord(l: Line): Line
    requires Proper(l)
  {
    var start := WordBack(l.text, SpacesBack(l.text, l.pos));
    Kill(l, start, l.pos - start)
  }

  function Yank(l: Line): Line
    requires Proper(l)
  {
    if l.cut.Some? then Insert(l, l.pos, l.cut.value) else l
  }

  /** The character at the cursor, or the last one, goes in front of the one before. */
  function Transpose(l: Line): Line
    requires Proper(l)
  {
    if l.pos == 0 then l
    else
      var i := if l.pos == |l.text| then l.pos - 1 else l.pos;
      var rest := Remove(l, i);
      Insert(rest, rest.pos - 1, [l.text[i]])
  }

  // ----- what the keys do to a line -----

  lemma {:induction false} PutBack(t: seq<Code>, a: nat, b: nat)
    requires a <= b <= |t|
    ensures
      var rest := t[..a] + t[b..];
      rest[..a] + t[a..b] + rest[a..] == t
  {
    var rest := t[..a] + t[b..];
    assert rest[..a] == t[..a] && rest[a..] == t[b..];
  }

  /** What has been cut is all there, and comes back where it was: the text is the old one. */
  lemma {:induction false} KillRightYank(l: Line)
    requires Proper(l) && l.pos < |l.text|
    ensures Yank(KillRight(l)).text == l.text && Yank(KillRight(l)).pos == |l.text|
  {
    PutBack(l.text, l.pos, |l.text|);
  }

  lemma {:induction false} KillLeftYank(l: Line)
    requires Proper(l) && l.pos > 0
    ensures Yank(KillLeft(l)).text == l.text && Yank(KillLeft(l)).pos == l.pos
  {
    PutBack(l.text, 0, l.pos);
  }

  lemma {:induction false} KillWordYank(l: Line)
    requires Proper(l) && l.pos > 0
    ensures Yank(KillWord(l)).text == l.text && Yank(KillWord(l)).pos == l.pos
    ensures |KillWord(l).text| < |l.text|
  {
    var start := WordBack(l.text, SpacesBack(l.text, l.pos));
    assert start < l.pos;
    PutBack(l.text, start, l.pos);
  }

  /** What is cut is one word and the spaces behind it, and begins the line or follows a space. */
  lemma {:induction false} WordIsWord(text: seq<Code>, p: nat)
    requires p <= |text|
    ensures
      var end := SpacesBack(text, p);
      var start := WordBack(text, end);
      && (forall i | start <= i < end :: text[i] != SPACE) && (forall i | end <= i < p :: text[i] == SPACE)
      && (start == 0 || text[start - 1] == SPACE) && (end == 0 || start < end)
    decreases p
  {
    SpacesAreSpaces(text, p);
    LettersAreLetters(text, SpacesBack(text, p));
  }

  /** From `start` to `p` there are one word and the spaces behind it, and `start` begins the line or follows a space. */
  ghost predicate WordAndSpaces(text: seq<Code>, start: int, end: int, p: int) {
    && 0 <= start <= end <= p <= |text| && (start > 0 ==> start < end && text[start - 1] == SPACE)
    && (forall i | start <= i < end :: text[i] != SPACE) && (forall i | end <= i < p :: text[i] == SPACE)
    && (p > 0 ==> start < p)
  }

  ghost predicate WordBefore(text: seq<Code>, start: int, p: int) {
    exists end :: WordAndSpaces(text, start, end, p)
  }

  lemma {:induction false} WordIsBefore(text: seq<Code>, p: nat)
    requires p <= |text|
    ensures WordBefore(text, WordBack(text, SpacesBack(text, p)), p)
  {
    WordIsWord(text, p);
    assert WordAndSpaces(text, WordBack(text, SpacesBack(text, p)), SpacesBack(text, p), p);
  }

  lemma {:induction false} KilledWord(l: Line)
    requires Proper(l)
    ensures
      var r := KillWord(l);
      && WordBefore(l.text, r.pos, l.pos) && r.text == l.text[..r.pos] + l.text[l.pos..]
      && (l.pos > 0 ==> r.pos < l.pos && r.cut == Some(l.text[r.pos..l.pos]))
  {
    WordIsBefore(l.text, l.pos);
  }

  lemma {:induction false} KilledRight(l: Line)
    requires Proper(l)
    ensures KillRight(l).text == l.text[..l.pos] && KillRight(l).pos == l.pos
    ensures l.pos < |l.text| ==> KillRight(l).cut == Some(l.text[l.pos..])
  {
    assert l.text[l.pos..|l.text|] == l.text[l.pos..];
  }

  lemma {:induction false} SpacesAreSpaces(text: seq<Code>, p: nat)
    requires p <= |text|
    ensures forall i | SpacesBack(text, p) <= i < p :: text[i] == SPACE
    ensures SpacesBack(text, p) > 0 ==> text[SpacesBack(text, p) - 1] != SPACE
  {
    if p > 0 && text[p - 1] == SPACE {
      SpacesAreSpaces(text, p - 1);
    }
  }

  lemma {:induction false} LettersAreLetters(text: seq<Code>, p: nat)
    requires p <= |text|
    ensures forall i | WordBack(text, p) <= i < p :: text[i] != SPACE
    ensures WordBack(text, p) > 0 ==> text[WordBack(text, p) - 1] == SPACE
  {
    if p > 0 && text[p - 1] != SPACE {
      LettersAreLetters(text, p - 1);
    }
  }

  /** It is two neighbours that change places, and the cursor is behind them. */
  lemma {:induction false} TransposeSwaps(l: Line)
    requires Proper(l) && l.pos > 0 && |l.text| > 1
    ensures
      var i := if l.pos == |l.text| then l.pos - 1 else l.pos;
      Transpose(l) == Line(l.text[i - 1 := l.text[i]][i := l.text[i - 1]], i + 1, l.cut)
  {
    var t, p := l.text, l.pos;
    var i := if p == |t| then p - 1 else p;
    var less := t[..i] + t[i + 1..];
    assert less[..i - 1] == t[..i - 1] && less[i - 1..] == [t[i - 1]] + t[i + 1..];
    assert Transpose(l).text == less[..i - 1] + [t[i]] + less[i - 1..];
    assert t[i - 1 := t[i]][i := t[i - 1]] == t[..i - 1] + [t[i]] + ([t[i - 1]] + t[i + 1..]);
  }

  /**
   * Transposing keeps the characters, except on a line of one character with the cursor behind it: there the
   * character is removed, and has no place to go to.
   */
  lemma {:induction false} TransposeKeeps(l: Line)
    requires Proper(l)
    ensures multiset(Transpose(l).text) == multiset(l.text) <==> !(|l.text| == 1 && l.pos == 1)
    ensures |l.text| == 1 && l.pos == 1 ==> Transpose(l).text == []
  {
    if l.pos > 0 && |l.text| > 1 {
      TransposeSwaps(l);
      SwapKeeps(l.text, if l.pos == |l.text| then l.pos - 1 else l.pos);
    } else if l.pos > 0 {
      assert l.text[0] in multiset(l.text);
    }
  }

  lemma {:induction false} SwapKeeps(t: seq<Code>, i: nat)
    requires 0 < i < |t|
    ensures multiset(t[i - 1 := t[i]][i := t[i - 1]]) == multiset(t)
  {
  }

  // ----- byte buffers -----

  /** stringbuf: its bytes up to `last`, and how many characters they are. */
  class StringBuf {
    const u: Codec
    var data: seq<Byte>
    var chars: int
    ghost var text: seq<Code>

    ghost predicate Valid()
      reads this
    {
      Faithful(u) && IsText(u, text) && data == Enc(u, text) && chars == |text|
    }

    constructor (u: Codec)
      requires Faithful(u)
      ensures Valid() && this.u == u && text == []
    {
      this.u, data, chars, text := u, [], 0, [];
    }

    /** sb_append_len */
    method Append(str: seq<Byte>, ghost added: seq<Code>)
      requires Valid() && IsText(u, added) && str == Enc(u, added)
      modifies this
      ensures Valid() && text == old(text) + added
    {
      EncMore(u, text, added);
      var n := StrLen(u, str, 0, |str|, added);
      data, chars := data + str, chars + n;
      text := text + added;
    }

    /** sb_insert: where character `at` begins. */
    method Insert(index: nat, str: seq<Byte>, ghost at: nat, ghost added: seq<Code>)
      requires Valid() && IsText(u, added) && str == Enc(u, added) && at <= |text| && index == Offset(u, text, at)
      modifies this
      ensures Valid() && text == old(text)[..at] + added + old(text)[at..]
    {
      SplitAt(u, text, at);
      if index >= |data| {
        AtEnd(u, text, at);
        Append(str, added);
        assert old(text)[..at] + added + [] == old(text) + added;
      } else {
        SplicedIn(u, text, at, added);
        var n := StrLen(u, str, 0, |str|, added);
        data, chars := data[..index] + str + data[index..], chars + n;
        text := text[..at] + added + text[at..];
      }
    }

    /** sb_delete, of the bytes of `n` characters: what it asserts holds. */
    method Delete(index: nat, len: nat, ghost at: nat, ghost n: nat)
      requires Valid() && at + n <= |text|
      requires index == Offset(u, text, at) && index + len == Offset(u, text, at + n)
      modifies this
      ensures Valid() && text == old(text)[..at] + old(text)[at + n..]
    {
      hide Enc;
      SplitAt(u, text, at);
      SplitAt(u, text, at + n);
      if index < |data| {
        assert index + len <= |data|;
        CutOut(u, text, at, n);
        var gone := StrLen(u, data, index, len, text[at..at + n]);
        data, chars := data[..index] + data[index + len..], chars - gone;
        text := text[..at] + text[at + n..];
      } else {
        AtEnd(u, text, at);
        assert text == text[..at] + text[at + n..];
      }
    }

    /** sb_clear */
    method Clear()
      requires Valid()
      modifies this
      ensures Valid() && text == []
    {
      data, chars := [], 0;
      text := [];
    }
  }

  /** Only the end of the text is at the end of the bytes. */
  lemma {:induction false} AtEnd(u: Codec, text: seq<Code>, at: nat)
    requires Faithful(u) && IsText(u, text) && at <= |text| && Offset(u, text, at) >= |Enc(u, text)|
    ensures at == |text| && text[..at] == text && text[at..] == []
  {
    SplitAt(u, text, at);
    NoNul(u, text[at..]);
  }

  lemma {:induction false} SplicedIn(u: Codec, text: seq<Code>, at: nat, added: seq<Code>)
    requires at <= |text|
    ensures
      var s, i := Enc(u, text), Offset(u, text, at);
      i <= |s| && Enc(u, text[..at] + added + text[at..]) == s[..i] + Enc(u, added) + s[i..]
  {
    SplitAt(u, text, at);
    EncMore(u, text[..at], added);
    EncMore(u, text[..at] + added, text[at..]);
  }

  lemma {:induction false} CutOut(u: Codec, text: seq<Code>, at: nat, n: nat)
    requires at + n <= |text| && IsText(u, text)
    ensures
      var s, i, j := Enc(u, text), Offset(u, text, at), Offset(u, text, at + n);
      && i <= j <= |s| && Enc(u, text[..at] + text[at + n..]) == s[..i] + s[j..]
      && Holds(u, s, i, text[at..at + n]) && |Enc(u, text[at..at + n])| == j - i
  {
    SplitAt(u, text, at);
    SplitAt(u, text, at + n);
    EncMore(u, text[..at], text[at + n..]);
    assert text[..at + n] == text[..at] + text[at..at + n];
    EncMore(u, text[..at], text[at..at + n]);
    var s, i, j := Enc(u, text), Offset(u, text, at), Offset(u, text, at + n);
    assert s[..j] == s[..i] + Enc(u, text[at..at + n]);
    assert s[i..j] == s[..j][i..];
  }

  // ----- the editor -----

  /** struct current: the line, the cursor, and the cut buffer. */
  class Editor {
    const u: Codec
    const buf: StringBuf
    var pos: int
    var capture: StringBuf?

    ghost predicate Valid()
      reads this, buf, capture
    {
      && buf.u == u && buf.Valid() && 0 <= pos <= |buf.text|
      && (capture != null ==> capture != buf && capture.u == u && capture.Valid())
    }

    ghost function View(): Line
      requires 0 <= pos
      reads this, buf, capture
    {
      Line(buf.text, pos, if capture != null then Some(capture.text) else None)
    }

    constructor (u: Codec)
      requires Faithful(u)
      ensures Valid() && View() == Line([], 0, None) && fresh(buf)
    {
      this.u, pos, capture := u, 0, null;
      buf := new StringBuf(u);
    }

    /** get_char */
    method GetChar(at: int) returns (c: int)
      requires Valid()
      ensures c == if 0 <= at < |buf.text| then buf.text[at] else -1
    {
      if at < 0 || at >= buf.chars {
        return -1;
      }
      WholeBuffer();
      var i := Index(u, buf.data, 0, at, buf.text);
      CanBeRead(u, buf.data, 0, buf.text);
      assert CharAt(u, buf.data, 0, buf.text, at);
      c := u.decode(buf.data, i).0;
    }

    lemma {:induction false} WholeBuffer()
      requires buf.Valid()
      ensures Holds(buf.u, buf.data, 0, buf.text)
    {
    }

    /** insert_char */
    method InsertChar(at: int, ch: Code) returns (done: bool)
      requires Valid() && u.valid(ch)
      modifies buf, this`pos
      ensures Valid() && View() == Insert(old(View()), at, [ch]) && done == (0 <= at <= old(|buf.text|))
      ensures !done ==> unchanged(this) && unchanged(buf)
      ensures done ==>
        && buf.text == old(buf.text)[..at] + [ch] + old(buf.text)[at..]
        && pos == old(pos) + if at <= old(pos) then 1 else 0
    {
      if at < 0 || at > buf.chars {
        return false;
      }
      WholeBuffer();
      var offset := Index(u, buf.data, 0, at, buf.text);
      var bytes := u.encode(ch);
      EncOne(u, ch);
      buf.Insert(offset, bytes, at, [ch]);
      if pos >= at {
        pos := pos + 1;
      }
      done := true;
    }

    /** remove_char */
    method RemoveChar(at: int) returns (done: bool)
      requires Valid()
      modifies buf, this`pos
      ensures Valid() && View() == Remove(old(View()), at) && done == (0 <= at < old(|buf.text|))
      ensures !done ==> unchanged(this) && unchanged(buf)
      ensures done ==>
        && buf.text == old(buf.text)[..at] + old(buf.text)[at + 1..]
        && pos == old(pos) - if at < old(pos) then 1 else 0
    {
      if at < 0 || at >= buf.chars {
        return false;
      }
      WholeBuffer();
      var offset := Index(u, buf.data, 0, at, buf.text);
      var nbytes := OneChar(at, offset);
      buf.Delete(offset, nbytes, at, 1);
      if pos > at {
        pos := pos - 1;
      }
      done := true;
    }

    /** utf8_index of one character, from `offset` on. */
    method OneChar(at: nat, offset: nat) returns (nbytes: nat)
      requires Valid() && at < |buf.text| && offset == Offset(u, buf.text, at)
      ensures offset + nbytes == Offset(u, buf.text, at + 1)
    {
      nbytes := SomeChars(at, offset, 1);
    }

    method SomeChars(at: nat, offset: nat, n: nat) returns (nbytes: nat)
      requires Valid() && at + n <= |buf.text| && offset == Offset(u, buf.text, at)
      ensures offset + nbytes == Offset(u, buf.text, at + n)
      ensures Holds(u, buf.data, offset, buf.text[at..at + n]) && nbytes == |Enc(u, buf.text[at..at + n])|
    {
      CutOut(u, buf.text, at, n);
      ghost var part := buf.text[at..at + n];
      nbytes := Index(u, buf.data, offset, n, part);
      CanBeRead(u, buf.data, offset, part);
    }

    /** capture_chars */
    method CaptureChars(at: int, n: nat)
      requires Valid()
      modifies this`capture, capture
      ensures Valid() && (capture == old(capture) || fresh(capture))
      ensures
        View() == if 0 <= at && n > 0 && at + n <= |buf.text| then old(View()).(cut := Some(buf.text[at..at + n]))
                  else old(View())
    {
      if at < 0 || at + n - 1 >= buf.chars {
        return;
      }
      WholeBuffer();
      var offset := Index(u, buf.data, 0, at, buf.text);
      var nbytes := SomeChars(at, offset, n);
      ghost var part := buf.text[at..at + n];
      NoNul(u, part);
      if nbytes > 0 {
        if capture != null {
          capture.Clear();
        } else {
          capture := new StringBuf(u);
        }
        capture.Append(buf.data[offset..offset + nbytes], part);
        assert [] + part == part;
      }
    }

    /** remove_chars: what goes has been cut, if all of it is there. */
    method RemoveChars(at: nat, n: nat) returns (removed: nat)
      requires Valid() && at <= |buf.text|
      modifies buf, this`pos, this`capture, capture
      ensures Valid() && (capture == old(capture) || fresh(capture)) && View() == Kill(old(View()), at, n)
      ensures removed == if at + n <= old(|buf.text|) then n else old(|buf.text|) - at
    {
      hide Enc, WordBack;
      CaptureChars(at, n);
      ghost var l := View();
      removed := 0;
      RemovedNone(l, at);
      var left: nat, more := n, true;
      while left > 0 && more
        invariant Valid() && (capture == old(capture) || fresh(capture))
        invariant removed <= n && at + removed <= |l.text| && View() == Removed(l, at, removed)
        invariant if more then left == n - removed else at + removed == |l.text|
        decreases left, more
      {
        left := left - 1;
        RemovedMore(l, at, removed);
        more := RemoveChar(at);
        if more {
          removed := removed + 1;
        }
      }
    }

    /** insert_chars */
    method InsertChars(at: nat, chars: seq<Byte>, ghost text: seq<Code>) returns (inserted: nat)
      requires Valid() && at <= |buf.text| && IsText(u, text) && chars == Enc(u, text)
      modifies buf, this`pos
      ensures Valid() && View() == Insert(old(View()), at, text) && inserted == |text|
    {
      ghost var l := View();
      assert Holds(u, chars, 0, text);
      CanBeRead(u, chars, 0, text);
      InsertedNone(l, at, text);
      inserted := 0;
      var i: nat := 0;
      while At(chars, i) != 0
        invariant Valid() && inserted <= |text| && i == Offset(u, text, inserted)
        invariant View() == Insert(l, at, text[..inserted])
        decreases |text| - inserted
      {
        NotAtEnd(u, text, inserted);
        assert CharAt(u, chars, 0, text, inserted);
        var (ch, n) := u.decode(chars, i);
        InsertedMore(l, at, text, inserted);
        var done := InsertChar(at + inserted, ch);
        inserted, i := inserted + 1, i + n;
      }
      NulAtEnd(u, text, inserted);
      assert text[..|text|] == text;
    }

    /** Ctrl-U */
    method DeleteToStart()
      requires Valid()
      modifies buf, this`pos, this`capture, capture
      ensures Valid() && View() == KillLeft(old(View()))
      ensures buf.text == old(buf.text)[old(pos)..] && pos == 0
      ensures old(pos) > 0 ==> View().cut == Some(old(buf.text)[..old(pos)])
    {
      var removed := RemoveChars(0, pos);
    }

    /** Ctrl-K */
    method DeleteToEnd()
      requires Valid()
      modifies buf, this`pos, this`capture, capture
      ensures Valid() && View() == KillRight(old(View()))
      ensures buf.text == old(buf.text)[..old(pos)] && pos == old(pos)
      ensures old(pos) < |old(buf.text)| ==> View().cut == Some(old(buf.text)[old(pos)..])
    {
      KilledRight(View());
      var removed := RemoveChars(pos, buf.chars - pos);
    }

    /** Ctrl-W */
    method DeleteWord()
      requires Valid()
      modifies buf, this`pos, this`capture, capture
      ensures Valid() && View() == KillWord(old(View()))
      ensures WordBefore(old(buf.text), pos, old(pos)) && buf.text == old(buf.text)[..pos] + old(buf.text)[old(pos)..]
      ensures old(pos) > 0 ==> pos < old(pos) && View().cut == Some(old(buf.text)[pos..old(pos)])
    {
      hide Enc, SpacesBack, WordBack, WordBefore;
      KilledWord(View());
      var start := WordStart(pos);
      var removed := RemoveChars(start, pos - start);
    }

    /** Where the word in front of the cursor begins. */
    method WordStart(cursor: nat) returns (p: nat)
      requires Valid() && cursor == pos
      ensures p == WordBack(buf.text, SpacesBack(buf.text, cursor))
    {
      p := cursor;
      var c := GetChar(p - 1);
      while p > 0 && c == SPACE
        invariant p <= cursor && c == (if p > 0 then buf.text[p - 1] else -1)
        invariant SpacesBack(buf.text, p) == SpacesBack(buf.text, cursor)
      {
        p := p - 1;
        c := GetChar(p - 1);
      }
      while p > 0 && c != SPACE
        invariant p <= cursor && c == (if p > 0 then buf.text[p - 1] else -1)
        invariant WordBack(buf.text, p) == WordBack(buf.text, SpacesBack(buf.text, cursor))
      {
        p := p - 1;
        c := GetChar(p - 1);
      }
    }

    /** Ctrl-Y */
    method InsertSaved()
      requires Valid()
      modifies buf, this`pos
      ensures Valid() && View() == Yank(old(View()))
      ensures match old(View()).cut
              case None => unchanged(this) && unchanged(buf)
              case Some(cut) =>
                && buf.text == old(buf.text)[..old(pos)] + cut + old(buf.text)[old(pos)..]
                && pos == old(pos) + |cut|
    {
      if capture != null {
        var inserted := InsertChars(pos, capture.data, capture.text);
      }
    }

    /** Ctrl-T */
    method TransposeChars()
      requires Valid()
      modifies buf, this`pos
      ensures Valid() && View() == Transpose(old(View()))
    {
      if pos > 0 && pos <= buf.chars {
        var fixer := if pos == buf.chars then 1 else 0;
        var c := GetChar(pos - fixer);
        var done := RemoveChar(pos - fixer);
        done := InsertChar(pos - 1, c);
      }
    }
  }

  /** `n` characters from `at` on are removed, one after the other. */
  function Removed(l: Line, at: nat, n: nat): Line
    requires at + n <= |l.text|
  {
    Line(
      l.text[..at] + l.text[at + n..], if l.pos > at + n then l.pos - n else if l.pos > at then at else l.pos, l.cut)
  }

  lemma {:induction false} RemovedNone(l: Line, at: nat)
    requires at <= |l.text|
    ensures Removed(l, at, 0) == l
  {
    assert l.text[..at] + l.text[at..] == l.text;
  }

  lemma {:induction false} RemovedMore(l: Line, at: nat, n: nat)
    requires at + n <= |l.text|
    ensures
      Remove(Removed(l, at, n), at) == if at + n < |l.text| then Removed(l, at, n + 1) else Removed(l, at, n)
  {
    var text := l.text[..at] + l.text[at + n..];
    if at + n < |l.text| {
      assert text[..at] + text[at + 1..] == l.text[..at] + l.text[at + n + 1..];
    }
  }

  lemma {:induction false} InsertedNone(l: Line, at: nat, text: seq<Code>)
    requires at <= |l.text|
    ensures Insert(l, at, text[..0]) == l
  {
    assert l.text[..at] + text[..0] + l.text[at..] == l.text;
  }

  lemma {:induction false} InsertedMore(l: Line, at: nat, text: seq<Code>, n: nat)
    requires at <= |l.text| && n < |text|
    ensures Insert(Insert(l, at, text[..n]), at + n, [text[n]]) == Insert(l, at, text[..n + 1])
  {
    var more := l.text[..at] + text[..n] + l.text[at..];
    assert more[..at + n] == l.text[..at] + text[..n] && more[at + n..] == l.text[at..];
    assert text[..n + 1] == text[..n] + [text[n]];
    assert l.text[..at] + text[..n] + [text[n]] == l.text[..at] + text[..n + 1];
  }

  /** The NUL byte is behind the last character, and nowhere else. */
  lemma {:induction false} NotAtEnd(u: Codec, text: seq<Code>, k: nat)
    requires k <= |text| && At(Enc(u, text), Offset(u, text, k)) != 0
    ensures k < |text|
  {
    SplitAt(u, text, k);
    assert text[..|text|] == text;
  }

  lemma {:induction false} NulAtEnd(u: Codec, text: seq<Code>, k: nat)
    requires Faithful(u) && IsText(u, text) && k <= |text| && At(Enc(u, text), Offset(u, text, k)) == 0
    ensures k == |text|
  {
    NoNul(u, text);
    SplitAt(u, text, k);
    NoNul(u, text[k..]);
  }
}
