/** Finding the runs of '*', '_' and '~' in the lines of a block, and what each of them may do. */
module Delimiters {
  import opened Lines
  import opened Marks

  // ----- sections 6.2 of the CommonMark and of the GFM specification -----

  /** Which characters are white space and which are punctuation. */
  datatype Classes = Classes(space: char -> bool, punct: char -> bool)

  predicate SpaceBefore(text: string, line: Line, a: nat, cl: Classes)
    requires line.beg <= a <= |text|
  {
    a == line.beg || cl.space(text[a - 1])
  }

  predicate PunctBefore(text: string, line: Line, a: nat, cl: Classes)
    requires line.beg <= a <= |text|
  {
    !SpaceBefore(text, line, a, cl) && cl.punct(text[a - 1])
  }

  predicate SpaceAfter(text: string, line: Line, b: nat, cl: Classes)
    requires b <= line.end <= |text|
  {
    b == line.end || cl.space(text[b])
  }

  predicate PunctAfter(text: string, line: Line, b: nat, cl: Classes)
    requires b <= line.end <= |text|
  {
    !SpaceAfter(text, line, b, cl) && cl.punct(text[b])
  }

  predicate LeftFlanking(text: string, line: Line, a: nat, b: nat, cl: Classes)
    requires line.beg <= a <= b <= line.end <= |text|
  {
    && !SpaceAfter(text, line, b, cl)
    && (!PunctAfter(text, line, b, cl) || SpaceBefore(text, line, a, cl) || PunctBefore(text, line, a, cl))
  }

  predicate RightFlanking(text: string, line: Line, a: nat, b: nat, cl: Classes)
    requires line.beg <= a <= b <= line.end <= |text|
  {
    && !SpaceBefore(text, line, a, cl)
    && (!PunctBefore(text, line, a, cl) || SpaceAfter(text, line, b, cl) || PunctAfter(text, line, b, cl))
  }

  /** Rules 1, 2, 5 and 6; a tilde only must not be followed by white space. */
  predicate CanOpen(text: string, line: Line, a: nat, b: nat, cl: Classes)
    requires line.beg <= a < b <= line.end <= |text|
  {
    if text[a] == '~' then !SpaceAfter(text, line, b, cl)
    else
      && LeftFlanking(text, line, a, b, cl)
      && (text[a] == '*' || !RightFlanking(text, line, a, b, cl) || PunctBefore(text, line, a, cl))
  }

  /** Rules 3, 4, 7 and 8; a tilde only must not follow white space. */
  predicate CanClose(text: string, line: Line, a: nat, b: nat, cl: Classes)
    requires line.beg <= a < b <= line.end <= |text|
  {
    if text[a] == '~' then !SpaceBefore(text, line, a, cl)
    else
      && RightFlanking(text, line, a, b, cl)
      && (text[a] == '*' || !LeftFlanking(text, line, a, b, cl) || PunctAfter(text, line, b, cl))
  }

  /** A longest run of one mark character within a line. */
  ghost predicate IsRun(text: string, line: Line, a: int, b: int) {
    && line.beg <= a < b <= line.end <= |text| && IsDelim(text[a])
    && (forall x | a <= x < b :: text[x] == text[a])
    && (a > line.beg ==> text[a - 1] != text[a]) && (b < line.end ==> text[b] != text[a])
  }

  /** The run counts: strikethrough is switched on and has one or two tildes. */
  predicate Counts(ch: char, len: int, strike: bool) {
    ch != '~' || (strike && len < 3)
  }

  /** Mark `x` tells the truth about a run of the line. */
  ghost predicate TrueMark(text: string, line: Line, cl: Classes, strike: bool, x: Mark) {
    && IsRun(text, line, x.beg, x.end) && x.ch == text[x.beg] && Counts(x.ch, x.Len(), strike)
    && x.canOpen == CanOpen(text, line, x.beg, x.end, cl)
    && x.canClose == CanClose(text, line, x.beg, x.end, cl)
    && (x.ch != '~' ==> x.oc == (x.canOpen && x.canClose) && x.mod3 == x.Len() % 3)
    && !x.resolved && !x.opener && !x.closer
  }

  // ----- how the marks grow -----

  function Dummies(a: nat, b: nat): (d: seq<Mark>)
    ensures |d| == if a <= b then b - a else 0
    ensures forall k | 0 <= k < |d| :: d[k] == Dummy(a + k)
  {
    if a >= b then [] else seq(b - a, k requires 0 <= k < b - a => Dummy(a + k))
  }

  function Dummy(off: nat): Mark {
    Mark(off, off, -1, -1, DUMMY, false, false, false, 0, false, false, false)
  }

  /** The mark of a run and the room for splitting it; only runs of '*' and '_' are ever split. */
  function Run(x: Mark): seq<Mark>
    requires x.beg < x.end
  {
    [x] + if IsEmph(x.ch) then Dummies(x.beg + 1, x.end) else []
  }

  /** The layout of marks that begin and end before `off`. */
  ghost predicate Growing(m: seq<Mark>, off: int) {
    && (forall j, k {:trigger Before(m, j, k)} | 0 <= j < k < |m| :: Before(m, j, k))
    && (forall k {:trigger Fits(m, k)} | 0 <= k < |m| && m[k].ch != DUMMY :: Fits(m, k))
    && (forall k | 0 <= k < |m| :: m[k].beg < off && m[k].end <= off)
    && (forall k | 0 <= k < |m| && m[k].ch == DUMMY :: !m[k].resolved && !m[k].opener && !m[k].closer)
  }

  ghost predicate Fits(m: seq<Mark>, k: nat)
    requires k < |m|
  {
    && IsDelim(m[k].ch) && Proper(m[k]) && m[k].beg < m[k].end
    && (IsEmph(m[k].ch) ==>
          && k + m[k].Len() <= |m|
          && forall j | k < j < k + m[k].Len() :: m[j].ch == DUMMY && m[j].beg == m[k].beg + (j - k))
    && (forall j | k < j < |m| && m[j].ch != DUMMY :: m[k].end <= m[j].beg)
  }

  lemma {:induction false} Grow(m: seq<Mark>, x: Mark)
    requires Growing(m, x.beg) && IsDelim(x.ch) && Proper(x) && x.beg < x.end
    ensures Growing(m + Run(x), x.end)
  {
    var r := m + Run(x);
    forall k | |m| < k < |r| ensures r[k] == Dummy(x.beg + k - |m|) {
    }
    forall j, k | 0 <= j < k < |r| ensures Before(r, j, k) {
      if k < |m| {
        assert Before(m, j, k);
      }
    }
    forall k | 0 <= k < |r| && r[k].ch != DUMMY ensures Fits(r, k) {
      if k < |m| {
        assert Fits(m, k);
      }
    }
  }

  lemma {:induction false} GrowLater(m: seq<Mark>, a: int, b: int)
    requires Growing(m, a) && a <= b
    ensures Growing(m, b)
  {
  }

  function Sentinel(size: nat): Mark {
    Mark(size, size, -1, -1, SENTINEL, false, false, false, 0, false, false, true)
  }

  lemma {:induction false} Grown(m: seq<Mark>, size: nat)
    requires Growing(m, size)
    ensures Layout(m + [Sentinel(size)])
  {
    var r := m + [Sentinel(size)];
    forall j, k | 0 <= j < k < |r| ensures Before(r, j, k) {
      if k < |m| {
        assert Before(m, j, k);
      }
    }
    forall k | 0 <= k < |r| && IsDelim(r[k].ch) ensures Room(r, k) {
      assert Fits(m, k);
    }
    forall k | 0 <= k < |r| ensures Proper(r[k]) {
      if k < |m| && r[k].ch != DUMMY {
        assert Fits(m, k);
      }
    }
    forall k | 0 <= k < |r| - 1 ensures r[k].ch == DUMMY || IsDelim(r[k].ch) {
      if m[k].ch != DUMMY {
        assert Fits(m, k);
      }
    }
  }

  // ----- md_collect_marks -----

  predicate IsMarkChar(ch: char, strike: bool) {
    IsEmph(ch) || (strike && ch == '~')
  }

  /** The run counts and may open or close something. */
  ghost predicate Matters(text: string, line: Line, cl: Classes, strike: bool, a: int, b: int) {
    && IsRun(text, line, a, b) && Counts(text[a], b - a, strike)
    && (CanOpen(text, line, a, b, cl) || CanClose(text, line, a, b, cl))
  }

  predicate Marked(m: seq<Mark>, from: nat, a: int, b: int) {
    exists k | from <= k < |m| :: m[k].ch != DUMMY && m[k].beg == a && m[k].end == b
  }

  /** The marks from index `from` on are true of `line`. */
  ghost predicate AllTrue(text: string, line: Line, cl: Classes, strike: bool, m: seq<Mark>, from: nat) {
    forall k {:trigger TrueMark(text, line, cl, strike, m[k])} | from <= k < |m| && m[k].ch != DUMMY ::
      TrueMark(text, line, cl, strike, m[k])
  }

  /** Every run of `line` before `off` that matters has a mark. */
  ghost predicate AllMarked(text: string, line: Line, cl: Classes, strike: bool, m: seq<Mark>, from: nat, off: int) {
    forall a, b {:trigger Matters(text, line, cl, strike, a, b)} | a < off && Matters(text, line, cl, strike, a, b) ::
      Marked(m, from, a, b)
  }

  lemma {:induction false} RunUnique(text: string, line: Line, a: int, b: int, c: int)
    requires IsRun(text, line, a, b) && IsRun(text, line, a, c)
    ensures b == c
  {
    var atB, atC := if b < line.end then text[b] else text[a], if c < line.end then text[c] else text[a];
  }

  /** What md_collect_marks works out about a run: potential opener, potential closer. */
  method Flags(text: string, line: Line, off: nat, tmp: nat, cl: Classes) returns (opener: bool, closer: bool)
    requires IsRun(text, line, off, tmp)
    ensures opener == CanOpen(text, line, off, tmp, cl) && closer == CanClose(text, line, off, tmp, cl)
    ensures text[off] == '*' ==>
      && opener == (!SpaceAfter(text, line, tmp, cl)
           && (PunctAfter(text, line, tmp, cl) ==> SpaceBefore(text, line, off, cl) || PunctBefore(text, line, off, cl)))
      && closer == (!SpaceBefore(text, line, off, cl)
           && (PunctBefore(text, line, off, cl) ==> SpaceAfter(text, line, tmp, cl) || PunctAfter(text, line, tmp, cl)))
    ensures text[off] == '_' ==>
      && (opener <==> !SpaceAfter(text, line, tmp, cl) && (SpaceBefore(text, line, off, cl) || PunctBefore(text, line, off, cl)))
      && (closer <==> !SpaceBefore(text, line, off, cl) && (SpaceAfter(text, line, tmp, cl) || PunctAfter(text, line, tmp, cl)))
    ensures text[off] == '~' ==>
      (opener <==> !SpaceAfter(text, line, tmp, cl)) && (closer <==> !SpaceBefore(text, line, off, cl))
  {
    var ch := text[off];
    if ch == '~' {
      opener := tmp < line.end && !cl.space(text[tmp]);
      closer := off > line.beg && !cl.space(text[off - 1]);
      return;
    }
    // 0 = white space, 1 = punctuation, 2 = other character
    var leftLevel, rightLevel: nat;
    if off == line.beg || cl.space(text[off - 1]) {
      leftLevel := 0;
    } else if cl.punct(text[off - 1]) {
      leftLevel := 1;
    } else {
      leftLevel := 2;
    }
    if tmp == line.end || cl.space(text[tmp]) {
      rightLevel := 0;
    } else if cl.punct(text[tmp]) {
      rightLevel := 1;
    } else {
      rightLevel := 2;
    }
    // an underscore inside a word does not count
    if ch == '_' && leftLevel == 2 && rightLevel == 2 {
      leftLevel, rightLevel := 0, 0;
    }
    closer := leftLevel > 0 && leftLevel >= rightLevel;
    opener := rightLevel > 0 && rightLevel >= leftLevel;
  }

  method RunEnd(text: string, line: Line, off: nat) returns (tmp: nat)
    requires line.beg <= off < line.end <= |text|
    ensures off < tmp <= line.end && (forall x | off <= x < tmp :: text[x] == text[off])
    ensures tmp < line.end ==> text[tmp] != text[off]
  {
    tmp := off + 1;
    while tmp < line.end && text[tmp] == text[off]
      invariant off < tmp <= line.end && forall x | off <= x < tmp :: text[x] == text[off]
    {
      tmp := tmp + 1;
    }
  }

  /** Nothing was added, or a true mark of the run. */
  ghost predicate Added(text: string, line: Line, cl: Classes, strike: bool, m: seq<Mark>, r: seq<Mark>, off: int, tmp: int) {
    r == m || exists x :: TrueMark(text, line, cl, strike, x) && x.beg == off && x.end == tmp && r == m + Run(x)
  }

  /** The mark of a run, and the dummies behind it. */
  method AddMarks(m: seq<Mark>, x: Mark) returns (r: seq<Mark>)
    requires 0 <= x.beg < x.end && IsDelim(x.ch)
    ensures r == m + Run(x)
  {
    r := m + [x];
    if x.ch != '~' {
      var at := x.beg + 1;
      while at < x.end
        invariant x.beg < at <= x.end && r == m + [x] + Dummies(x.beg + 1, at)
      {
        assert Dummies(x.beg + 1, at) + [Dummy(at)] == Dummies(x.beg + 1, at + 1);
        r := r + [Dummy(at)];
        at := at + 1;
      }
    }
    assert r == m + Run(x);
  }

  /** The run that begins at `off` is added, unless it is of no consequence. */
  method AddRun(text: string, line: Line, cl: Classes, strike: bool, m: seq<Mark>, off: nat)
    returns (r: seq<Mark>, tmp: nat)
    requires line.beg <= off < line.end <= |text| && IsMarkChar(text[off], strike)
    requires off > line.beg ==> text[off - 1] != text[off]
    requires Growing(m, off)
    ensures Growing(r, tmp) && IsRun(text, line, off, tmp)
    ensures Added(text, line, cl, strike, m, r, off, tmp)
    ensures r == m ==> !Matters(text, line, cl, strike, off, tmp)
  {
    tmp := RunEnd(text, line, off);
    r := m;
    var opener, closer := Flags(text, line, off, tmp, cl);
    var ch := text[off];
    if (ch != '~' || tmp - off < 3) && (opener || closer) {
      var x := Mark(off, tmp, -1, -1, ch, opener, closer, ch != '~' && opener && closer,
                    if ch == '~' then 0 else (tmp - off) % 3, false, false, false);
      Grow(m, x);
      assert TrueMark(text, line, cl, strike, x);
      r := AddMarks(m, x);
    } else {
      GrowLater(m, off, tmp);
    }
  }

  /** One more run of the line has been dealt with. */
  lemma {:induction false} RunDone(text: string, line: Line, cl: Classes, strike: bool, m: seq<Mark>, r: seq<Mark>,
                                   from: nat, off: nat, tmp: nat)
    requires from <= |m| && AllTrue(text, line, cl, strike, m, from) && AllMarked(text, line, cl, strike, m, from, off)
    requires IsRun(text, line, off, tmp)
    requires Added(text, line, cl, strike, m, r, off, tmp)
    requires r == m ==> !Matters(text, line, cl, strike, off, tmp)
    ensures AllTrue(text, line, cl, strike, r, from) && AllMarked(text, line, cl, strike, r, from, tmp)
  {
    forall k | from <= k < |r| && r[k].ch != DUMMY ensures TrueMark(text, line, cl, strike, r[k]) {
      if k < |m| {
        assert TrueMark(text, line, cl, strike, m[k]);
      }
    }
    forall a, b | a < tmp && Matters(text, line, cl, strike, a, b) ensures Marked(r, from, a, b) {
      if a < off {
        assert Marked(m, from, a, b);
        var k :| from <= k < |m| && m[k].ch != DUMMY && m[k].beg == a && m[k].end == b;
        assert r[k] == m[k];
      } else {
        OneRun(text, line, off, tmp, a, b);
        assert r != m;
        assert r[|m|].beg == a && r[|m|].end == b;
      }
    }
  }

  /** No other run begins inside a run. */
  lemma {:induction false} OneRun(text: string, line: Line, off: int, tmp: int, a: int, b: int)
    requires IsRun(text, line, off, tmp) && IsRun(text, line, a, b) && off <= a < tmp
    ensures a == off && b == tmp
  {
    var before := if a > line.beg then text[a - 1] else text[a];
    RunUnique(text, line, off, tmp, b);
  }

  /** A character that is no mark character begins no run that counts. */
  lemma {:induction false} CharDone(text: string, line: Line, cl: Classes, strike: bool, m: seq<Mark>, from: nat, off: nat)
    requires line.beg <= off < line.end <= |text| && !IsMarkChar(text[off], strike)
    requires AllMarked(text, line, cl, strike, m, from, off)
    ensures AllMarked(text, line, cl, strike, m, from, off + 1)
  {
    forall a, b | a < off + 1 && Matters(text, line, cl, strike, a, b) ensures Marked(m, from, a, b) {
      assert a != off;
    }
  }

  /** The marks of one line. */
  method CollectLine(text: string, line: Line, cl: Classes, strike: bool, m: seq<Mark>) returns (r: seq<Mark>)
    requires line.beg <= line.end <= |text| && Growing(m, line.beg)
    ensures Growing(r, line.end) && m <= r
    ensures AllTrue(text, line, cl, strike, r, |m|) && AllMarked(text, line, cl, strike, r, |m|, line.end)
  {
    r := m;
    var off := line.beg;
    while off < line.end
      invariant line.beg <= off <= line.end && m <= r && Growing(r, off)
      invariant AllTrue(text, line, cl, strike, r, |m|) && AllMarked(text, line, cl, strike, r, |m|, off)
      invariant line.beg < off < line.end && IsMarkChar(text[off], strike) ==> text[off - 1] != text[off]
    {
      if IsMarkChar(text[off], strike) {
        ghost var before := r;
        var tmp;
        r, tmp := AddRun(text, line, cl, strike, r, off);
        RunDone(text, line, cl, strike, before, r, |m|, off, tmp);
        off := tmp;
      } else {
        CharDone(text, line, cl, strike, r, |m|, off);
        GrowLater(r, off, off + 1);
        off := off + 1;
      }
    }
  }

  ghost predicate TrueSomewhere(text: string, lines: seq<Line>, cl: Classes, strike: bool, x: Mark) {
    exists j | 0 <= j < |lines| :: TrueMark(text, lines[j], cl, strike, x)
  }

  /** The delimiters are true marks of runs in the lines. */
  ghost predicate Truthful(text: string, lines: seq<Line>, cl: Classes, strike: bool, m: seq<Mark>) {
    forall k {:trigger TrueSomewhere(text, lines, cl, strike, m[k])} | 0 <= k < |m| && IsDelim(m[k].ch) ::
      TrueSomewhere(text, lines, cl, strike, m[k])
  }

  ghost predicate Complete(text: string, line: Line, cl: Classes, strike: bool, m: seq<Mark>) {
    AllMarked(text, line, cl, strike, m, 0, line.end)
  }

  lemma {:induction false} LineDone(text: string, lines: seq<Line>, cl: Classes, strike: bool, m: seq<Mark>, r: seq<Mark>, li: nat)
    requires li < |lines| && m <= r && Truthful(text, lines, cl, strike, m)
    requires AllTrue(text, lines[li], cl, strike, r, |m|)
    ensures Truthful(text, lines, cl, strike, r)
  {
    forall k | 0 <= k < |r| && IsDelim(r[k].ch) ensures TrueSomewhere(text, lines, cl, strike, r[k]) {
      if k < |m| {
        assert r[k] == m[k] && TrueSomewhere(text, lines, cl, strike, m[k]);
      } else {
        assert TrueMark(text, lines[li], cl, strike, r[k]);
      }
    }
  }

  lemma {:induction false} StillMarked(text: string, line: Line, cl: Classes, strike: bool, m: seq<Mark>, r: seq<Mark>, from: nat)
    requires m <= r && AllMarked(text, line, cl, strike, m, from, line.end)
    ensures Complete(text, line, cl, strike, r)
  {
    forall a, b | a < line.end && Matters(text, line, cl, strike, a, b) ensures Marked(r, 0, a, b) {
      assert Marked(m, from, a, b);
      var k :| from <= k < |m| && m[k].ch != DUMMY && m[k].beg == a && m[k].end == b;
      assert r[k] == m[k];
    }
  }

  /** Nothing has been resolved yet. */
  lemma {:induction false} Untouched(text: string, lines: seq<Line>, cl: Classes, strike: bool, m: seq<Mark>, size: nat)
    requires Growing(m, size) && Truthful(text, lines, cl, strike, m)
    ensures forall k | 0 <= k < |m| :: !m[k].resolved && !m[k].opener && !m[k].closer
  {
    forall k | 0 <= k < |m| ensures !m[k].resolved && !m[k].opener && !m[k].closer {
      if m[k].ch != DUMMY {
        assert Fits(m, k) && TrueSomewhere(text, lines, cl, strike, m[k]);
      }
    }
  }

  /** md_collect_marks: exactly the runs that matter, each with the flags that the specification gives it. */
  method CollectMarks(text: string, lines: seq<Line>, cl: Classes, strike: bool) returns (m: seq<Mark>)
    requires LinesOk(text, lines)
    ensures Layout(m) && m[|m| - 1] == Sentinel(|text|)
    ensures Truthful(text, lines, cl, strike, m)
    ensures forall j | 0 <= j < |lines| :: Complete(text, lines[j], cl, strike, m)
    ensures forall k | 0 <= k < |m| :: !m[k].opener && !m[k].closer && (k < |m| - 1 ==> !m[k].resolved)
  {
    m := [];
    for li := 0 to |lines|
      invariant Growing(m, if li < |lines| then lines[li].beg else |text|)
      invariant Truthful(text, lines, cl, strike, m)
      invariant forall j | 0 <= j < li :: Complete(text, lines[j], cl, strike, m)
    {
      ghost var before := m;
      m := CollectLine(text, lines[li], cl, strike, m);
      LineDone(text, lines, cl, strike, before, m, li);
      StillMarked(text, lines[li], cl, strike, m, m, |before|);
      forall j | 0 <= j < li ensures Complete(text, lines[j], cl, strike, m) {
        StillMarked(text, lines[j], cl, strike, before, m, 0);
      }
      GrowLater(m, lines[li].end, if li + 1 < |lines| then lines[li + 1].beg else |text|);
    }
    Grown(m, |text|);
    Untouched(text, lines, cl, strike, m, |text|);
    ghost var before := m;
    m := m + [Sentinel(|text|)];
    Finished(text, lines, cl, strike, before, m);
  }

  lemma {:induction false} Finished(text: string, lines: seq<Line>, cl: Classes, strike: bool, m: seq<Mark>, r: seq<Mark>)
    requires Truthful(text, lines, cl, strike, m) && r == m + [Sentinel(|text|)]
    requires forall j | 0 <= j < |lines| :: Complete(text, lines[j], cl, strike, m)
    ensures Truthful(text, lines, cl, strike, r)
    ensures forall j | 0 <= j < |lines| :: Complete(text, lines[j], cl, strike, r)
  {
    forall k | 0 <= k < |r| && IsDelim(r[k].ch) ensures TrueSomewhere(text, lines, cl, strike, r[k]) {
      assert r[k] == m[k] && TrueSomewhere(text, lines, cl, strike, m[k]);
    }
    forall j | 0 <= j < |lines| ensures Complete(text, lines[j], cl, strike, r) {
      StillMarked(text, lines[j], cl, strike, m, r, 0);
    }
  }
}
