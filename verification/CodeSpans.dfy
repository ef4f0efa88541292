/**
 * The search for the closer of a code span, with the two things it remembers between calls: where the last run
 * of each length was seen, and whether a search has run off the end of the paragraph.
 */
module CodeSpans {
  import opened Lines

  const CODESPAN_MARK_MAXLEN: nat := 32

  /** A longest run of back-ticks in one line. */
  ghost predicate IsTicks(text: string, line: Line, a: int, b: int) {
    && line.beg <= a < b <= line.end <= |text|
    && (forall x | a <= x < b :: text[x] == '`')
    && (a > line.beg ==> text[a - 1] != '`') && (b < line.end ==> text[b] != '`')
  }

  /** A run of `n` back-ticks begins at `a` in one of the lines. */
  ghost predicate RunAt(text: string, lines: seq<Line>, a: int, n: int) {
    exists j | 0 <= j < |lines| :: IsTicks(text, lines[j], a, a + n)
  }

  /** Some run of `n` back-ticks begins at `p` or later: the naive search would find a closer. */
  ghost predicate HasCloser(text: string, lines: seq<Line>, p: int, n: int) {
    exists a :: p <= a && RunAt(text, lines, a, n)
  }

  /** Runs in different lines are different, and a place lies in one line only. */
  lemma {:induction false} LineOf(text: string, lines: seq<Line>, i: int, j: int, a: int, n: int)
    requires LinesOk(text, lines) && 0 <= i < |lines| && 0 <= j < |lines|
    requires lines[i].beg <= a <= lines[i].end && IsTicks(text, lines[j], a, a + n)
    ensures i == j && text[a] == '`'
  {
    var here := lines[i];
    assert forall x | 0 <= x < i :: lines[x].end < here.beg;
    assert forall x | i < x < |lines| :: here.end < lines[x].beg;
  }

  lemma {:induction false} TicksUnique(text: string, line: Line, a: int, b: int, c: int)
    requires IsTicks(text, line, a, b) && IsTicks(text, line, a, c)
    ensures b == c
  {
    var atB, atC := if b < line.end then text[b] else 'x', if c < line.end then text[c] else 'x';
  }

  class Finder {
    const text: string
    const lines: seq<Line>
    const lastPotentialClosers: array<nat>
    var reachedParagraphEnd: bool
    ghost var from: nat   // later calls are about back-ticks from here on

    function ParagraphEnd(): nat
      requires |lines| > 0
    {
      lines[|lines| - 1].end
    }

    /** Every run from `p` on that is shorter than the limit is not after the last one noted of its length. */
    ghost predicate Noted(p: int)
      reads lastPotentialClosers
    {
      forall a, n {:trigger RunAt(text, lines, a, n)} | p <= a && 0 < n < CODESPAN_MARK_MAXLEN <= lastPotentialClosers.Length
        && RunAt(text, lines, a, n) :: a <= lastPotentialClosers[n - 1]
    }

    ghost predicate Valid()
      reads this, lastPotentialClosers
    {
      && LinesOk(text, lines) && lastPotentialClosers.Length == CODESPAN_MARK_MAXLEN
      && lastPotentialClosers[CODESPAN_MARK_MAXLEN - 1] == 0
      && (forall i | 0 <= i < CODESPAN_MARK_MAXLEN ::
            lastPotentialClosers[i] == 0 || lastPotentialClosers[i] < ParagraphEnd())
      && (reachedParagraphEnd ==> Noted(from))
    }

    /** The beginning of md_collect_marks. */
    constructor (text: string, lines: seq<Line>)
      requires LinesOk(text, lines)
      ensures Valid() && this.text == text && this.lines == lines && from == 0 && !reachedParagraphEnd
      ensures fresh(lastPotentialClosers)
    {
      this.text, this.lines := text, lines;
      lastPotentialClosers := new nat[CODESPAN_MARK_MAXLEN](_ => 0);
      reachedParagraphEnd, from := false, 0;
    }

    /** The runs that the search has passed: none is the closer, and all are noted. */
    ghost predicate Passed(openerEnd: int, markLen: int, pos: int)
      reads lastPotentialClosers
    {
      forall a, n {:trigger RunAt(text, lines, a, n)} | openerEnd <= a < pos && 0 < n && RunAt(text, lines, a, n) ::
        n != markLen && (n < CODESPAN_MARK_MAXLEN <= lastPotentialClosers.Length ==> a <= lastPotentialClosers[n - 1])
    }

    /** `pos` in line `j` is not inside a run. */
    ghost predicate Outside(j: nat, pos: nat)
      requires j < |lines|
    {
      && lines[j].beg <= pos <= lines[j].end <= |text|
      && (lines[j].beg < pos < lines[j].end && text[pos] == '`' ==> text[pos - 1] != '`')
    }

    /** The run at `pos`, or the end of the line. */
    method NextRun(j: nat, pos: nat) returns (beg: nat, end: nat)
      requires LinesOk(text, lines) && j < |lines| && Outside(j, pos)
      ensures pos <= beg <= end <= lines[j].end
      ensures beg < end ==> IsTicks(text, lines[j], beg, end)
      ensures beg == end ==> beg == lines[j].end
      ensures forall x | pos <= x < beg :: text[x] != '`'
      ensures Outside(j, end)
    {
      beg := pos;
      while beg < lines[j].end && text[beg] != '`'
        invariant pos <= beg <= lines[j].end && forall x | pos <= x < beg :: text[x] != '`'
      {
        beg := beg + 1;
      }
      end := beg;
      while end < lines[j].end && text[end] == '`'
        invariant beg <= end <= lines[j].end && forall x | beg <= x < end :: text[x] == '`'
      {
        end := end + 1;
      }
    }

    /** No run begins where there is no back-tick. */
    lemma {:induction false} Between(j: nat, openerEnd: int, markLen: int, pos: nat, beg: nat)
      requires LinesOk(text, lines) && j < |lines| && lines[j].beg <= pos <= beg <= lines[j].end <= |text|
      requires Passed(openerEnd, markLen, pos) && forall x | pos <= x < beg :: text[x] != '`'
      ensures Passed(openerEnd, markLen, beg)
    {
      forall a, n | openerEnd <= a < beg && 0 < n && RunAt(text, lines, a, n) ensures a < pos {
        var i :| 0 <= i < |lines| && IsTicks(text, lines[i], a, a + n);
        if pos <= a {
          LineOf(text, lines, j, i, a, n);
        }
      }
    }

    /** No run begins after the end of one line and before the beginning of the next. */
    lemma {:induction false} NextLine(j: nat, openerEnd: int, markLen: int)
      requires LinesOk(text, lines) && j + 1 < |lines| && Passed(openerEnd, markLen, lines[j].end)
      ensures Passed(openerEnd, markLen, lines[j + 1].beg)
    {
      forall a, n | openerEnd <= a < lines[j + 1].beg && 0 < n && RunAt(text, lines, a, n) ensures a < lines[j].end {
        var i :| 0 <= i < |lines| && IsTicks(text, lines[i], a, a + n);
        var here, next := lines[j], lines[j + 1];
        assert forall x | 0 <= x < j :: lines[x].end < here.beg;
        assert forall x | j + 1 < x < |lines| :: next.end < lines[x].beg;
      }
    }

    /** At the end of the paragraph every run has been noted, and none was the closer. */
    lemma {:induction false} Exhausted(openerEnd: int, markLen: int)
      requires LinesOk(text, lines) && Passed(openerEnd, markLen, ParagraphEnd())
      requires 0 < markLen && lastPotentialClosers.Length == CODESPAN_MARK_MAXLEN
      ensures Noted(openerEnd) && !HasCloser(text, lines, openerEnd, markLen)
    {
      forall a, n | RunAt(text, lines, a, n) ensures a < ParagraphEnd() {
        var i :| 0 <= i < |lines| && IsTicks(text, lines[i], a, a + n);
        var last := lines[|lines| - 1];
        assert forall x | 0 <= x < |lines| - 1 :: lines[x].end < last.beg;
      }
    }

    /** A run that is not the closer is noted, if it is shorter than the limit. */
    method Note(beg: nat, end: nat, ghost j: nat, ghost openerEnd: int, ghost markLen: int)
      requires Valid() && j < |lines| && IsTicks(text, lines[j], beg, end) && end - beg != markLen
      requires Passed(openerEnd, markLen, beg)
      modifies lastPotentialClosers
      ensures Valid() && Passed(openerEnd, markLen, end)
    {
      var len := end - beg;
      if len < CODESPAN_MARK_MAXLEN {
        if beg > lastPotentialClosers[len - 1] {
          InParagraph(j, beg);
          lastPotentialClosers[len - 1] := beg;
        }
      }
      forall a, n | openerEnd <= a < end && 0 < n && RunAt(text, lines, a, n)
        ensures n != markLen && (n < CODESPAN_MARK_MAXLEN ==> a <= lastPotentialClosers[n - 1])
      {
        if beg <= a {
          OneRun(j, beg, end, a, n);
        }
      }
    }

    lemma {:induction false} InParagraph(j: nat, a: nat)
      requires LinesOk(text, lines) && j < |lines| && a < lines[j].end
      ensures a < ParagraphEnd()
    {
      var last := lines[|lines| - 1];
      assert forall x | 0 <= x < |lines| - 1 :: lines[x].end < last.beg;
    }

    /** No other run begins inside a run. */
    lemma {:induction false} OneRun(j: nat, beg: int, end: int, a: int, n: int)
      requires LinesOk(text, lines) && j < |lines| && IsTicks(text, lines[j], beg, end) && RunAt(text, lines, a, n)
      requires beg <= a < end
      ensures a == beg && n == end - beg
    {
      var i :| 0 <= i < |lines| && IsTicks(text, lines[i], a, a + n);
      LineOf(text, lines, j, i, a, n);
      var before := if a > lines[j].beg then text[a - 1] else 'x';
      TicksUnique(text, lines[j], beg, end, beg + n);
    }

    /** One turn of the search: the next run of the line is the closer, or it is noted. */
    method LookAt(j: nat, pos: nat, ghost openerEnd: int, markLen: nat) returns (hit: bool, beg: nat, end: nat)
      requires Valid() && j < |lines| && Outside(j, pos) && 0 < markLen && Passed(openerEnd, markLen, pos)
      modifies lastPotentialClosers
      ensures Valid() && pos <= beg <= end <= lines[j].end && Outside(j, end)
      ensures hit ==> IsTicks(text, lines[j], beg, end) && end == beg + markLen && Passed(openerEnd, markLen, beg)
      ensures !hit ==> Passed(openerEnd, markLen, end) && (end < lines[j].end ==> pos < end)
    {
      beg, end := NextRun(j, pos);
      Between(j, openerEnd, markLen, pos, beg);
      hit := end - beg == markLen;
      if !hit && end - beg > 0 {
        Note(beg, end, j, openerEnd, markLen);
      }
    }

    /** The first run of the right length is the nearest closer. */
    lemma {:induction false} Found(j: nat, openerEnd: int, markLen: nat, beg: nat)
      requires j < |lines| && 0 < markLen && IsTicks(text, lines[j], beg, beg + markLen) && openerEnd <= beg
      requires Passed(openerEnd, markLen, beg)
      ensures RunAt(text, lines, beg, markLen) && HasCloser(text, lines, openerEnd, markLen)
      ensures forall a | openerEnd <= a < beg :: !RunAt(text, lines, a, markLen)
    {
      assert RunAt(text, lines, beg, markLen);
    }

    /** The search has reached the end of the paragraph. */
    method GiveUp(ghost openerEnd: int, ghost markLen: nat)
      requires Valid() && 0 < markLen && from == openerEnd && Passed(openerEnd, markLen, ParagraphEnd())
      modifies this`reachedParagraphEnd
      ensures Valid() && reachedParagraphEnd && !HasCloser(text, lines, openerEnd, markLen)
    {
      Exhausted(openerEnd, markLen);
      reachedParagraphEnd := true;
    }

    /** The loop that looks for a closer from `openerEnd` in line `li` on. */
    method Search(li: nat, openerEnd: nat, markLen: nat) returns (found: bool, closerBeg: nat, closerEnd: nat)
      requires Valid() && li < |lines| && Outside(li, openerEnd) && 0 < markLen <= CODESPAN_MARK_MAXLEN
      requires from <= openerEnd
      modifies this`reachedParagraphEnd, this`from, lastPotentialClosers
      ensures Valid() && from == openerEnd
      ensures found <==> HasCloser(text, lines, openerEnd, markLen)
      ensures found ==> openerEnd <= closerBeg && closerEnd == closerBeg + markLen && RunAt(text, lines, closerBeg, markLen)
      ensures found ==> forall a | openerEnd <= a < closerBeg :: !RunAt(text, lines, a, markLen)
      ensures reachedParagraphEnd == (old(reachedParagraphEnd) || !found)
    {
      var j, pos, ended := li, openerEnd, false;
      found, closerBeg, closerEnd, from := false, 0, 0, openerEnd;
      PassedNothing(li, openerEnd, markLen);
      while !found && !ended
        invariant li <= j < |lines| && Valid() && from == openerEnd && reachedParagraphEnd == old(reachedParagraphEnd)
        invariant !found ==> Outside(j, pos) && openerEnd <= pos && Passed(openerEnd, markLen, pos)
        invariant ended ==> !found && pos == ParagraphEnd()
        invariant found ==> IsTicks(text, lines[j], closerBeg, closerBeg + markLen) && openerEnd <= closerBeg
        invariant found ==> closerEnd == closerBeg + markLen && Passed(openerEnd, markLen, closerBeg)
        decreases !found && !ended, |lines| - j, lines[j].end - pos
      {
        found, ended, j, pos, closerBeg, closerEnd := Turn(j, pos, openerEnd, markLen);
      }
      if found {
        Found(j, openerEnd, markLen, closerBeg);
      } else {
        GiveUp(openerEnd, markLen);
      }
    }

    /** One turn of the loop: the closer is found, or the search goes on behind the next run or in the next line. */
    method Turn(j: nat, pos: nat, ghost openerEnd: int, markLen: nat)
      returns (found: bool, ended: bool, line: nat, next: nat, beg: nat, end: nat)
      requires Valid() && j < |lines| && Outside(j, pos) && 0 < markLen && openerEnd <= pos && Passed(openerEnd, markLen, pos)
      modifies lastPotentialClosers
      ensures Valid() && j <= line < |lines|
      ensures found ==> IsTicks(text, lines[line], beg, end) && end == beg + markLen && openerEnd <= beg
      ensures found ==> Passed(openerEnd, markLen, beg) && !ended
      ensures !found ==> Outside(line, next) && openerEnd <= next && Passed(openerEnd, markLen, next)
      ensures ended ==> next == ParagraphEnd()
      ensures !found && !ended && line == j ==> next > pos
    {
      found, beg, end := LookAt(j, pos, openerEnd, markLen);
      ended, line, next := false, j, end;
      if !found && end >= lines[j].end {
        if j + 1 >= |lines| {
          ended := true;
        } else {
          NextLine(j, openerEnd, markLen);
          line := j + 1;
          next := lines[line].beg;
        }
      }
    }

    lemma {:induction false} PassedNothing(li: nat, openerEnd: int, markLen: int)
      ensures Passed(openerEnd, markLen, openerEnd)
    {
    }

    /**
     * md_is_code_span, for the back-ticks at `beg` in line `li`. It finds the nearest closer whenever there is
     * one, except that runs of exactly 32 are never noted: for them it gives up as soon as some earlier search
     * has reached the end of the paragraph. Longer runs are never code spans.
     */
    method IsCodeSpan(li: nat, beg: nat) returns (found: bool, openerEnd: nat, closerBeg: nat, closerEnd: nat)
      requires Valid() && li < |lines| && lines[li].beg <= beg < lines[li].end && text[beg] == '`' && from <= beg
      modifies this`reachedParagraphEnd, this`from, lastPotentialClosers
      ensures Valid() && from <= openerEnd
      ensures beg < openerEnd <= lines[li].end && (forall x | beg <= x < openerEnd :: text[x] == '`')
      ensures openerEnd < lines[li].end ==> text[openerEnd] != '`'
      ensures
        var len := openerEnd - beg;
        found <==>
          && len <= CODESPAN_MARK_MAXLEN && HasCloser(text, lines, openerEnd, len)
          && !(len == CODESPAN_MARK_MAXLEN && old(reachedParagraphEnd))
      ensures
        var len := openerEnd - beg;
        found ==>
          && openerEnd <= closerBeg && closerEnd == closerBeg + len && RunAt(text, lines, closerBeg, len)
          && forall a | openerEnd <= a < closerBeg :: !RunAt(text, lines, a, len)
      ensures reachedParagraphEnd == (old(reachedParagraphEnd) || (!found && openerEnd - beg <= CODESPAN_MARK_MAXLEN))
    {
      openerEnd, closerBeg, closerEnd := beg, 0, 0;
      while openerEnd < lines[li].end && text[openerEnd] == '`'
        invariant beg <= openerEnd <= lines[li].end && forall x | beg <= x < openerEnd :: text[x] == '`'
      {
        openerEnd := openerEnd + 1;
      }
      var markLen := openerEnd - beg;
      if markLen > CODESPAN_MARK_MAXLEN {
        return false, openerEnd, closerBeg, closerEnd;
      }
      var last := lastPotentialClosers[markLen - 1];
      if last >= ParagraphEnd() || (reachedParagraphEnd && last < openerEnd) {
        NoCloser(li, beg, openerEnd, markLen);
        return false, openerEnd, closerBeg, closerEnd;
      }
      found, closerBeg, closerEnd := Search(li, openerEnd, markLen);
    }

    /** What is remembered is right about every length below the limit, and says nothing about the limit itself. */
    lemma {:induction false} NoCloser(li: nat, beg: nat, openerEnd: nat, markLen: nat)
      requires Valid() && li < |lines| && lines[li].beg <= beg < lines[li].end && from <= openerEnd
      requires 0 < markLen <= CODESPAN_MARK_MAXLEN
      requires
        var last := lastPotentialClosers[markLen - 1];
        last >= ParagraphEnd() || (reachedParagraphEnd && last < openerEnd)
      ensures reachedParagraphEnd && (markLen < CODESPAN_MARK_MAXLEN ==> !HasCloser(text, lines, openerEnd, markLen))
    {
      InParagraph(li, beg);
      if markLen < CODESPAN_MARK_MAXLEN {
        forall a | openerEnd <= a ensures !RunAt(text, lines, a, markLen) {
          assert reachedParagraphEnd && Noted(from);
        }
      }
    }
  }

  // ----- the length that is never noted -----

  function Ticks(n: nat): string {
    seq(n, _ => '`')
  }

  /** One back-tick, and two runs of 32 around a letter. */
  function Example(): (t: string)
    ensures |t| == 67
  {
    "`a" + Ticks(32) + "a" + Ticks(32)
  }

  lemma {:induction false} ExampleRuns()
    ensures !HasCloser(Example(), [Line(0, 67)], 1, 1) && HasCloser(Example(), [Line(0, 67)], 34, 32)
    ensures Example()[0] == '`' && Example()[1] == Example()[34] == 'a' && forall x | 2 <= x < 34 :: Example()[x] == '`'
  {
    var t, line := Example(), Line(0, 67);
    assert forall x | 2 <= x < 34 || 35 <= x < 67 :: t[x] == '`';
    assert t[1] == t[34] == 'a';
    forall a | 1 <= a ensures !RunAt(t, [line], a, 1) {
      if a == 2 || a == 35 {
        assert t[a + 1] == '`';
      }
    }
    assert IsTicks(t, [line][0], 35, 35 + 32);
    assert RunAt(t, [line], 35, 32);
  }

  /** After a lone back-tick, two runs of 32 are not paired although each is the nearest closer of the other. */
  method LongRunsAreMissed() returns (found: bool)
    ensures !found
  {
    var finder := new Finder(Example(), [Line(0, 67)]);
    ExampleRuns();
    var first, openerEnd, _, _ := finder.IsCodeSpan(0, 0);
    assert openerEnd == 1;
    var second, end, _, _ := finder.IsCodeSpan(0, 2);
    assert end == 34;
    found := second;
  }
}
