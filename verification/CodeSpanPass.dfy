/** The whole pass over the back-ticks of a block, and the plain rule: every run takes the nearest closer there is. */
module CodeSpanPass {
  import opened Lines
  import opened Wrappers
  import opened CodeSpans

  /** A run that was looked at as an opener, and where its closer begins if it has one. */
  datatype Visit = Visit(beg: nat, len: nat, closer: Option<nat>) {
    function OpenerEnd(): nat {
      beg + len
    }

    /** The scan goes on behind the closer, or else behind the run. */
    function End(): nat {
      if closer.Some? then closer.value + len else beg + len
    }
  }

  function From(visits: seq<Visit>, i: nat): nat
    requires i <= |visits|
  {
    if i == 0 then 0 else visits[i - 1].End()
  }

  /** Some search before visit `i` has run off the end of the paragraph. */
  ghost predicate Ended(visits: seq<Visit>, i: nat)
    requires i <= |visits|
  {
    exists k | 0 <= k < i :: visits[k].len <= CODESPAN_MARK_MAXLEN && visits[k].closer.None?
  }

  ghost predicate NoRuns(text: string, lines: seq<Line>, p: int, q: int) {
    forall a, n {:trigger RunAt(text, lines, a, n)} | p <= a < q :: !RunAt(text, lines, a, n)
  }

  /** The run is the first one from `p` on. */
  ghost predicate FirstRun(text: string, lines: seq<Line>, p: int, a: nat, n: nat) {
    p <= a && RunAt(text, lines, a, n) && NoRuns(text, lines, p, a)
  }

  /** The run has a closer if there is one for it, unless it is `barred`; and then the nearest. */
  ghost predicate Closed(text: string, lines: seq<Line>, v: Visit, barred: bool) {
    && (v.closer.Some? <==>
          v.len <= CODESPAN_MARK_MAXLEN && HasCloser(text, lines, v.OpenerEnd(), v.len) && !barred)
    && (v.closer.Some? ==>
          var c := v.closer.value;
          && v.OpenerEnd() <= c && RunAt(text, lines, c, v.len)
          && forall a | v.OpenerEnd() <= a < c :: !RunAt(text, lines, a, v.len))
  }

  /** With `memory`, runs of exactly 32 are barred from the first failed search on. */
  ghost predicate Barred(visits: seq<Visit>, i: nat, memory: bool)
    requires i < |visits|
  {
    memory && visits[i].len == CODESPAN_MARK_MAXLEN && Ended(visits, i)
  }

  ghost predicate Right(text: string, lines: seq<Line>, visits: seq<Visit>, i: nat, memory: bool)
    requires i < |visits|
  {
    FirstRun(text, lines, From(visits, i), visits[i].beg, visits[i].len)
    && Closed(text, lines, visits[i], Barred(visits, i, memory))
  }

  /** Run after run, and none between what one visit takes and the next. */
  ghost predicate Scan(text: string, lines: seq<Line>, visits: seq<Visit>, memory: bool) {
    forall i {:trigger Right(text, lines, visits, i, memory)} | 0 <= i < |visits| :: Right(text, lines, visits, i, memory)
  }

  /** Run after run, up to the last. */
  ghost predicate Pass(text: string, lines: seq<Line>, visits: seq<Visit>, memory: bool) {
    && Scan(text, lines, visits, memory)
    && forall a, n {:trigger RunAt(text, lines, a, n)} | From(visits, |visits|) <= a :: !RunAt(text, lines, a, n)
  }

  // ----- one pass only -----

  lemma {:induction false} RunIsUnique(text: string, lines: seq<Line>, a: int, n: int, m: int)
    requires LinesOk(text, lines) && RunAt(text, lines, a, n) && RunAt(text, lines, a, m)
    ensures n == m
  {
    var i :| 0 <= i < |lines| && IsTicks(text, lines[i], a, a + n);
    var j :| 0 <= j < |lines| && IsTicks(text, lines[j], a, a + m);
    LineOf(text, lines, i, j, a, m);
    TicksUnique(text, lines[i], a, a + n, a + m);
  }

  lemma {:induction false} SameVisit(text: string, lines: seq<Line>, p: int, v: Visit, w: Visit, barred: bool)
    requires LinesOk(text, lines)
    requires FirstRun(text, lines, p, v.beg, v.len) && Closed(text, lines, v, barred)
    requires FirstRun(text, lines, p, w.beg, w.len) && Closed(text, lines, w, barred)
    ensures v == w
  {
    assert RunAt(text, lines, v.beg, v.len) && RunAt(text, lines, w.beg, w.len);
    RunIsUnique(text, lines, v.beg, v.len, w.len);
    if v.closer.Some? {
      assert RunAt(text, lines, v.closer.value, v.len) && RunAt(text, lines, w.closer.value, w.len);
    }
  }

  lemma {:induction false} SameFront(text: string, lines: seq<Line>, v: seq<Visit>, w: seq<Visit>, memory: bool, n: nat)
    requires LinesOk(text, lines) && Scan(text, lines, v, memory) && Scan(text, lines, w, memory)
    requires n <= |v| && n <= |w|
    ensures v[..n] == w[..n] && From(v, n) == From(w, n)
  {
    if n > 0 {
      var i := n - 1;
      SameFront(text, lines, v, w, memory, i);
      SameNext(text, lines, v, w, memory, i);
      assert v[..n] == v[..i] + [v[i]] && w[..n] == w[..i] + [w[i]];
    }
  }

  lemma {:induction false} SameNext(text: string, lines: seq<Line>, v: seq<Visit>, w: seq<Visit>, memory: bool, i: nat)
    requires LinesOk(text, lines) && Scan(text, lines, v, memory) && Scan(text, lines, w, memory)
    requires i < |v| && i < |w| && v[..i] == w[..i] && From(v, i) == From(w, i)
    ensures v[i] == w[i]
  {
    assert Right(text, lines, v, i, memory) && Right(text, lines, w, i, memory);
    SameLength(text, lines, From(v, i), v[i], w[i]);
    assert forall k | 0 <= k < i :: v[k] == v[..i][k] && w[k] == w[..i][k];
    SameVisit(text, lines, From(v, i), v[i], w[i], Barred(v, i, memory));
  }

  lemma {:induction false} SameLength(text: string, lines: seq<Line>, p: int, v: Visit, w: Visit)
    requires LinesOk(text, lines) && FirstRun(text, lines, p, v.beg, v.len) && FirstRun(text, lines, p, w.beg, w.len)
    ensures v.beg == w.beg && v.len == w.len
  {
    assert RunAt(text, lines, v.beg, v.len) && RunAt(text, lines, w.beg, w.len);
    RunIsUnique(text, lines, v.beg, v.len, w.len);
  }

  lemma {:induction false} IsRun(text: string, lines: seq<Line>, v: seq<Visit>, memory: bool, i: nat)
    requires Scan(text, lines, v, memory) && i < |v|
    ensures From(v, i) <= v[i].beg && RunAt(text, lines, v[i].beg, v[i].len)
  {
    assert Right(text, lines, v, i, memory);
  }

  lemma {:induction false} NotLonger(text: string, lines: seq<Line>, v: seq<Visit>, w: seq<Visit>, memory: bool)
    requires LinesOk(text, lines) && Scan(text, lines, v, memory) && Pass(text, lines, w, memory)
    ensures |v| <= |w|
  {
    if |w| < |v| {
      SameFront(text, lines, v, w, memory, |w|);
      IsRun(text, lines, v, memory, |w|);
    }
  }

  /** The rule leaves no choice. */
  lemma {:induction false} PassIsUnique(text: string, lines: seq<Line>, v: seq<Visit>, w: seq<Visit>, memory: bool)
    requires LinesOk(text, lines) && Pass(text, lines, v, memory) && Pass(text, lines, w, memory)
    ensures v == w
  {
    NotLonger(text, lines, v, w, memory);
    NotLonger(text, lines, w, v, memory);
    SameFront(text, lines, v, w, memory, |v|);
    assert v == v[..|v|] && w == w[..|v|];
  }

  /** What the memory allows: no span of 32 back-ticks comes after a run that has no closer. */
  lemma {:induction false} NotAfterFailure(text: string, lines: seq<Line>, visits: seq<Visit>, i: nat)
    requires Scan(text, lines, visits, true) && i < |visits|
    requires visits[i].len == CODESPAN_MARK_MAXLEN && visits[i].closer.Some?
    ensures !Ended(visits, i)
  {
    assert Right(text, lines, visits, i, true);
  }

  /**
   * The memory changes nothing if, and only if, by the plain rule no span of 32 back-ticks comes after a run that
   * has no closer.
   */
  lemma {:induction false} MemoryIsHarmless(text: string, lines: seq<Line>, plain: seq<Visit>, visits: seq<Visit>)
    requires LinesOk(text, lines) && Pass(text, lines, plain, false) && Pass(text, lines, visits, true)
    ensures visits == plain <==>
      forall i | 0 <= i < |plain| && plain[i].len == CODESPAN_MARK_MAXLEN && plain[i].closer.Some? :: !Ended(plain, i)
  {
    if visits == plain {
      forall i | 0 <= i < |plain| && plain[i].len == CODESPAN_MARK_MAXLEN && plain[i].closer.Some? ensures !Ended(plain, i) {
        NotAfterFailure(text, lines, visits, i);
      }
    }
    if forall i | 0 <= i < |plain| && plain[i].len == CODESPAN_MARK_MAXLEN && plain[i].closer.Some? :: !Ended(plain, i) {
      forall i | 0 <= i < |plain| ensures Right(text, lines, plain, i, true) {
        assert Right(text, lines, plain, i, false);
      }
      PassIsUnique(text, lines, plain, visits, true);
    }
  }

  // ----- the plain rule can always be followed -----

  lemma {:induction false} RunInText(text: string, lines: seq<Line>, a: int, n: int)
    requires RunAt(text, lines, a, n)
    ensures 0 <= a < a + n <= |text|
  {
  }

  /** The first run from `p` on. */
  lemma {:induction false} First(text: string, lines: seq<Line>, p: int, a: int, n: int) returns (b: nat, m: nat)
    requires p <= a && RunAt(text, lines, a, n)
    ensures FirstRun(text, lines, p, b, m)
    decreases a - p
  {
    if c, k :| p <= c < a && RunAt(text, lines, c, k) {
      b, m := First(text, lines, p, c, k);
    } else {
      RunInText(text, lines, a, n);
      b, m := a, n;
    }
  }

  lemma {:induction false} Nearest(text: string, lines: seq<Line>, p: nat, a: int, n: nat) returns (c: nat)
    requires p <= a && RunAt(text, lines, a, n)
    ensures p <= c && RunAt(text, lines, c, n) && forall b | p <= b < c :: !RunAt(text, lines, b, n)
    decreases a - p
  {
    if b :| p <= b < a && RunAt(text, lines, b, n) {
      c := Nearest(text, lines, p, b, n);
    } else {
      c := a;
    }
  }

  lemma {:induction false} ScanMore(text: string, lines: seq<Line>, visits: seq<Visit>, v: Visit, memory: bool)
    requires Scan(text, lines, visits, memory)
    requires FirstRun(text, lines, From(visits, |visits|), v.beg, v.len)
    requires
      Closed(text, lines, v, memory && v.len == CODESPAN_MARK_MAXLEN && Ended(visits, |visits|))
    ensures Scan(text, lines, visits + [v], memory)
    ensures Ended(visits + [v], |visits| + 1) <==>
      Ended(visits, |visits|) || (v.len <= CODESPAN_MARK_MAXLEN && v.closer.None?)
  {
    var all := visits + [v];
    assert forall k | 0 <= k < |visits| :: all[k] == visits[k];
    forall i | 0 <= i < |all| ensures Right(text, lines, all, i, memory) {
      assert Ended(all, i) <==> Ended(visits, i);
      if i < |visits| {
        assert Right(text, lines, visits, i, memory);
      }
    }
    assert all[|visits|] == v;
  }

  lemma {:induction false} PlainPass(text: string, lines: seq<Line>, front: seq<Visit>) returns (visits: seq<Visit>)
    requires Scan(text, lines, front, false)
    ensures Pass(text, lines, visits, false)
    decreases |text| - From(front, |front|)
  {
    var p := From(front, |front|);
    if a, n :| p <= a && RunAt(text, lines, a, n) {
      var beg, len := First(text, lines, p, a, n);
      RunInText(text, lines, beg, len);
      var v := Visit(beg, len, None);
      if len <= CODESPAN_MARK_MAXLEN && HasCloser(text, lines, beg + len, len) {
        var b :| beg + len <= b && RunAt(text, lines, b, len);
        var c := Nearest(text, lines, beg + len, b, len);
        RunInText(text, lines, c, len);
        v := Visit(beg, len, Some(c));
      }
      ScanMore(text, lines, front, v, false);
      visits := PlainPass(text, lines, front + [v]);
    } else {
      visits := front;
    }
  }

  // ----- the pass of the code -----

  /** Up to the next back-tick of the line. */
  method SkipPlain(text: string, line: Line, off: nat) returns (beg: nat)
    requires off <= line.end <= |text|
    ensures off <= beg <= line.end && (beg < line.end ==> text[beg] == '`')
    ensures forall x | off <= x < beg :: text[x] != '`'
  {
    beg := off;
    while beg + 3 < line.end && text[beg] != '`' && text[beg + 1] != '`' && text[beg + 2] != '`' && text[beg + 3] != '`'
      invariant off <= beg <= line.end && forall x | off <= x < beg :: text[x] != '`'
    {
      beg := beg + 4;
    }
    while beg < line.end && text[beg] != '`'
      invariant off <= beg <= line.end && forall x | off <= x < beg :: text[x] != '`'
    {
      beg := beg + 1;
    }
  }

  /** No run begins where there is no back-tick. */
  lemma {:induction false} NothingBetween(text: string, lines: seq<Line>, li: nat, p: int, off: nat, beg: nat)
    requires LinesOk(text, lines) && li < |lines| && lines[li].beg <= off <= beg <= lines[li].end
    requires NoRuns(text, lines, p, off) && forall x | off <= x < beg :: text[x] != '`'
    ensures NoRuns(text, lines, p, beg)
  {
    forall a, n | off <= a < beg ensures !RunAt(text, lines, a, n) {
      if j :| 0 <= j < |lines| && IsTicks(text, lines[j], a, a + n) {
        LineOf(text, lines, li, j, a, n);
      }
    }
  }

  /** No run begins between two lines. */
  lemma {:induction false} NothingInGap(text: string, lines: seq<Line>, li: nat, p: int)
    requires LinesOk(text, lines) && li + 1 < |lines| && NoRuns(text, lines, p, lines[li].end)
    ensures NoRuns(text, lines, p, lines[li + 1].beg)
  {
    RunsInLines(text, lines, li);
  }

  lemma {:induction false} RunsInLines(text: string, lines: seq<Line>, li: nat)
    requires LinesOk(text, lines) && li + 1 < |lines|
    ensures forall a, n {:trigger RunAt(text, lines, a, n)} | RunAt(text, lines, a, n) ::
      a < lines[li].end || lines[li + 1].beg <= a
  {
    var here, next := lines[li], lines[li + 1];
    forall a, n | RunAt(text, lines, a, n) ensures a < here.end || next.beg <= a {
      var j :| 0 <= j < |lines| && IsTicks(text, lines[j], a, a + n);
      assert forall x | 0 <= x < li :: lines[x].end < here.beg;
      assert forall x | li + 1 < x < |lines| :: next.end < lines[x].beg;
    }
  }

  /** No run begins behind the last line. */
  lemma {:induction false} NothingBehind(text: string, lines: seq<Line>, p: int)
    requires LinesOk(text, lines) && NoRuns(text, lines, p, lines[|lines| - 1].end)
    ensures forall a, n {:trigger RunAt(text, lines, a, n)} | p <= a :: !RunAt(text, lines, a, n)
  {
    var last := lines[|lines| - 1];
    forall a, n | RunAt(text, lines, a, n) ensures a < last.end {
      var j :| 0 <= j < |lines| && IsTicks(text, lines[j], a, a + n);
      assert forall x | 0 <= x < |lines| - 1 :: lines[x].end < last.beg;
    }
  }

  /** Where the scan is: in line `li` at `off`, outside of runs, and everything before has been visited. */
  ghost predicate At(text: string, lines: seq<Line>, visits: seq<Visit>, li: nat, off: nat) {
    && LinesOk(text, lines) && li < |lines| && lines[li].beg <= off <= lines[li].end
    && (lines[li].beg < off < lines[li].end && text[off] == '`' ==> text[off - 1] != '`')
    && From(visits, |visits|) <= off && NoRuns(text, lines, From(visits, |visits|), off) && Scan(text, lines, visits, true)
  }

  /** The back-ticks of md_collect_marks: the pass, with what is remembered between its searches. */
  method Collect(text: string, lines: seq<Line>) returns (visits: seq<Visit>)
    requires LinesOk(text, lines)
    ensures Pass(text, lines, visits, true)
  {
    var finder := new Finder(text, lines);
    visits := [];
    var li: nat, off: nat, done := 0, lines[0].beg, false;
    Beginning(text, lines);
    while !done
      invariant fresh(finder) && fresh(finder.lastPotentialClosers) && finder.text == text && finder.lines == lines
      invariant finder.Valid() && At(text, lines, visits, li, off) && finder.from <= off
      invariant finder.reachedParagraphEnd == Ended(visits, |visits|)
      invariant done ==> li == |lines| - 1 && off == lines[li].end
      decreases !done, |lines| - li, lines[li].end - off
    {
      var beg := SkipPlain(text, lines[li], off);
      NothingBetween(text, lines, li, From(visits, |visits|), off, beg);
      if beg < lines[li].end {
        visits, li, off := Next(finder, visits, li, off, beg);
      } else if li + 1 < |lines| {
        NothingInGap(text, lines, li, From(visits, |visits|));
        li := li + 1;
        off := lines[li].beg;
      } else {
        off, done := beg, true;
      }
    }
    NothingBehind(text, lines, From(visits, |visits|));
  }

  lemma {:induction false} Beginning(text: string, lines: seq<Line>)
    requires LinesOk(text, lines)
    ensures At(text, lines, [], 0, lines[0].beg)
  {
    var first := lines[0];
    forall a, n | RunAt(text, lines, a, n) ensures first.beg <= a {
      var j :| 0 <= j < |lines| && IsTicks(text, lines[j], a, a + n);
      assert forall x | 0 < x < |lines| :: first.end < lines[x].beg;
    }
  }

  /** The run at `beg` is visited, and the scan goes on behind it or behind its closer. */
  method Next(finder: Finder, visits: seq<Visit>, li: nat, ghost off: nat, beg: nat)
    returns (more: seq<Visit>, line: nat, next: nat)
    requires finder.Valid() && At(finder.text, finder.lines, visits, li, off) && finder.from <= off <= beg
    requires beg < finder.lines[li].end && finder.text[beg] == '`'
    requires forall x | off <= x < beg :: finder.text[x] != '`'
    requires NoRuns(finder.text, finder.lines, From(visits, |visits|), beg)
    requires finder.reachedParagraphEnd == Ended(visits, |visits|)
    modifies finder`reachedParagraphEnd, finder`from, finder.lastPotentialClosers
    ensures finder.Valid() && At(finder.text, finder.lines, more, line, next) && finder.from <= next
    ensures finder.reachedParagraphEnd == Ended(more, |more|)
    ensures line > li || (line == li && next > beg)
  {
    hide HasCloser, NoRuns, Scan;
    var found, openerEnd, closerBeg, closerEnd := finder.IsCodeSpan(li, beg);
    var v := Visit(beg, openerEnd - beg, if found then Some(closerBeg) else None);
    IsFirst(finder.text, finder.lines, visits, li, off, beg, openerEnd);
    Looked(finder.text, finder.lines, visits, v);
    more, line, next := visits + [v], li, openerEnd;
    if found {
      next := closerEnd;
      line := Onward(finder.text, finder.lines, li, openerEnd, closerBeg, closerEnd);
    }
    Behind(finder.text, finder.lines, more, line, next);
  }

  lemma {:induction false} Looked(text: string, lines: seq<Line>, visits: seq<Visit>, v: Visit)
    requires Scan(text, lines, visits, true) && FirstRun(text, lines, From(visits, |visits|), v.beg, v.len)
    requires v.closer.Some? <==>
      && v.len <= CODESPAN_MARK_MAXLEN && HasCloser(text, lines, v.OpenerEnd(), v.len)
      && !(v.len == CODESPAN_MARK_MAXLEN && Ended(visits, |visits|))
    requires v.closer.Some? ==>
      && v.OpenerEnd() <= v.closer.value && RunAt(text, lines, v.closer.value, v.len)
      && forall a | v.OpenerEnd() <= a < v.closer.value :: !RunAt(text, lines, a, v.len)
    ensures Scan(text, lines, visits + [v], true)
    ensures Ended(visits + [v], |visits| + 1) <==>
      Ended(visits, |visits|) || (v.len <= CODESPAN_MARK_MAXLEN && v.closer.None?)
  {
    ScanMore(text, lines, visits, v, true);
  }

  /** The line to go on in, behind a closer. */
  method Onward(ghost text: string, lines: seq<Line>, li: nat, ghost openerEnd: nat, ghost beg: nat, end: nat)
    returns (line: nat)
    requires LinesOk(text, lines) && li < |lines| && lines[li].beg <= openerEnd <= beg < end && RunAt(text, lines, beg, end - beg)
    ensures li <= line < |lines| && IsTicks(text, lines[line], beg, end)
  {
    ghost var k := CloserLine(text, lines, li, openerEnd, beg, end - beg);
    line := li;
    if end > lines[li].end {
      var there := Lookup(lines, end);
      line := there.value;
    }
  }

  /** Behind a visit nothing has been passed over. */
  lemma {:induction false} Behind(text: string, lines: seq<Line>, visits: seq<Visit>, li: nat, off: nat)
    requires LinesOk(text, lines) && li < |lines| && lines[li].beg <= off <= lines[li].end && Scan(text, lines, visits, true)
    requires off == From(visits, |visits|) && (lines[li].beg < off < lines[li].end && text[off] == '`' ==> text[off - 1] != '`')
    ensures At(text, lines, visits, li, off)
  {
  }

  /** The back-ticks from `beg` on are the first run from where the scan is. */
  lemma {:induction false} IsFirst(text: string, lines: seq<Line>, visits: seq<Visit>, li: nat, off: nat, beg: nat, end: nat)
    requires At(text, lines, visits, li, off) && off <= beg < end <= lines[li].end
    requires NoRuns(text, lines, From(visits, |visits|), beg)
    requires (forall x | off <= x < beg :: text[x] != '`') && (forall x | beg <= x < end :: text[x] == '`')
    requires end < lines[li].end ==> text[end] != '`'
    ensures IsTicks(text, lines[li], beg, end) && FirstRun(text, lines, From(visits, |visits|), beg, end - beg)
  {
    assert IsTicks(text, lines[li], beg, beg + (end - beg));
  }

  /** The line that the closer is in. */
  lemma {:induction false} CloserLine(text: string, lines: seq<Line>, li: nat, openerEnd: nat, c: nat, n: nat) returns (k: nat)
    requires LinesOk(text, lines) && li < |lines| && lines[li].beg <= openerEnd <= c && RunAt(text, lines, c, n)
    ensures li <= k < |lines| && IsTicks(text, lines[k], c, c + n)
    ensures c + n <= lines[li].end ==> k == li
  {
    k :| 0 <= k < |lines| && IsTicks(text, lines[k], c, c + n);
    var here := lines[li];
    assert forall x | 0 <= x < li :: lines[x].end < here.beg;
    assert forall x | li < x < |lines| :: here.end < lines[x].beg;
  }
}
