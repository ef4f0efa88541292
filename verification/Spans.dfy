/** From text to spans: the three passes over a block whose only mark characters are '*', '_' and '~'. */
module Spans {
  import opened Lines
  import opened Wrappers
  import opened MarkLaws
  import opened Marks
  import D = Delimiters
  import E = Emphasis
  import I = Inlines

  /** Marks that differ in their links only are parts of the same runs. */
  lemma {:induction false} PlainParts(orig: seq<Mark>, m: seq<Mark>, r: seq<Mark>)
    requires Parts(orig, m) && E.Plain(m) == E.Plain(r)
    ensures Parts(orig, r)
  {
    assert |E.Plain(m)| == |m| && |E.Plain(r)| == |r|;
    forall k | 0 <= k < |r| && IsDelim(r[k].ch) ensures PartOfSome(orig, r[k]) {
      assert E.Plain(m)[k] == E.Plain(r)[k];
      assert PartOfSome(orig, m[k]);
      PartOfPart(orig, r[k], m[k]);
    }
  }

  lemma {:induction false} OwnParts(m: seq<Mark>)
    ensures Parts(m, m)
  {
    forall k | 0 <= k < |m| && IsDelim(m[k].ch) ensures PartOfSome(m, m[k]) {
      assert PartOf(m[k], m[k]);
    }
  }

  /** Parts of runs stay within the line of the run. */
  lemma {:induction false} PartsInLines(text: string, lines: seq<Line>, cl: D.Classes, strike: bool, orig: seq<Mark>, m: seq<Mark>)
    requires LinesOk(text, lines) && D.Truthful(text, lines, cl, strike, orig) && Parts(orig, m)
    requires |m| > 0 && m[|m| - 1].beg >= |text|
    ensures I.Lined(m, lines)
  {
    forall k | 0 <= k < |m| && IsDelim(m[k].ch) ensures I.InLine(m[k], lines) {
      assert PartOfSome(orig, m[k]);
      var g :| 0 <= g < |orig| && IsDelim(orig[g].ch) && PartOf(m[k], orig[g]);
      assert D.TrueSomewhere(text, lines, cl, strike, orig[g]);
      var j :| 0 <= j < |lines| && D.TrueMark(text, lines[j], cl, strike, orig[g]);
      assert lines[j].beg <= m[k].beg && m[k].end <= lines[j].end;
    }
  }

  lemma {:induction false} NothingPaired(m: seq<Mark>)
    requires forall k | 0 <= k < |m| :: !m[k].opener && !m[k].closer && (k < |m| - 1 ==> !m[k].resolved)
    ensures PairsOk(m, 0)
  {
  }

  lemma {:induction false} FromLine(text: string, lines: seq<Line>, cl: D.Classes, strike: bool, m: seq<Mark>)
    requires LinesOk(text, lines) && D.Truthful(text, lines, cl, strike, m) && Layout(m) && m[|m| - 1] == D.Sentinel(|text|)
    ensures E.Analyzer.Clear(m, 0, lines[0].beg)
  {
    forall k | 0 <= k < |m| && m[k].ch != DUMMY ensures lines[0].beg <= m[k].beg {
      if k < |m| - 1 {
        assert D.TrueSomewhere(text, lines, cl, strike, m[k]);
        var j :| 0 <= j < |lines| && D.TrueMark(text, lines[j], cl, strike, m[k]);
        assert forall x | 0 < x < |lines| :: lines[0].end < lines[x].beg;
      }
    }
  }

  ghost predicate SamePlaces(a: seq<Mark>, b: seq<Mark>) {
    |a| == |b| && forall k | 0 <= k < |a| :: b[k].beg == a[k].beg
  }

  lemma {:induction false} PlacesTrans(a: seq<Mark>, b: seq<Mark>, c: seq<Mark>)
    requires SamePlaces(a, b) && SamePlaces(b, c)
    ensures SamePlaces(a, c)
  {
  }

  /** The places of the marks do not change. */
  lemma {:induction false} PlacesStay(m: seq<Mark>, i: nat)
    requires Layout(m) && PairsOk(m, i) && i <= |m|
    ensures SamePlaces(m, SimpleRun(m, i))
    decreases |m| - i
  {
    if i < |m| {
      var next := SimpleStep(m, i);
      SimpleStepOk(m, i);
      E.Analyzer.StepKeepsPlace(m, i);
      PlacesStay(next, i + 1);
      PlacesTrans(m, next, SimpleRun(next, i + 1));
    }
  }

  /** Rules 9 and 10 of section 6.2 of the CommonMark specification keep two runs apart. */
  predicate KeptApart(x: Mark, y: Mark) {
    && ((x.canOpen && x.canClose) || (y.canOpen && y.canClose))
    && (x.Len() + y.Len()) % 3 == 0 && (x.Len() % 3 != 0 || y.Len() % 3 != 0)
  }

  /** The marks `x` and `y` come from runs that the rules keep apart. */
  predicate FromRunsApart(runs: seq<Mark>, x: Mark, y: Mark) {
    exists g, h | 0 <= g < |runs| && 0 <= h < |runs| ::
      PartOf(x, runs[g]) && PartOf(y, runs[h]) && KeptApart(runs[g], runs[h])
  }

  /** A closer that is not paired has no opener of its character within reach, except where the rules forbid the pair. */
  ghost predicate NoneMissed(runs: seq<Mark>, marks: seq<Mark>) {
    forall o, c {:trigger InReach(marks, o, c)} | 0 <= o < c < |marks| && InReach(marks, o, c) ::
      IsDelim(marks[c].ch) && !marks[c].resolved && marks[c].canClose && marks[c].ch == marks[o].ch ==>
        if marks[c].ch == '~' then marks[o].Len() != marks[c].Len() else FromRunsApart(runs, marks[o], marks[c])
  }

  lemma {:induction false} NoneIsMissed(text: string, lines: seq<Line>, cl: D.Classes, strike: bool, runs: seq<Mark>,
                                        marks: seq<Mark>)
    requires D.Truthful(text, lines, cl, strike, runs) && Parts(runs, marks) && NothingLeft(marks, 0, |marks|)
    ensures NoneMissed(runs, marks)
  {
    forall o, c | 0 <= o < c < |marks| && InReach(marks, o, c)
      ensures IsDelim(marks[c].ch) && !marks[c].resolved && marks[c].canClose && marks[c].ch == marks[o].ch ==>
        if marks[c].ch == '~' then marks[o].Len() != marks[c].Len() else FromRunsApart(runs, marks[o], marks[c])
    {
      assert Stuck(marks, c);
      if IsEmph(marks[c].ch) && !marks[c].resolved && marks[c].canClose && marks[c].ch == marks[o].ch {
        assert PartOfSome(runs, marks[o]) && PartOfSome(runs, marks[c]);
        var g :| 0 <= g < |runs| && IsDelim(runs[g].ch) && PartOf(marks[o], runs[g]);
        var h :| 0 <= h < |runs| && IsDelim(runs[h].ch) && PartOf(marks[c], runs[h]);
        Known(text, lines, cl, strike, runs, g);
        Known(text, lines, cl, strike, runs, h);
        RuleOf3IsAboutRuns(marks[o], marks[c], runs[g], runs[h]);
      }
    }
  }

  lemma {:induction false} Known(text: string, lines: seq<Line>, cl: D.Classes, strike: bool, runs: seq<Mark>, g: nat)
    requires D.Truthful(text, lines, cl, strike, runs) && g < |runs| && IsEmph(runs[g].ch)
    ensures KnownRun(runs[g])
  {
    assert D.TrueSomewhere(text, lines, cl, strike, runs[g]);
  }

  /**
   * md_analyze_inlines and md_process_inlines: `runs` are the delimiter runs of the block, `marks` what the
   * stacks made of them. The pairs are those of looking back; every mark is a part of its run; the spans nest, and
   * are those of the pairs, each once; the text is the source without the resolved delimiters, each piece of it
   * inside the spans of the pairs around it. This is what the code does with a text that has no other mark
   * characters: no back-ticks, brackets, backslashes and so on.
   */
  method Render(text: string, lines: seq<Line>, cl: D.Classes, strike: bool, underline: bool)
    returns (out: seq<I.Event>, ghost runs: seq<Mark>, ghost marks: seq<Mark>)
    requires LinesOk(text, lines)
    ensures D.Truthful(text, lines, cl, strike, runs)
    ensures forall j | 0 <= j < |lines| :: D.Complete(text, lines[j], cl, strike, runs)
    ensures Layout(runs) && PairsOk(runs, 0) && E.Plain(marks) == E.Plain(SimpleRun(runs, 0))
    ensures Layout(marks) && PairsOk(marks, |marks|) && Parts(runs, marks)
    ensures NoneMissed(runs, marks) && AllNearest(marks) && Runs(runs, marks)
    ensures I.Nest([], out) == Some([])
    ensures I.Tags(out) == I.MarkTags(marks, underline, |marks|) && I.AllInPlace(marks, underline, out)
    ensures exists at :: I.Tells(marks, underline, I.Tags(out), |marks|, at)
    ensures I.Shown(out) == I.Rest(marks, lines, lines[0].beg) && I.ShowsLines(marks, lines, I.Shown(out))
  {
    var m := D.CollectMarks(text, lines, cl, strike);
    runs := m;
    NothingPaired(runs);
    FromLine(text, lines, cl, strike, runs);
    FreshLaws(runs);
    var analyzer := new E.Analyzer(m);
    analyzer.AnalyzeMarks(0, lines[0].beg);
    marks := analyzer.marks;
    OwnParts(runs);
    RunParts(runs, runs, 0);
    PlainParts(runs, SimpleRun(runs, 0), marks);
    NoneIsMissed(text, lines, cl, strike, runs, marks);
    PlacesStay(runs, 0);
    SamePlace(SimpleRun(runs, 0), marks);
    PartsInLines(text, lines, cl, strike, runs, marks);
    out := I.ProcessInlines(analyzer.marks, lines, underline);
  }

  lemma {:induction false} SamePlace(m: seq<Mark>, r: seq<Mark>)
    requires E.Plain(m) == E.Plain(r)
    ensures |m| == |r| && forall k | 0 <= k < |m| :: r[k].beg == m[k].beg
  {
    assert |E.Plain(m)| == |m| && |E.Plain(r)| == |r|;
    forall k | 0 <= k < |m| ensures r[k].beg == m[k].beg {
      assert E.Plain(m)[k] == E.Plain(r)[k];
    }
  }
}
