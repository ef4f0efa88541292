/** From text to HTML: the events of a block with emphasis and strikethrough, fed to the renderer. */
module SpanPage {
  import opened Lines
  import opened Marks
  import opened Wrappers
  import D = Delimiters
  import E = Emphasis
  import H = Html
  import I = Inlines
  import L = MarkLaws
  import S = Spans

  function KindOf(s: I.Span): (k: H.SpanKind)
    ensures k != H.Image
  {
    match s
    case Em => H.Em
    case Strong => H.Strong
    case Underline => H.Underline
    case Del => H.Del
  }

  function Kinds(open: seq<I.Span>): (r: seq<H.SpanKind>)
    ensures |r| == |open| && forall i | 0 <= i < |r| :: r[i] == KindOf(open[i])
  {
    seq(|open|, i requires 0 <= i < |open| => KindOf(open[i]))
  }

  // ----- what is to be seen -----

  /** The break behind line `k` is a hard one: on demand, or with two spaces there. */
  predicate IsHard(text: string, lines: seq<Line>, hardBreaks: bool, k: nat) {
    hardBreaks || (k < |lines| && lines[k].end + 1 < |text| && text[lines[k].end] == ' ' && text[lines[k].end + 1] == ' ')
  }

  function BreakKind(text: string, lines: seq<Line>, hardBreaks: bool, k: nat): H.TextKind {
    if IsHard(text, lines, hardBreaks, k) then H.HardBreak else H.SoftBreak
  }

  /** The characters at the places, escaped, and the line breaks, of which the next one is behind line `k`. */
  function Said(text: string, lines: seq<Line>, hardBreaks: bool, places: seq<int>, k: nat): string
    decreases |places|
  {
    if places == [] then ""
    else if places[0] == I.BREAK then
      H.TextOut(BreakKind(text, lines, hardBreaks, k), "\n", false) + Said(text, lines, hardBreaks, places[1..], k + 1)
    else
      (if 0 <= places[0] < |text| then H.EscapeOne(text[places[0]]) else "") + Said(text, lines, hardBreaks, places[1..], k)
  }

  // ----- the callbacks that are made -----

  function Slice(text: string, beg: nat, end: nat): string {
    if beg <= end <= |text| then text[beg..end] else ""
  }

  function Callbacks(text: string, lines: seq<Line>, hardBreaks: bool, e: I.Event, k: nat): seq<H.Event> {
    match e
    case Enter(s) => [H.Enter(KindOf(s))]
    case Leave(s) => [H.Leave(KindOf(s))]
    case Text(a, b) => [H.Text(H.Normal, Slice(text, a, b))]
    case LineBreak => [H.Text(BreakKind(text, lines, hardBreaks, k), "\n")]
  }

  function NextBreak(e: I.Event, k: nat): nat {
    if e.LineBreak? then k + 1 else k
  }

  function Stream(text: string, lines: seq<Line>, hardBreaks: bool, out: seq<I.Event>, k: nat): seq<H.Event>
    decreases |out|
  {
    if out == [] then []
    else Callbacks(text, lines, hardBreaks, out[0], k) + Stream(text, lines, hardBreaks, out[1..], NextBreak(out[0], k))
  }

  // ----- the spans are the same -----

  lemma {:induction false} SpansMore(front: seq<H.Event>, e: H.Event)
    ensures H.SpansOf(front + [e]) ==
      match H.SpansOf(front)
      case None => None
      case Some(open) =>
        match e
        case Enter(span) => Some(open + [span])
        case Leave(span) =>
          if open == [] || open[|open| - 1] != span then None else Some(open[..|open| - 1])
        case Text(_, _) => Some(open)
  {
    assert (front + [e])[..|front|] == front;
  }

  lemma {:induction false} EventSpans(text: string, lines: seq<Line>, hardBreaks: bool, e: I.Event, more: seq<I.Event>, k: nat,
                                      front: seq<H.Event>, open: seq<I.Span>) returns (next: seq<I.Span>)
    requires H.SpansOf(front) == Some(Kinds(open)) && I.Nest(open, [e] + more).Some?
    ensures I.Nest(open, [e] + more) == I.Nest(next, more)
    ensures H.SpansOf(front + Callbacks(text, lines, hardBreaks, e, k)) == Some(Kinds(next))
  {
    SpansMore(front, Callbacks(text, lines, hardBreaks, e, k)[0]);
    assert ([e] + more)[1..] == more;
    next := open;
    if e.Enter? {
      next := open + [e.span];
      assert Kinds(next) == Kinds(open) + [KindOf(e.span)];
    } else if e.Leave? {
      next := open[..|open| - 1];
      assert Kinds(next) == Kinds(open)[..|open| - 1];
    }
  }

  /** The renderer is told of the spans that the parser enters and leaves. */
  lemma {:induction false} StreamSpans(text: string, lines: seq<Line>, hardBreaks: bool, out: seq<I.Event>, k: nat,
                                       front: seq<H.Event>, open: seq<I.Span>)
    requires H.SpansOf(front) == Some(Kinds(open)) && I.Nest(open, out).Some?
    ensures H.SpansOf(front + Stream(text, lines, hardBreaks, out, k)) == Some(Kinds(I.Nest(open, out).value))
    decreases |out|
  {
    hide H.SpansOf;
    if out == [] {
      assert front + Stream(text, lines, hardBreaks, out, k) == front;
    } else {
      var now, more := Callbacks(text, lines, hardBreaks, out[0], k), NextBreak(out[0], k);
      assert out == [out[0]] + out[1..];
      var next := EventSpans(text, lines, hardBreaks, out[0], out[1..], k, front, open);
      StreamSpans(text, lines, hardBreaks, out[1..], more, front + now, next);
      assert front + (now + Stream(text, lines, hardBreaks, out[1..], more))
        == (front + now) + Stream(text, lines, hardBreaks, out[1..], more);
    }
  }

  // ----- the characters are the same -----

  /** The characters of the output, without the tags. */
  function CharsOf(pieces: seq<H.Piece>): string {
    if pieces == [] then ""
    else CharsOf(pieces[..|pieces| - 1]) + if pieces[|pieces| - 1].Chars? then pieces[|pieces| - 1].s else ""
  }

  /** What the texts of the stream look like outside of images. */
  function Words(events: seq<H.Event>): string {
    if events == [] then ""
    else (if events[0].Text? then H.TextOut(events[0].kind, events[0].text, false) else "") + Words(events[1..])
  }

  lemma {:induction false} WordsMore(a: seq<H.Event>, b: seq<H.Event>)
    ensures Words(a + b) == Words(a) + Words(b)
    decreases |a|
  {
    if a == [] {
      assert a + b == b;
    } else {
      assert (a + b)[1..] == a[1..] + b;
      WordsMore(a[1..], b);
    }
  }

  predicate NoImages(events: seq<H.Event>) {
    forall i | 0 <= i < |events| && !events[i].Text? :: events[i].span != H.Image
  }

  lemma {:induction false} StepWords(st: H.State, e: H.Event)
    requires st.level == 0 && (e.Text? || e.span != H.Image)
    ensures H.Step(st, e).level == 0
    ensures CharsOf(H.Step(st, e).output)
      == CharsOf(st.output) + if e.Text? then H.TextOut(e.kind, e.text, false) else ""
  {
    var after := H.Step(st, e).output;
    assert after[..|after| - 1] == st.output;
  }

  /** Without images the level stays where it is, and every text is put out. */
  lemma {:induction false} RunWords(st: H.State, events: seq<H.Event>)
    requires st.level == 0 && st.output == [] && NoImages(events)
    ensures H.Run(st, events).level == 0 && CharsOf(H.Run(st, events).output) == Words(events)
  {
    if events != [] {
      var front, e := events[..|events| - 1], events[|events| - 1];
      RunWords(st, front);
      StepWords(H.Run(st, front), e);
      assert events == front + [e];
      WordsMore(front, [e]);
      WordsOne(e);
    }
  }

  lemma {:induction false} StreamHasNoImages(text: string, lines: seq<Line>, hardBreaks: bool, out: seq<I.Event>, k: nat)
    ensures NoImages(Stream(text, lines, hardBreaks, out, k))
    decreases |out|
  {
    if out != [] {
      StreamHasNoImages(text, lines, hardBreaks, out[1..], NextBreak(out[0], k));
    }
  }

  lemma {:induction false} RangeSaid(text: string, lines: seq<Line>, hardBreaks: bool, a: nat, b: nat, rest: seq<int>, k: nat)
    requires a <= b <= |text|
    ensures Said(text, lines, hardBreaks, I.Range(a, b) + rest, k)
      == H.Escaped(text[a..b]) + Said(text, lines, hardBreaks, rest, k)
    decreases b - a
  {
    var places := I.Range(a, b) + rest;
    if a == b {
      assert places == rest;
    } else {
      assert places[1..] == I.Range(a + 1, b) + rest && places[0] == a && text[a..b][1..] == text[a + 1..b];
      RangeSaid(text, lines, hardBreaks, a + 1, b, rest, k);
    }
  }

  ghost predicate InText(text: string, places: seq<int>) {
    forall i | 0 <= i < |places| :: places[i] < |text|
  }

  lemma {:induction false} LastOfRange(a: int, b: int)
    requires a < b
    ensures |I.Range(a, b)| == b - a && I.Range(a, b)[b - a - 1] == b - 1
    decreases b - a
  {
    if a + 1 < b {
      LastOfRange(a + 1, b);
    }
  }

  lemma {:induction false} WordsOne(e: H.Event)
    ensures Words([e]) == if e.Text? then H.TextOut(e.kind, e.text, false) else ""
  {
    assert [e][1..] == [];
  }

  lemma {:induction false} BreakSaid(text: string, lines: seq<Line>, hardBreaks: bool, rest: seq<int>, k: nat)
    ensures Said(text, lines, hardBreaks, [I.BREAK] + rest, k)
      == H.TextOut(BreakKind(text, lines, hardBreaks, k), "\n", false) + Said(text, lines, hardBreaks, rest, k + 1)
  {
    assert ([I.BREAK] + rest)[1..] == rest;
  }

  lemma {:induction false} TextSaid(text: string, lines: seq<Line>, hardBreaks: bool, a: nat, b: nat, rest: seq<int>, k: nat)
    requires InText(text, I.Range(a, b))
    ensures Said(text, lines, hardBreaks, I.Range(a, b) + rest, k)
      == H.Escaped(Slice(text, a, b)) + Said(text, lines, hardBreaks, rest, k)
  {
    if a < b {
      LastOfRange(a, b);
      RangeSaid(text, lines, hardBreaks, a, b, rest, k);
    } else {
      assert I.Range(a, b) + rest == rest && Slice(text, a, b) == "";
    }
  }

  /** What the callback of one event says. */
  lemma {:induction false} EventSays(text: string, lines: seq<Line>, hardBreaks: bool, e: I.Event, rest: seq<int>, k: nat)
    requires InText(text, I.Place(e))
    ensures Said(text, lines, hardBreaks, I.Place(e) + rest, k)
      == Words(Callbacks(text, lines, hardBreaks, e, k)) + Said(text, lines, hardBreaks, rest, NextBreak(e, k))
  {
    hide Said, Words, I.Range;
    WordsOne(Callbacks(text, lines, hardBreaks, e, k)[0]);
    match e {
      case Enter(_) => assert I.Place(e) + rest == rest;
      case Leave(_) => assert I.Place(e) + rest == rest;
      case LineBreak => BreakSaid(text, lines, hardBreaks, rest, k);
      case Text(a, b) => TextSaid(text, lines, hardBreaks, a, b, rest, k);
    }
  }

  /** What the callbacks say is what is shown, escaped. */
  lemma {:induction false} StreamSays(text: string, lines: seq<Line>, hardBreaks: bool, out: seq<I.Event>, k: nat)
    requires InText(text, I.Shown(out))
    ensures Words(Stream(text, lines, hardBreaks, out, k)) == Said(text, lines, hardBreaks, I.Shown(out), k)
    decreases |out|
  {
    if out != [] {
      var e, next := out[0], NextBreak(out[0], k);
      var here, rest := I.Place(e), I.Shown(out[1..]);
      assert forall i | 0 <= i < |here| :: here[i] == I.Shown(out)[i];
      assert forall i | 0 <= i < |rest| :: rest[i] == I.Shown(out)[|here| + i];
      StreamSays(text, lines, hardBreaks, out[1..], next);
      WordsMore(Callbacks(text, lines, hardBreaks, e, k), Stream(text, lines, hardBreaks, out[1..], next));
      EventSays(text, lines, hardBreaks, e, rest, k);
    }
  }

  // ----- the whole way -----

  lemma {:induction false} KeptInText(m: seq<Mark>, off: int, end: int, n: nat)
    requires end <= n
    ensures forall i | 0 <= i < |I.Kept(m, off, end)| :: I.Kept(m, off, end)[i] < n
    decreases end - off
  {
    if off < end {
      KeptInText(m, off + 1, end, n);
    }
  }

  lemma {:induction false} RestInText(m: seq<Mark>, lines: seq<Line>, off: int, text: string)
    requires lines != [] && forall j | 0 <= j < |lines| :: lines[j].end <= |text|
    ensures InText(text, I.Rest(m, lines, off))
    decreases |lines|
  {
    KeptInText(m, off, lines[0].end, |text|);
    if |lines| > 1 {
      RestInText(m, lines[1..], lines[1].beg, text);
    }
  }

  /** The callbacks for one event. */
  method Tell(renderer: H.Renderer, text: string, lines: seq<Line>, hardBreaks: bool, e: I.Event, k: nat)
    modifies renderer
    ensures renderer.View() == H.Step(old(renderer.View()), Callbacks(text, lines, hardBreaks, e, k)[0])
  {
    match e {
      case Enter(s) => renderer.EnterSpan(KindOf(s));
      case Leave(s) => renderer.LeaveSpan(KindOf(s));
      case Text(a, b) => renderer.ShowText(H.Normal, Slice(text, a, b));
      case LineBreak => renderer.ShowText(BreakKind(text, lines, hardBreaks, k), "\n");
    }
  }

  lemma {:induction false} StreamNext(text: string, lines: seq<Line>, hardBreaks: bool, out: seq<I.Event>, n: nat, k: nat,
                                      done: seq<H.Event>)
    requires n < |out|
    ensures done + Stream(text, lines, hardBreaks, out[n..], k)
      == done + Callbacks(text, lines, hardBreaks, out[n], k)
         + Stream(text, lines, hardBreaks, out[n + 1..], NextBreak(out[n], k))
  {
    assert out[n..][1..] == out[n + 1..];
  }

  lemma {:induction false} RunNext(start: H.State, done: seq<H.Event>, now: seq<H.Event>)
    requires |now| == 1
    ensures H.Run(start, done + now) == H.Step(H.Run(start, done), now[0])
  {
    H.RunMore(start, done, now);
    assert now == [now[0]];
    H.RunOne(H.Run(start, done), now[0]);
  }

  lemma {:induction false} Ends(text: string, lines: seq<Line>, hardBreaks: bool, out: seq<I.Event>, k: nat, done: seq<H.Event>)
    requires out == []
    ensures done + Stream(text, lines, hardBreaks, out, k) == done
  {
  }

  /** The renderer runs through the stream. */
  method Feed(renderer: H.Renderer, text: string, lines: seq<Line>, hardBreaks: bool, out: seq<I.Event>)
    modifies renderer
    ensures renderer.View() == H.Run(old(renderer.View()), Stream(text, lines, hardBreaks, out, 0))
  {
    hide Stream, H.Renderer.View;
    ghost var start, whole, done := renderer.View(), Stream(text, lines, hardBreaks, out, 0), [];
    var k := 0;
    assert out[0..] == out && done + whole == whole;
    for n := 0 to |out|
      invariant done + Stream(text, lines, hardBreaks, out[n..], k) == whole
      invariant renderer.View() == H.Run(start, done)
    {
      ghost var now := Callbacks(text, lines, hardBreaks, out[n], k);
      StreamNext(text, lines, hardBreaks, out, n, k, done);
      RunNext(start, done, now);
      Tell(renderer, text, lines, hardBreaks, out[n], k);
      done := done + now;
      k := NextBreak(out[n], k);
    }
    Ends(text, lines, hardBreaks, out[|out|..], k, done);
  }

  /**
   * From the text of a block to HTML: the page is what the renderer makes of the events of the block, its tags are
   * in balance, and between them stand the characters of the source without the resolved delimiters, escaped, and
   * the line breaks.
   */
  method ToHtml(text: string, lines: seq<Line>, cl: D.Classes, strike: bool, underline: bool, hardBreaks: bool)
    returns (page: seq<H.Piece>, ghost out: seq<I.Event>, ghost runs: seq<Mark>, ghost marks: seq<Mark>)
    requires LinesOk(text, lines)
    ensures D.Truthful(text, lines, cl, strike, runs)
    ensures forall j | 0 <= j < |lines| :: D.Complete(text, lines[j], cl, strike, runs)
    ensures Layout(runs) && PairsOk(runs, 0) && E.Plain(marks) == E.Plain(SimpleRun(runs, 0))
    ensures S.NoneMissed(runs, marks) && L.AllNearest(marks) && L.Runs(runs, marks)
    ensures I.Tags(out) == I.MarkTags(marks, underline, |marks|) && I.AllInPlace(marks, underline, out)
    ensures exists at :: I.Tells(marks, underline, I.Tags(out), |marks|, at)
    ensures I.ShowsLines(marks, lines, I.Shown(out))
    ensures page == H.Run(H.State(0, []), Stream(text, lines, hardBreaks, out, 0)).output
    ensures PageFits(text, lines, hardBreaks, out, 0, page) && H.Tags([], page) == Some([])
    ensures CharsOf(page) == Said(text, lines, hardBreaks, I.Rest(marks, lines, lines[0].beg), 0)
  {
    var events;
    events, runs, marks := S.Render(text, lines, cl, strike, underline);
    out := events;
    var renderer := new H.Renderer();
    Feed(renderer, text, lines, hardBreaks, events);
    page := renderer.output;
    RestInText(marks, lines, lines[0].beg, text);
    PageOf(text, lines, hardBreaks, out);
    PageOfStream(text, lines, hardBreaks, out, 0, H.State(0, []));
    assert page[0..] == page;
  }

  // ----- the page, piece by piece -----

  /** What an event looks like on the page; `k` is the number of line breaks before it. */
  ghost predicate LooksLike(text: string, lines: seq<Line>, hardBreaks: bool, e: I.Event, k: nat, p: H.Piece) {
    match e
    case Enter(s) => p == H.Open(match s case Em => H.Em case Strong => H.Strong case Underline => H.Underline case Del => H.Del)
    case Leave(s) => p == H.Close(match s case Em => H.Em case Strong => H.Strong case Underline => H.Underline case Del => H.Del)
    case Text(a, b) => a <= b <= |text| ==> p == H.Chars(H.Escaped(text[a..b]))
    case LineBreak => p == H.Chars(
      if hardBreaks || (k < |lines| && lines[k].end + 1 < |text| && text[lines[k].end] == ' ' && text[lines[k].end + 1] == ' ')
        then "<br>\n" else "\n")
  }

  function BreaksIn(out: seq<I.Event>): nat {
    multiset(out)[I.LineBreak]
  }

  /** The page has one piece for each event. */
  ghost predicate PageFits(text: string, lines: seq<Line>, hardBreaks: bool, out: seq<I.Event>, k: nat, page: seq<H.Piece>) {
    |page| == |out| && forall i {:trigger PieceFits(text, lines, hardBreaks, out, k, page, i)} | 0 <= i < |out| ::
      PieceFits(text, lines, hardBreaks, out, k, page, i)
  }

  ghost predicate PieceFits(text: string, lines: seq<Line>, hardBreaks: bool, out: seq<I.Event>, k: nat, page: seq<H.Piece>, i: int)
    requires 0 <= i < |out| == |page|
  {
    LooksLike(text, lines, hardBreaks, out[i], k + BreaksIn(out[..i]), page[i])
  }

  lemma {:induction false} OnePiece(text: string, lines: seq<Line>, hardBreaks: bool, e: I.Event, k: nat, st: H.State)
    requires st.level == 0
    ensures
      var next := H.Step(st, Callbacks(text, lines, hardBreaks, e, k)[0]);
      && next.level == 0 && |next.output| == |st.output| + 1 && next.output[..|st.output|] == st.output
      && LooksLike(text, lines, hardBreaks, e, k, next.output[|st.output|])
  {
  }

  lemma {:induction false} PageOfStream(text: string, lines: seq<Line>, hardBreaks: bool, out: seq<I.Event>, k: nat, st: H.State)
    requires st.level == 0
    ensures
      var r := H.Run(st, Stream(text, lines, hardBreaks, out, k)).output;
      |st.output| <= |r| && r[..|st.output|] == st.output && PageFits(text, lines, hardBreaks, out, k, r[|st.output|..])
    decreases |out|
  {
    hide LooksLike, PageFits, H.Step, H.Run, Callbacks;
    if out == [] {
      RunNothing(st);
      PageOfNothing(text, lines, hardBreaks, k, st.output);
    } else {
      var now, rest, more := Callbacks(text, lines, hardBreaks, out[0], k), out[1..], NextBreak(out[0], k);
      OneCallback(text, lines, hardBreaks, out[0], k);
      H.RunMore(st, now, Stream(text, lines, hardBreaks, rest, more));
      H.RunOne(st, now[0]);
      var next := H.Step(st, now[0]);
      OnePiece(text, lines, hardBreaks, out[0], k, st);
      PageOfStream(text, lines, hardBreaks, rest, more, next);
      var page := H.Run(st, Stream(text, lines, hardBreaks, out, k)).output;
      Behind(page, st.output, next.output);
      PutTogether(text, lines, hardBreaks, out[0], rest, k, next.output[|st.output|], page[|next.output|..]);
      assert out == [out[0]] + rest;
    }
  }

  lemma {:induction false} OneCallback(text: string, lines: seq<Line>, hardBreaks: bool, e: I.Event, k: nat)
    ensures var now := Callbacks(text, lines, hardBreaks, e, k); now == [now[0]]
  {
  }

  lemma {:induction false} PageOfNothing(text: string, lines: seq<Line>, hardBreaks: bool, k: nat, page: seq<H.Piece>)
    ensures PageFits(text, lines, hardBreaks, [], k, page[|page|..])
  {
  }

  lemma {:induction false} RunNothing(st: H.State)
    ensures H.Run(st, []) == st
  {
  }

  lemma {:induction false} PutTogether(text: string, lines: seq<Line>, hardBreaks: bool, e: I.Event, rest: seq<I.Event>, k: nat,
                                       p: H.Piece, tail: seq<H.Piece>)
    requires LooksLike(text, lines, hardBreaks, e, k, p)
    requires PageFits(text, lines, hardBreaks, rest, NextBreak(e, k), tail)
    ensures PageFits(text, lines, hardBreaks, [e] + rest, k, [p] + tail)
  {
    hide BreaksIn, LooksLike;
    var out, page := [e] + rest, [p] + tail;
    forall i | 0 <= i < |out| ensures PieceFits(text, lines, hardBreaks, out, k, page, i) {
      if i > 0 {
        assert PieceFits(text, lines, hardBreaks, rest, NextBreak(e, k), tail, i - 1);
        assert out[i] == rest[i - 1] && page[i] == tail[i - 1];
        BreaksMore(e, rest, i);
      } else {
        NoBreaks(out[..0]);
      }
    }
  }

  lemma {:induction false} NoBreaks(none: seq<I.Event>)
    requires none == []
    ensures BreaksIn(none) == 0
  {
  }

  lemma {:induction false} BreaksMore(e: I.Event, rest: seq<I.Event>, i: nat)
    requires 0 < i <= |rest| + 1
    ensures BreaksIn(([e] + rest)[..i]) == BreaksIn(rest[..i - 1]) + if e.LineBreak? then 1 else 0
  {
    assert ([e] + rest)[..i] == [e] + rest[..i - 1];
  }

  lemma {:induction false} Behind(page: seq<H.Piece>, front: seq<H.Piece>, next: seq<H.Piece>)
    requires |next| == |front| + 1 && next[..|front|] == front && |next| <= |page| && page[..|next|] == next
    ensures page[..|front|] == front && page[|front|..] == [next[|front|]] + page[|next|..]
  {
    assert page[..|front|] == page[..|next|][..|front|];
    assert page[|front|] == page[..|next|][|front|];
  }

  /** What comes of a well-nested stream: the tags are in balance, and the characters are those that are shown. */
  lemma {:induction false} PageOf(text: string, lines: seq<Line>, hardBreaks: bool, out: seq<I.Event>)
    requires I.Nest([], out) == Some([]) && InText(text, I.Shown(out))
    ensures
      var page := H.Run(H.State(0, []), Stream(text, lines, hardBreaks, out, 0)).output;
      H.Tags([], page) == Some([]) && CharsOf(page) == Said(text, lines, hardBreaks, I.Shown(out), 0)
  {
    var stream := Stream(text, lines, hardBreaks, out, 0);
    StreamSpans(text, lines, hardBreaks, out, 0, [], []);
    assert [] + stream == stream;
    H.StreamIsNested(stream);
    StreamHasNoImages(text, lines, hardBreaks, out, 0);
    RunWords(H.State(0, []), stream);
    StreamSays(text, lines, hardBreaks, out, 0);
  }
}
