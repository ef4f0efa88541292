/**
 * The HTML renderer: escaping, and what it makes of the spans and texts it is told about, where nothing but text may
 * be in the description of an image.
 */
module Html {
  import opened Wrappers

  // ----- escaping -----

  predicate NeedsEscape(c: char) {
    c == '&' || c == '<' || c == '>' || c == '"' || c == '\0'   // the terminator of the list of characters counts, too
  }

  function EscapeOne(c: char): string {
    if c == '&' then "&amp;"
    else if c == '<' then "&lt;"
    else if c == '>' then "&gt;"
    else if c == '"' then "&quot;"
    else if c == '\0' then ""
    else [c]
  }

  function Mapped(f: char -> string, s: string): string {
    if s == "" then "" else f(s[0]) + Mapped(f, s[1..])
  }

  function Escaped(s: string): string {
    Mapped(EscapeOne, s)
  }

  lemma {:induction false} MappedMore(f: char -> string, s: string, t: string)
    ensures Mapped(f, s + t) == Mapped(f, s) + Mapped(f, t)
  {
    if s == "" {
      assert s + t == t;
    } else {
      assert (s + t)[1..] == s[1..] + t;
      MappedMore(f, s[1..], t);
    }
  }

  lemma {:induction false} MappedOne(f: char -> string, c: char)
    ensures Mapped(f, [c]) == f(c)
  {
    assert [c][1..] == "";
  }

  lemma {:induction false} PlainEscaped(s: string)
    requires forall i | 0 <= i < |s| :: !NeedsEscape(s[i])
    ensures Escaped(s) == s
  {
    if s != "" {
      PlainEscaped(s[1..]);
      assert s == [s[0]] + s[1..];
    }
  }

  /** A piece without such characters, and the one behind it. */
  lemma {:induction false} EscapedPiece(data: string, beg: nat, off: nat)
    requires beg <= off <= |data| && forall i | beg <= i < off :: !NeedsEscape(data[i])
    ensures Escaped(data[..beg]) + data[beg..off] == Escaped(data[..off])
    ensures off == beg ==> data[..beg] == data[..off]
    ensures off == |data| ==> data[..off] == data
  {
    PlainEscaped(data[beg..off]);
    MappedMore(EscapeOne, data[..beg], data[beg..off]);
    assert data[..beg] + data[beg..off] == data[..off];
  }

  lemma {:induction false} EscapedNext(data: string, off: nat)
    requires off < |data|
    ensures Escaped(data[..off + 1]) == Escaped(data[..off]) + EscapeOne(data[off])
  {
    MappedMore(EscapeOne, data[..off], [data[off]]);
    MappedOne(EscapeOne, data[off]);
    assert data[..off] + [data[off]] == data[..off + 1];
  }

  /** What a reader of HTML makes of it. */
  function Unescape(s: string): string {
    if s == "" then ""
    else if "&amp;" <= s then "&" + Unescape(s[5..])
    else if "&lt;" <= s then "<" + Unescape(s[4..])
    else if "&gt;" <= s then ">" + Unescape(s[4..])
    else if "&quot;" <= s then "\"" + Unescape(s[6..])
    else [s[0]] + Unescape(s[1..])
  }

  function WithoutNul(s: string): string {
    if s == "" then "" else (if s[0] == '\0' then "" else [s[0]]) + WithoutNul(s[1..])
  }

  lemma {:induction false} UnescapeOne(c: char, rest: string)
    requires c != '\0'
    ensures Unescape(EscapeOne(c) + rest) == [c] + Unescape(rest)
  {
    var e := EscapeOne(c);
    assert (e + rest)[|e|..] == rest && e <= e + rest;
    if !NeedsEscape(c) {
      assert (e + rest)[0] == c;
    } else {
      assert (e + rest)[1] == e[1];
    }
  }

  lemma {:induction false} UnescapeEscaped(s: string)
    ensures Unescape(Escaped(s)) == WithoutNul(s)
  {
    if s != "" {
      assert s == [s[0]] + s[1..];
      MappedMore(EscapeOne, [s[0]], s[1..]);
      MappedOne(EscapeOne, s[0]);
      UnescapeEscaped(s[1..]);
      if s[0] != '\0' {
        UnescapeOne(s[0], Escaped(s[1..]));
      } else {
        assert "" + Escaped(s[1..]) == Escaped(s[1..]);
      }
    }
  }

  lemma {:induction false} WithoutNulIsShorter(s: string)
    ensures |WithoutNul(s)| <= |s|
    ensures WithoutNul(s) == s <==> '\0' !in s
  {
    if s != "" {
      WithoutNulIsShorter(s[1..]);
      assert s == [s[0]] + s[1..];
      assert s[0] != '\0' ==> WithoutNul(s)[1..] == WithoutNul(s[1..]);
    }
  }

  /** The text comes back if, and only if, there is no NUL in it. */
  lemma {:induction false} EscapeRoundTrip(s: string)
    ensures Unescape(Escaped(s)) == s <==> '\0' !in s
  {
    UnescapeEscaped(s);
    WithoutNulIsShorter(s);
  }

  /** A text that is lost: a NUL counts as a character to escape, and nothing is put out for it. */
  lemma {:induction false} NulIsLost()
    ensures Escaped("\0") == "" && Unescape(Escaped("\0")) != "\0"
  {
    MappedOne(EscapeOne, '\0');
  }

  predicate Harmless(s: string) {
    '<' !in s && '>' !in s && '"' !in s
  }

  lemma {:induction false} HarmlessTogether(a: string, b: string)
    requires Harmless(a) && Harmless(b)
    ensures Harmless(a + b)
  {
  }

  lemma {:induction false} EscapedIsHarmless(s: string)
    ensures Harmless(Escaped(s))
  {
    if s != "" {
      EscapedIsHarmless(s[1..]);
      HarmlessTogether(EscapeOne(s[0]), Escaped(s[1..]));
    }
  }

  // ----- spans and texts -----

  datatype SpanKind = Em | Strong | Underline | Link | Image | CodeSpan | Del | Equation | EquationDisplay | WikiLink

  datatype TextKind = Normal | HardBreak | SoftBreak | RawHtml | NullChar

  datatype Event = Enter(span: SpanKind) | Leave(span: SpanKind) | Text(kind: TextKind, text: string)

  /** What is put out: a tag, where that of an image is open as long as its description lasts, or characters. */
  datatype Piece = Open(span: SpanKind) | Close(span: SpanKind) | Chars(s: string)

  function TextOut(kind: TextKind, text: string, inImage: bool): string {
    match kind
    case Normal => Escaped(text)
    case HardBreak => if inImage then " " else "<br>\n"
    case SoftBreak => if inImage then " " else "\n"
    case RawHtml => text
    case NullChar => "\U{FFFD}"
  }

  /** Outside an image a hard break is a tag, and a soft break is none; inside it both are a space. */
  lemma {:induction false} BreaksLook(text: string)
    ensures "<br>" <= TextOut(HardBreak, text, false)
    ensures '<' !in TextOut(SoftBreak, text, false) && '\n' in TextOut(SoftBreak, text, false)
    ensures TextOut(HardBreak, text, true) == TextOut(SoftBreak, text, true) == " "
  {
    assert TextOut(HardBreak, text, false) == "<br>" + "\n";
  }

  datatype State = State(level: int, output: seq<Piece>)

  function Step(st: State, e: Event): State {
    match e
    case Enter(span) =>
      State(
        if span == Image then st.level + 1 else st.level,
        if st.level > 0 then st.output else st.output + [Open(span)])
    case Leave(span) =>
      var level := if span == Image then st.level - 1 else st.level;
      State(level, if level > 0 then st.output else st.output + [Close(span)])
    case Text(kind, text) => st.(output := st.output + [Chars(TextOut(kind, text, st.level != 0))])
  }

  function Run(st: State, events: seq<Event>): State {
    if events == [] then st else Step(Run(st, events[..|events| - 1]), events[|events| - 1])
  }

  lemma {:induction false} RunMore(st: State, a: seq<Event>, b: seq<Event>)
    ensures Run(st, a + b) == Run(Run(st, a), b)
  {
    if b == [] {
      assert a + b == a;
    } else {
      assert (a + b)[..|a + b| - 1] == a + b[..|b| - 1];
      RunMore(st, a, b[..|b| - 1]);
    }
  }

  lemma {:induction false} RunOne(st: State, e: Event)
    ensures Run(st, [e]) == Step(st, e)
  {
    assert [e][..0] == [];
  }

  // ----- well-nested events -----

  /** Some text and spans, one after the other. */
  datatype Nodes =
    | Nil
    | TextNode(kind: TextKind, text: string, rest: Nodes)
    | SpanNode(span: SpanKind, inner: Nodes, rest: Nodes)

  function Events(nodes: Nodes): seq<Event> {
    match nodes
    case Nil => []
    case TextNode(kind, text, rest) => [Text(kind, text)] + Events(rest)
    case SpanNode(span, inner, rest) => [Enter(span)] + Events(inner) + [Leave(span)] + Events(rest)
  }

  /** What the nodes should look like: in an image there is its description. */
  function Page(nodes: Nodes): seq<Piece> {
    match nodes
    case Nil => []
    case TextNode(kind, text, rest) => [Chars(TextOut(kind, text, false))] + Page(rest)
    case SpanNode(span, inner, rest) =>
      [Open(span)] + (if span == Image then Description(inner) else Page(inner)) + [Close(span)] + Page(rest)
  }

  /** The texts alone, without the spans they stand in. */
  function Description(nodes: Nodes): seq<Piece> {
    match nodes
    case Nil => []
    case TextNode(kind, text, rest) => [Chars(TextOut(kind, text, true))] + Description(rest)
    case SpanNode(_, inner, rest) => Description(inner) + Description(rest)
  }

  lemma {:induction false} RunSpan(st: State, span: SpanKind, inner: seq<Event>, rest: seq<Event>)
    ensures
      Run(st, [Enter(span)] + inner + [Leave(span)] + rest)
      == Run(Step(Run(Step(st, Enter(span)), inner), Leave(span)), rest)
  {
    RunMore(st, [Enter(span)] + inner + [Leave(span)], rest);
    RunMore(st, [Enter(span)] + inner, [Leave(span)]);
    RunMore(st, [Enter(span)], inner);
    RunOne(st, Enter(span));
    RunOne(Run(Step(st, Enter(span)), inner), Leave(span));
  }

  lemma {:induction false} RunText(st: State, kind: TextKind, text: string, rest: seq<Event>)
    ensures Run(st, [Text(kind, text)] + rest) == Run(Step(st, Text(kind, text)), rest)
  {
    RunMore(st, [Text(kind, text)], rest);
    RunOne(st, Text(kind, text));
  }

  /** What `pieces` and then `more` are put out after is what both are put out after. */
  lemma {:induction false} Together(output: seq<Piece>, pieces: seq<Piece>, more: seq<Piece>)
    ensures output + pieces + more == output + (pieces + more)
    ensures output + [] == output
  {
  }

  lemma {:induction false} AroundContent(output: seq<Piece>, span: SpanKind, content: seq<Piece>, more: seq<Piece>)
    ensures
      output + [Open(span)] + content + [Close(span)] + more == output + ([Open(span)] + content + [Close(span)] + more)
  {
  }

  /** In the description of an image, spans leave no trace, not even further images. */
  lemma {:induction false} InsideImage(st: State, nodes: Nodes)
    requires st.level > 0
    ensures Run(st, Events(nodes)) == State(st.level, st.output + Description(nodes))
    decreases nodes
  {
    match nodes
    case Nil =>
      Together(st.output, [], []);
    case TextNode(kind, text, rest) =>
      RunText(st, kind, text, Events(rest));
      InsideImage(Step(st, Text(kind, text)), rest);
      Together(st.output, [Chars(TextOut(kind, text, true))], Description(rest));
    case SpanNode(span, inner, rest) =>
      InsideSpan(st, span, inner, rest);
  }

  lemma {:induction false} InsideSpan(st: State, span: SpanKind, inner: Nodes, rest: Nodes)
    requires st.level > 0
    ensures
      var nodes := SpanNode(span, inner, rest);
      Run(st, Events(nodes)) == State(st.level, st.output + Description(nodes))
    decreases SpanNode(span, inner, rest), 0
  {
    RunSpan(st, span, Events(inner), Events(rest));
    var within := Step(st, Enter(span));
    InsideImage(within, inner);
    var next := State(st.level, st.output + Description(inner));
    assert Step(State(within.level, st.output + Description(inner)), Leave(span)) == next;
    InsideImage(next, rest);
    Together(st.output, Description(inner), Description(rest));
  }

  /** Outside of images the output is the page, and the nesting level is what it was. */
  lemma {:induction false} OutsideImage(st: State, nodes: Nodes)
    requires st.level == 0
    ensures Run(st, Events(nodes)) == State(0, st.output + Page(nodes))
    decreases nodes
  {
    match nodes
    case Nil =>
      Together(st.output, [], []);
    case TextNode(kind, text, rest) =>
      RunText(st, kind, text, Events(rest));
      OutsideImage(Step(st, Text(kind, text)), rest);
      Together(st.output, [Chars(TextOut(kind, text, false))], Page(rest));
    case SpanNode(span, inner, rest) =>
      OutsideSpan(st, span, inner, rest);
  }

  function Content(span: SpanKind, inner: Nodes): seq<Piece> {
    if span == Image then Description(inner) else Page(inner)
  }

  lemma {:induction false} OutsideSpan(st: State, span: SpanKind, inner: Nodes, rest: Nodes)
    requires st.level == 0
    ensures
      var nodes := SpanNode(span, inner, rest);
      Run(st, Events(nodes)) == State(0, st.output + Page(nodes))
    decreases SpanNode(span, inner, rest), 0
  {
    RunSpan(st, span, Events(inner), Events(rest));
    if span == Image {
      InsideImage(Step(st, Enter(span)), inner);
    } else {
      OutsideImage(Step(st, Enter(span)), inner);
    }
    OutsideImage(State(0, st.output + [Open(span)] + Content(span, inner) + [Close(span)]), rest);
    AroundContent(st.output, span, Content(span, inner), Page(rest));
  }

  // ----- what a page is like -----

  /** The open tags; None where a tag is closed that is not the innermost one, or opened in the tag of an image. */
  function Tags(open: seq<SpanKind>, pieces: seq<Piece>): Option<seq<SpanKind>>
    decreases |pieces|
  {
    if pieces == [] then Some(open)
    else match pieces[0]
      case Open(span) =>
        if open != [] && open[|open| - 1] == Image then None else Tags(open + [span], pieces[1..])
      case Close(span) =>
        if open == [] || open[|open| - 1] != span then None else Tags(open[..|open| - 1], pieces[1..])
      case Chars(_) => Tags(open, pieces[1..])
  }

  lemma {:induction false} TagsMore(open: seq<SpanKind>, a: seq<Piece>, b: seq<Piece>)
    ensures Tags(open, a + b) == match Tags(open, a) case None => None case Some(next) => Tags(next, b)
    decreases |a|
  {
    if a == [] {
      assert a + b == b;
    } else {
      assert (a + b)[1..] == a[1..] + b;
      match a[0]
      case Open(span) => TagsMore(open + [span], a[1..], b);
      case Close(span) =>
        if open != [] && open[|open| - 1] == span {
          TagsMore(open[..|open| - 1], a[1..], b);
        }
      case Chars(_) => TagsMore(open, a[1..], b);
    }
  }

  lemma {:induction false} DescriptionHasNoTags(open: seq<SpanKind>, nodes: Nodes)
    ensures Tags(open, Description(nodes)) == Some(open)
    ensures forall p | p in Description(nodes) :: p.Chars?
    decreases nodes
  {
    match nodes
    case Nil =>
    case TextNode(kind, text, rest) =>
      DescriptionHasNoTags(open, rest);
      assert Description(nodes)[1..] == Description(rest);
    case SpanNode(span, inner, rest) =>
      DescriptionHasNoTags(open, inner);
      DescriptionHasNoTags(open, rest);
      TagsMore(open, Description(inner), Description(rest));
  }

  /** Every tag is closed, in reverse order, and there is no tag inside that of an image. */
  lemma {:induction false} PageIsNested(open: seq<SpanKind>, nodes: Nodes)
    requires open == [] || open[|open| - 1] != Image
    ensures Tags(open, Page(nodes)) == Some(open)
    decreases nodes
  {
    match nodes
    case Nil =>
    case TextNode(kind, text, rest) =>
      PageIsNested(open, rest);
      assert Page(nodes)[1..] == Page(rest);
    case SpanNode(span, inner, rest) =>
      if span == Image {
        DescriptionHasNoTags(open + [span], inner);
      } else {
        PageIsNested(open + [span], inner);
      }
      PageIsNested(open, rest);
      TagsOfSpan(open, span, Content(span, inner), Page(rest));
  }

  lemma {:induction false} TagsOfSpan(open: seq<SpanKind>, span: SpanKind, content: seq<Piece>, rest: seq<Piece>)
    requires (open == [] || open[|open| - 1] != Image) && Tags(open + [span], content) == Some(open + [span])
    ensures Tags(open, [Open(span)] + content + [Close(span)] + rest) == Tags(open, rest)
  {
    var end := [Close(span)] + rest;
    assert [Open(span)] + content + [Close(span)] + rest == [Open(span)] + (content + end);
    assert ([Open(span)] + (content + end))[1..] == content + end;
    TagsMore(open + [span], content, end);
    assert end[1..] == rest && (open + [span])[..|open|] == open;
  }

  // ----- any stream of events -----

  /** The spans that are open; None where one is left that is not the innermost one. */
  function SpansOf(events: seq<Event>): Option<seq<SpanKind>> {
    if events == [] then Some([])
    else
      var before := SpansOf(events[..|events| - 1]);
      if before.None? then None
      else match events[|events| - 1]
        case Enter(span) => Some(before.value + [span])
        case Leave(span) =>
          if before.value == [] || before.value[|before.value| - 1] != span then None
          else Some(before.value[..|before.value| - 1])
        case Text(_, _) => before
  }

  function Images(open: seq<SpanKind>): nat {
    if open == [] then 0 else Images(open[..|open| - 1]) + if open[|open| - 1] == Image then 1 else 0
  }

  /** The spans up to the outermost image. */
  function Visible(open: seq<SpanKind>): seq<SpanKind> {
    if open == [] then []
    else
      var v := Visible(open[..|open| - 1]);
      if v != [] && v[|v| - 1] == Image then v else v + [open[|open| - 1]]
  }

  lemma {:induction false} ImageIsVisible(open: seq<SpanKind>)
    ensures Images(open) > 0 <==> Visible(open) != [] && Visible(open)[|Visible(open)| - 1] == Image
  {
    if open != [] {
      ImageIsVisible(open[..|open| - 1]);
    }
  }

  lemma {:induction false} TagsLast(pieces: seq<Piece>, p: Piece)
    ensures
      Tags([], pieces + [p])
      == match Tags([], pieces) case None => None case Some(open) => Tags(open, [p])
  {
    TagsMore([], pieces, [p]);
  }

  /**
   * As long as the spans of a stream are well nested, so are the tags of the output, whose open ones are the spans
   * up to the outermost image; and the nesting level is the number of open images.
   */
  lemma {:induction false} StreamIsNested(events: seq<Event>)
    requires SpansOf(events).Some?
    ensures
      var st, open := Run(State(0, []), events), SpansOf(events).value;
      st.level == Images(open) && Tags([], st.output) == Some(Visible(open))
  {
    if events != [] {
      var front, e := events[..|events| - 1], events[|events| - 1];
      StreamIsNested(front);
      NextIsNested(Run(State(0, []), front), SpansOf(front).value, e, SpansOf(events).value);
    }
  }

  lemma {:induction false} NextIsNested(st: State, open: seq<SpanKind>, e: Event, next: seq<SpanKind>)
    requires st.level == Images(open) && Tags([], st.output) == Some(Visible(open))
    requires
      match e
      case Enter(span) => next == open + [span]
      case Leave(span) => open == next + [span]
      case Text(_, _) => next == open
    ensures Step(st, e).level == Images(next) && Tags([], Step(st, e).output) == Some(Visible(next))
  {
    match e
    case Enter(span) =>
      assert next[..|open|] == open;
      ImageIsVisible(open);
      TagsLast(st.output, Open(span));
      assert [Open(span)][1..] == [];
    case Leave(span) =>
      assert open[..|next|] == next;
      ImageIsVisible(next);
      TagsLast(st.output, Close(span));
      assert [Close(span)][1..] == [];
      assert (Visible(next) + [span])[..|Visible(next)|] == Visible(next);
    case Text(kind, text) =>
      TagsLast(st.output, Chars(TextOut(kind, text, st.level != 0)));
  }

  /** A raw piece of HTML in a description would end the attribute or begin a tag. */
  predicate RawIsHarmless(nodes: Nodes) {
    match nodes
    case Nil => true
    case TextNode(kind, text, rest) => (kind == RawHtml ==> Harmless(text)) && RawIsHarmless(rest)
    case SpanNode(_, inner, rest) => RawIsHarmless(inner) && RawIsHarmless(rest)
  }

  ghost predicate AllHarmless(pieces: seq<Piece>) {
    forall p | p in pieces && p.Chars? :: Harmless(p.s)
  }

  lemma {:induction false} HarmlessMore(a: seq<Piece>, b: seq<Piece>)
    ensures AllHarmless(a + b) <==> AllHarmless(a) && AllHarmless(b)
  {
    assert forall p | p in a :: p in a + b;
    assert forall p | p in b :: p in a + b;
  }

  lemma {:induction false} HarmlessOne(s: string)
    ensures AllHarmless([Chars(s)]) <==> Harmless(s)
  {
    assert Chars(s) in [Chars(s)];
  }

  /** The description of an image stays inside its quotes exactly if the raw HTML in it would do so. */
  lemma {:induction false} DescriptionIsHarmless(nodes: Nodes)
    ensures AllHarmless(Description(nodes)) <==> RawIsHarmless(nodes)
  {
    match nodes
    case Nil =>
    case TextNode(kind, text, rest) =>
      DescriptionIsHarmless(rest);
      EscapedIsHarmless(text);
      HarmlessOne(TextOut(kind, text, true));
      HarmlessMore([Chars(TextOut(kind, text, true))], Description(rest));
    case SpanNode(span, inner, rest) =>
      DescriptionIsHarmless(inner);
      DescriptionIsHarmless(rest);
      HarmlessMore(Description(inner), Description(rest));
  }

  /** A piece of raw HTML that ends the description before its end. */
  lemma {:induction false} RawHtmlInDescription()
    ensures
      var nodes := TextNode(RawHtml, "\">", Nil);
      Page(SpanNode(Image, nodes, Nil)) == [Open(Image), Chars("\">"), Close(Image)] && !AllHarmless(Description(nodes))
  {
    var nodes := TextNode(RawHtml, "\">", Nil);
    assert Description(nodes) == [Chars("\">")] + Description(Nil) == [Chars("\">")];
    HarmlessOne("\">");
    assert "\">"[0] == '"';
    assert [Open(Image)] + [Chars("\">")] + [Close(Image)] + Page(Nil) == [Open(Image), Chars("\">"), Close(Image)];
  }

  // ----- the renderer -----

  class Renderer {
    var imageNestingLevel: int
    var output: seq<Piece>

    ghost function View(): State
      reads this
    {
      State(imageNestingLevel, output)
    }

    constructor ()
      ensures View() == State(0, [])
    {
      imageNestingLevel, output := 0, [];
    }

    /** enter_span_callback */
    method EnterSpan(span: SpanKind)
      modifies this
      ensures View() == Step(old(View()), Enter(span))
    {
      var insideImage := imageNestingLevel > 0;
      if span == Image {
        imageNestingLevel := imageNestingLevel + 1;
      }
      if insideImage {
        return;
      }
      output := output + [Open(span)];
    }

    /** leave_span_callback */
    method LeaveSpan(span: SpanKind)
      modifies this
      ensures View() == Step(old(View()), Leave(span))
    {
      if span == Image {
        imageNestingLevel := imageNestingLevel - 1;
      }
      if imageNestingLevel > 0 {
        return;
      }
      output := output + [Close(span)];
    }

    /** text_callback */
    method ShowText(kind: TextKind, text: string)
      modifies this
      ensures View() == Step(old(View()), Text(kind, text))
      ensures kind == HardBreak ==> output == old(output) + [Chars(if imageNestingLevel == 0 then "<br>\n" else " ")]
      ensures kind == SoftBreak ==> output == old(output) + [Chars(if imageNestingLevel == 0 then "\n" else " ")]
      ensures kind == RawHtml ==> output == old(output) + [Chars(text)]
    {
      var s: string;
      match kind {
        case NullChar => s := "\U{FFFD}";
        case HardBreak => s := if imageNestingLevel == 0 then "<br>\n" else " ";
        case SoftBreak => s := if imageNestingLevel == 0 then "\n" else " ";
        case RawHtml => s := text;
        case Normal => s := RenderEscaped(text);
      }
      output := output + [Chars(s)];
    }

    /** render_html_escaped: the pieces of text between the characters that have to be escaped. */
    method RenderEscaped(data: string) returns (s: string)
      ensures s == Escaped(data)
    {
      s := "";
      var beg := 0;
      while true
        invariant beg <= |data| && s == Escaped(data[..beg])
        decreases |data| - beg
      {
        var off := NextEscape(data, beg);
        EscapedPiece(data, beg, off);
        if off > beg {
          s := s + data[beg..off];
        }
        if off >= |data| {
          return;
        }
        EscapedNext(data, off);
        var escape := Escape(data[off]);
        s := s + escape;
        beg := off + 1;
      }
    }

    /** The next character that has to be escaped; four at a time are looked at. */
    method NextEscape(data: string, beg: nat) returns (off: nat)
      requires beg <= |data|
      ensures beg <= off <= |data| && (forall i | beg <= i < off :: !NeedsEscape(data[i]))
      ensures off < |data| ==> NeedsEscape(data[off])
    {
      off := beg;
      while off + 3 < |data| && !NeedsEscape(data[off]) && !NeedsEscape(data[off + 1])
            && !NeedsEscape(data[off + 2]) && !NeedsEscape(data[off + 3])
        invariant beg <= off <= |data| && forall i | beg <= i < off :: !NeedsEscape(data[i])
      {
        off := off + 4;
      }
      while off < |data| && !NeedsEscape(data[off])
        invariant beg <= off <= |data| && forall i | beg <= i < off :: !NeedsEscape(data[i])
      {
        off := off + 1;
      }
    }

    method Escape(c: char) returns (s: string)
      requires NeedsEscape(c)
      ensures s == EscapeOne(c)
      ensures c == '&' ==> s == "&amp;"
      ensures c == '<' ==> s == "&lt;"
      ensures c == '>' ==> s == "&gt;"
      ensures c == '"' ==> s == "&quot;"
    {
      match c {
        case '&' => s := "&amp;";
        case '<' => s := "&lt;";
        case '>' => s := "&gt;";
        case '"' => s := "&quot;";
        case _ => s := "";
      }
    }

    /** All callbacks of a piece of well-nested inline content: the page is put out, and its tags are in balance. */
    method Render(nodes: Nodes)
      requires imageNestingLevel == 0
      modifies this
      ensures imageNestingLevel == 0 && output == old(output) + Page(nodes)
      ensures Tags([], Page(nodes)) == Some([])
    {
      PageIsNested([], nodes);
      var events := Events(nodes);
      ghost var st := View();
      for i := 0 to |events|
        invariant View() == Run(st, events[..i])
      {
        match events[i] {
          case Enter(span) => EnterSpan(span);
          case Leave(span) => LeaveSpan(span);
          case Text(kind, text) => ShowText(kind, text);
        }
        assert events[..i + 1][..i] == events[..i];
      }
      assert events[..|events|] == events;
      OutsideImage(st, nodes);
    }
  }
}
