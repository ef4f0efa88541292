/**
 * Block quotes, lists and list items: the records that line after line are appended while containers are entered
 * and left, and the calls that are made from the records in the end.
 */
module Containers {
  import opened Wrappers

  datatype Kind = Quote | BulletList | OrderedList | Item

  datatype LeafKind = Paragraph | Header | Code | Html | Break | Table

  /** What is appended to the block buffer: a container begins, a container ends, or a leaf block with its lines. */
  datatype Record = Opener(kind: Kind, loose: bool) | Closer(kind: Kind) | Leaf(leaf: LeafKind, setext: bool, lines: nat)

  /** The characters that begin a container: `>`, `-`, `+`, `*`, and what follows the number of an ordered item. */
  datatype Mark = Angle | Dash | Plus | Asterisk | Period | Paren

  /** MD_CONTAINER: its mark, the place of its opener record, and whether it has been found to be a loose list. */
  datatype Container = Container(ch: Mark, off: nat, loose: bool)

  predicate IsOrdered(ch: Mark) {
    ch == Period || ch == Paren
  }

  function ListKind(ch: Mark): Kind {
    if IsOrdered(ch) then OrderedList else BulletList
  }

  /** The containers that are open because of a mark, outermost first. */
  function KindsOf(ch: Mark): seq<Kind> {
    if ch == Angle then [Quote] else [ListKind(ch), Item]
  }

  function OpenKinds(cs: seq<Container>): seq<Kind> {
    if cs == [] then [] else OpenKinds(cs[..|cs| - 1]) + KindsOf(cs[|cs| - 1].ch)
  }

  /** One record: None when something is closed that is not the innermost open container. */
  function Step(open: seq<Kind>, r: Record): Option<seq<Kind>> {
    match r
    case Opener(kind, _) => Some(open + [kind])
    case Closer(kind) => if open != [] && open[|open| - 1] == kind then Some(open[..|open| - 1]) else None
    case Leaf(_, _, _) => Some(open)
  }

  function Nest(records: seq<Record>): Option<seq<Kind>> {
    if records == [] then Some([])
    else
      var before := Nest(records[..|records| - 1]);
      if before.None? then None else Step(before.value, records[|records| - 1])
  }

  /** How many block quotes and lists are open. */
  function Depth(open: seq<Kind>): nat {
    if open == [] then 0 else Depth(open[..|open| - 1]) + if open[|open| - 1] == Item then 0 else 1
  }

  /** Nowhere in the records are more than `n` block quotes and lists open. */
  ghost predicate Shallow(records: seq<Record>, n: nat) {
    forall i | 0 <= i <= |records| :: ShallowAt(records, i, n)
  }

  ghost predicate ShallowAt(records: seq<Record>, i: nat, n: nat)
    requires i <= |records|
  {
    Nest(records[..i]).Some? && Depth(Nest(records[..i]).value) <= n
  }

  lemma {:induction false} NestMore(records: seq<Record>, r: Record)
    requires Nest(records).Some?
    ensures Nest(records + [r]) == Step(Nest(records).value, r)
  {
    assert (records + [r])[..|records|] == records;
  }

  lemma {:induction false} ShallowMore(records: seq<Record>, r: Record, n: nat)
    requires Shallow(records, n) && Nest(records + [r]).Some? && Depth(Nest(records + [r]).value) <= n
    ensures Shallow(records + [r], n)
  {
    var more := records + [r];
    forall i | 0 <= i <= |more| ensures ShallowAt(more, i, n) {
      if i <= |records| {
        assert ShallowAt(records, i, n);
        assert more[..i] == records[..i];
      } else {
        assert more[..i] == more;
      }
    }
  }

  lemma {:induction false} ShallowFront(records: seq<Record>, k: nat, n: nat)
    requires Shallow(records, n) && k <= |records|
    ensures Shallow(records[..k], n) && Nest(records[..k]).Some? && Depth(Nest(records[..k]).value) <= n
  {
    assert ShallowAt(records, k, n);
    forall i | 0 <= i <= k ensures ShallowAt(records[..k], i, n) {
      assert ShallowAt(records, i, n);
      assert records[..k][..i] == records[..i];
    }
  }

  /** Marking a list as loose changes nothing about the nesting. */
  lemma {:induction false} NestLoose(records: seq<Record>, off: nat, loose: bool)
    requires off < |records| && records[off].Opener?
    ensures Nest(records[off := records[off].(loose := loose)]) == Nest(records)
  {
    var n := |records| - 1;
    var marked := records[off := records[off].(loose := loose)];
    if off == n {
      assert marked[..n] == records[..n];
    } else {
      assert marked[..n] == records[..n][off := records[off].(loose := loose)];
      NestLoose(records[..n], off, loose);
    }
  }

  lemma {:induction false} ShallowLoose(records: seq<Record>, off: nat, loose: bool, n: nat)
    requires off < |records| && records[off].Opener? && Shallow(records, n)
    ensures Shallow(records[off := records[off].(loose := loose)], n)
  {
    var marked := records[off := records[off].(loose := loose)];
    forall i | 0 <= i <= |marked| ensures ShallowAt(marked, i, n) {
      assert ShallowAt(records, i, n);
      if off < i {
        assert marked[..i] == records[..i][off := records[off].(loose := loose)];
        NestLoose(records[..i], off, loose);
      } else {
        assert marked[..i] == records[..i];
      }
    }
  }

  lemma {:induction false} DepthMore(open: seq<Kind>, kind: Kind)
    ensures Depth(open + [kind]) == Depth(open) + if kind == Item then 0 else 1
  {
    assert (open + [kind])[..|open|] == open;
  }

  /** Every container counts once. */
  lemma {:induction false} DepthOfContainers(cs: seq<Container>)
    ensures Depth(OpenKinds(cs)) == |cs|
  {
    if cs != [] {
      var front, ch := OpenKinds(cs[..|cs| - 1]), cs[|cs| - 1].ch;
      DepthOfContainers(cs[..|cs| - 1]);
      DepthMore(front, KindsOf(ch)[0]);
      if ch != Angle {
        DepthMore(front + [ListKind(ch)], Item);
        assert front + [ListKind(ch)] + [Item] == front + KindsOf(ch);
      }
    }
  }

  /** The marks of the open containers. */
  function MarksOf(cs: seq<Container>): (r: seq<Mark>)
    ensures |r| == |cs| && forall i | 0 <= i < |cs| :: r[i] == cs[i].ch
  {
    if cs == [] then [] else MarksOf(cs[..|cs| - 1]) + [cs[|cs| - 1].ch]
  }

  predicate OpensList(records: seq<Record>, c: Container) {
    && c.off < |records| && records[c.off].Opener? && records[c.off].kind == ListKind(c.ch)
    && (c.loose ==> records[c.off].loose)
  }

  /** Each list that has been entered knows the place of its opener record. */
  ghost predicate Offsets(records: seq<Record>, cs: seq<Container>, entered: nat)
    requires entered <= |cs|
  {
    forall i | 0 <= i < entered && cs[i].ch != Angle :: OpensList(records, cs[i])
  }

  lemma {:induction false} OffsetsKept(before: seq<Record>, after: seq<Record>, cs: seq<Container>, entered: nat)
    requires entered <= |cs| && Offsets(before, cs, entered)
    requires |before| <= |after| && after[..|before|] == before
    ensures Offsets(after, cs, entered)
  {
    assert forall k | 0 <= k < |before| :: after[..|before|][k] == after[k];
  }

  lemma {:induction false} OffsetsMore(before: seq<Record>, after: seq<Record>, cs: seq<Container>, i: nat)
    requires i < |cs| && Offsets(before, cs, i) && |before| <= |after| && after[..|before|] == before
    requires cs[i].ch != Angle ==> OpensList(after, cs[i])
    ensures Offsets(after, cs, i + 1)
  {
    OffsetsKept(before, after, cs, i);
  }

  /** Marking a list as loose is seen by nobody else. */
  lemma {:induction false} LooseKeeps(records: seq<Record>, cs: seq<Container>, i: nat, entered: nat, n: nat)
    requires i < entered <= |cs| && cs[i].ch != Angle && Offsets(records, cs, entered) && Shallow(records, n)
    ensures OpensList(records, cs[i])
    ensures
      var marked, more := records[cs[i].off := records[cs[i].off].(loose := true)], cs[i := cs[i].(loose := true)];
      && Nest(marked) == Nest(records) && Shallow(marked, n) && Offsets(marked, more, entered)
      && TrailOf(marked) == TrailOf(records) && MarksOf(more) == MarksOf(cs)
      && OpenKinds(more[..entered]) == OpenKinds(cs[..entered])
      && Marked(records, marked, cs[i].off) && OpensList(marked, more[i])
      && EndsWithLeaf(marked) == EndsWithLeaf(records) && (EndsWithLeaf(records) ==> LastLeaf(marked) == LastLeaf(records))
  {
    var off := cs[i].off;
    assert OpensList(records, cs[i]);
    NestLoose(records, off, true);
    ShallowLoose(records, off, true, n);
    TrailLoose(records, off, true);
    LooseOffsets(records, cs, i, entered);
    var more := cs[i := cs[i].(loose := true)];
    SameMarks(more, cs);
    SameKinds(more, cs, entered);
  }

  lemma {:induction false} LooseOffsets(records: seq<Record>, cs: seq<Container>, i: nat, entered: nat)
    requires i < entered <= |cs| && Offsets(records, cs, entered) && OpensList(records, cs[i])
    ensures Offsets(records[cs[i].off := records[cs[i].off].(loose := true)], cs[i := cs[i].(loose := true)], entered)
  {
    var marked, more := records[cs[i].off := records[cs[i].off].(loose := true)], cs[i := cs[i].(loose := true)];
    forall k | 0 <= k < entered && more[k].ch != Angle ensures OpensList(marked, more[k]) {
      assert OpensList(records, cs[k]);
    }
  }

  /** A list that belongs to the line, and goes on after a blank one, is loose. */
  function Loosened(cs: seq<Container>, loosens: bool): (r: seq<Container>)
    ensures |r| == |cs|
  {
    if loosens && cs != [] && cs[|cs| - 1].ch != Angle then cs[|cs| - 1 := cs[|cs| - 1].(loose := true)] else cs
  }

  lemma {:induction false} SameMarks(a: seq<Container>, b: seq<Container>)
    requires |a| == |b| && forall i | 0 <= i < |a| :: a[i].ch == b[i].ch
    ensures MarksOf(a) == MarksOf(b)
  {
    assert forall i | 0 <= i < |a| :: MarksOf(a)[i] == MarksOf(b)[i];
  }

  lemma {:induction false} SameKinds(a: seq<Container>, b: seq<Container>, n: nat)
    requires MarksOf(a) == MarksOf(b) && n <= |a|
    ensures |b| == |a| && OpenKinds(a[..n]) == OpenKinds(b[..n])
  {
    assert |MarksOf(a)| == |a| && |MarksOf(b)| == |b|;
    if n > 0 {
      assert MarksOf(a)[n - 1] == MarksOf(b)[n - 1];
      assert a[..n][..n - 1] == a[..n - 1] && b[..n][..n - 1] == b[..n - 1];
      SameKinds(a, b, n - 1);
    }
  }

  lemma {:induction false} ShallowWeaker(records: seq<Record>, n: nat, more: nat)
    requires Shallow(records, n) && n <= more
    ensures Shallow(records, more)
  {
    forall i | 0 <= i <= |records| ensures ShallowAt(records, i, more) {
      assert ShallowAt(records, i, n);
    }
  }

  /** A container that has not been entered is no concern of the records. */
  lemma {:induction false} PushKeeps(records: seq<Record>, cs: seq<Container>, c: Container, entered: nat)
    requires entered <= |cs| && Offsets(records, cs, entered)
    ensures Offsets(records, cs + [c], entered) && (cs + [c])[..entered] == cs[..entered]
  {
  }

  /** The innermost of the first `n` containers is a list: its item is the innermost of all. */
  lemma {:induction false} LastItem(cs: seq<Container>, n: nat)
    requires 0 < n <= |cs| && cs[n - 1].ch != Angle
    ensures OpenKinds(cs[..n]) == OpenKinds(cs[..n - 1]) + [ListKind(cs[n - 1].ch)] + [Item]
    ensures Depth(OpenKinds(cs[..n])) == n
  {
    assert cs[..n][..n - 1] == cs[..n - 1];
    DepthOfContainers(cs[..n]);
    assert KindsOf(cs[n - 1].ch) == [ListKind(cs[n - 1].ch)] + [Item];
  }

  /** A list and its first item count once. */
  lemma {:induction false} DepthOfList(open: seq<Kind>, kind: Kind)
    requires kind != Item
    ensures Depth(open + [kind]) == Depth(open) + 1 == Depth(open + [kind] + [Item])
    ensures open + [kind] + [Item] == open + [kind, Item]
  {
    DepthMore(open, kind);
    DepthMore(open + [kind], Item);
  }

  /** The container records in order, without the leaf blocks and whether a list is loose. */
  datatype Trail = Nothing | Then(before: Trail, kind: Kind, opens: bool)

  function After(t: Trail, r: Record): Trail {
    match r
    case Opener(kind, _) => Then(t, kind, true)
    case Closer(kind) => Then(t, kind, false)
    case Leaf(_, _, _) => t
  }

  function TrailOf(records: seq<Record>): Trail {
    if records == [] then Nothing else After(TrailOf(records[..|records| - 1]), records[|records| - 1])
  }

  function OpenOne(t: Trail, ch: Mark): Trail {
    if ch == Angle then Then(t, Quote, true) else Then(Then(t, ListKind(ch), true), Item, true)
  }

  function CloseOne(t: Trail, ch: Mark): Trail {
    if ch == Angle then Then(t, Quote, false) else Then(Then(t, Item, false), ListKind(ch), false)
  }

  /** The containers of `marks` from `lo` on are opened, outermost first. */
  function Opened(t: Trail, marks: seq<Mark>, lo: nat): Trail
    requires lo <= |marks|
    decreases |marks| - lo
  {
    if lo == |marks| then t else Opened(OpenOne(t, marks[lo]), marks, lo + 1)
  }

  /** The containers of `marks` from `lo` to `hi` are closed, innermost first. */
  function Closed(t: Trail, marks: seq<Mark>, lo: nat, hi: nat): Trail
    requires lo <= hi <= |marks|
    decreases hi
  {
    if lo == hi then t else Closed(CloseOne(t, marks[hi - 1]), marks, lo, hi - 1)
  }

  /** A further item of a list. */
  function Renewed(t: Trail, brother: bool): Trail {
    if brother then Then(Then(t, Item, false), Item, true) else t
  }

  lemma {:induction false} TrailMore(records: seq<Record>, r: Record)
    ensures TrailOf(records + [r]) == After(TrailOf(records), r)
  {
    assert (records + [r])[..|records|] == records;
  }

  /** The places of the opener records of lists that have been found to be loose. */
  function LooseAre(records: seq<Record>): set<nat> {
    set k: nat | k < |records| && records[k].Opener? && records[k].loose
  }

  lemma {:induction false} LooseMore(records: seq<Record>, r: Record)
    requires r.Opener? ==> !r.loose
    ensures LooseAre(records + [r]) == LooseAre(records)
  {
    var more := records + [r];
    assert forall k: nat | k < |more| && more[k].Opener? && more[k].loose :: k < |records| && records[k] == more[k];
    assert forall k: nat | k < |records| && records[k].Opener? && records[k].loose :: more[k] == records[k];
  }

  lemma {:induction false} LooseTrim(records: seq<Record>, left: Option<Record>)
    requires EndsWithLeaf(records) && (left.Some? ==> left.value.Leaf?)
    ensures LooseAre(Replaced(records, left)) == LooseAre(records)
  {
    var front := records[..|records| - 1];
    assert records == front + [records[|records| - 1]];
    LooseMore(front, records[|records| - 1]);
    if left.Some? {
      LooseMore(front, left.value);
    } else {
      assert front + [] == front;
    }
  }

  lemma {:induction false} LooseMarked(records: seq<Record>, off: nat)
    requires off < |records| && records[off].Opener?
    ensures LooseAre(records[off := records[off].(loose := true)]) == LooseAre(records) + {off}
  {
    var marked := records[off := records[off].(loose := true)];
    forall k: nat ensures k in LooseAre(marked) <==> k in LooseAre(records) + {off} {
    }
  }

  ghost predicate EndsWithLeaf(records: seq<Record>) {
    records != [] && records[|records| - 1].Leaf?
  }

  function LastLeaf(records: seq<Record>): Record
    requires EndsWithLeaf(records)
  {
    records[|records| - 1]
  }

  /** The last record, a leaf block, is replaced or taken away. */
  function Replaced(records: seq<Record>, left: Option<Record>): seq<Record>
    requires records != []
  {
    records[..|records| - 1] + if left.Some? then [left.value] else []
  }

  /** A leaf block at the end does not show. */
  lemma {:induction false} TrailTrim(records: seq<Record>, left: Option<Record>)
    requires EndsWithLeaf(records) && (left.Some? ==> left.value.Leaf?)
    ensures TrailOf(records) == TrailOf(Replaced(records, left))
  {
    var front := records[..|records| - 1];
    if left.Some? {
      TrailMore(front, left.value);
    } else {
      assert front + [] == front;
    }
  }

  lemma {:induction false} TrailLoose(records: seq<Record>, off: nat, loose: bool)
    requires off < |records| && records[off].Opener?
    ensures TrailOf(records[off := records[off].(loose := loose)]) == TrailOf(records)
  {
    var n := |records| - 1;
    var marked := records[off := records[off].(loose := loose)];
    if off == n {
      assert marked[..n] == records[..n];
    } else {
      assert marked[..n] == records[..n][off := records[off].(loose := loose)];
      TrailLoose(records[..n], off, loose);
    }
  }

  /** The type of a line; Blank is also the type of the line before the first one. */
  datatype LineKind =
    Blank | BreakLine | AtxHeader | SetextUnderline | TableUnderline | FencedCode | IndentedCode | HtmlLine | TextLine
    | TableLine

  /** The leaf block that a line of this type can begin. */
  function BlockOf(line: LineKind): Option<LeafKind> {
    match line
    case BreakLine => Some(Break)
    case AtxHeader => Some(Header)
    case FencedCode => Some(Code)
    case IndentedCode => Some(Code)
    case HtmlLine => Some(Html)
    case TextLine => Some(Paragraph)
    case _ => None
  }

  /** The leaf block that is open after a line of this type. */
  function Open(line: LineKind): Option<LeafKind> {
    if line == BreakLine || line == AtxHeader then None
    else if line == TableLine then Some(Table)
    else BlockOf(line)
  }

  predicate IsSetext(r: Record) {
    r.Leaf? && r.leaf == Header && r.setext
  }

  /** Link reference definitions are looked for in paragraphs and underlined headings. */
  predicate MayDefine(r: Record) {
    r.Leaf? && (r.leaf == Paragraph || IsSetext(r))
  }

  /**
   * What is left of a leaf block when it ends and its first `defs` lines are link reference definitions, and
   * whether it goes on: the underline of a heading without text begins a paragraph.
   */
  function Ended(leaf: Record, defs: nat): (Option<Record>, bool)
    requires leaf.Leaf? && defs <= leaf.lines && (defs > 0 ==> MayDefine(leaf))
  {
    var lines := leaf.lines - defs;
    if defs > 0 && lines == 0 then (None, false)
    else if !IsSetext(leaf) then (Some(leaf.(lines := lines)), false)
    else if lines > 1 then (Some(leaf.(lines := lines - 1)), false)
    else (Some(Leaf(Paragraph, true, lines)), true)
  }

  /**
   * No line of a leaf block is lost: each is part of a definition, of what is left of the block, or the underline of
   * its heading. Nothing is left only if all of it was definitions, and a block changes its type only if it is a
   * heading without text, which goes on as a paragraph.
   */
  lemma {:induction false} NoLineLost(leaf: Record, defs: nat)
    requires leaf.Leaf? && defs <= leaf.lines && (defs > 0 ==> MayDefine(leaf))
    ensures
      var (left, on) := Ended(leaf, defs);
      && (left.None? <==> defs > 0 && defs == leaf.lines)
      && (left.None? ==> !on)
      && (left.Some? ==>
            && left.value.Leaf?
            && left.value.lines + defs + (if IsSetext(leaf) && !on then 1 else 0) == leaf.lines
            && (on <==> IsSetext(leaf) && left.value.lines <= 1 && left.value.leaf == Paragraph)
            && (!on ==> left.value.leaf == leaf.leaf && left.value.setext == leaf.setext))
  {
    assert IsSetext(leaf) ==> leaf.leaf != Paragraph;
  }

  /**
   * What md_analyze_line finds out about a line: how many containers it belongs to, whether it begins a further
   * item of the next one, the containers it opens, whether a blank line before it makes a list loose, its type,
   * and whether it must begin a block.
   */
  datatype Line = Line(parents: nat, brother: bool, children: seq<Mark>, loosens: bool, kind: LineKind, enforce: bool) {
    /** The line goes on with containers that are open; a further item is one of a list. */
    predicate Suits(marks: seq<Mark>) {
      parents <= |marks| && (brother ==> parents < |marks| && marks[parents] != Angle)
    }

    /** Only fenced code and HTML begin a block whatever there was before. */
    predicate Proper() {
      enforce ==> kind == FencedCode || kind == HtmlLine
    }

    /** How many containers stay. */
    function Keep(): nat {
      if brother then parents + 1 else parents
    }

    /** The other ones are closed, a further item may begin, and the children are opened. */
    function TrailAfter(t: Trail, marks: seq<Mark>): Trail
      requires Keep() <= |marks|
    {
      Opened(Renewed(Closed(t, marks, Keep(), |marks|), brother), marks[..Keep()] + children, Keep())
    }
  }

  /** What the lines of a document leave behind: the container records so far, and the containers that are open. */
  datatype Outline = Outline(trail: Trail, marks: seq<Mark>)

  /** None if a line does not suit the containers that are open. */
  function Follow(lines: seq<Line>): Option<Outline> {
    if lines == [] then Some(Outline(Nothing, []))
    else
      var before, line := Follow(lines[..|lines| - 1]), lines[|lines| - 1];
      if before.None? || !line.Suits(before.value.marks) then None
      else
        var Outline(trail, marks) := before.value;
        Some(Outline(line.TrailAfter(trail, marks), marks[..line.Keep()] + line.children))
  }

  /** A document can be followed line by line. */
  lemma {:induction false} FollowFront(lines: seq<Line>, i: nat)
    requires Follow(lines).Some? && i <= |lines|
    ensures Follow(lines[..i]).Some?
    decreases |lines|
  {
    if i == |lines| {
      assert lines[..i] == lines;
    } else {
      FollowFront(lines[..|lines| - 1], i);
      assert lines[..|lines| - 1][..i] == lines[..i];
    }
  }

  lemma {:induction false} FollowNext(lines: seq<Line>, i: nat)
    requires i < |lines| && Follow(lines[..i + 1]).Some?
    ensures Follow(lines[..i]).Some? && lines[i].Suits(Follow(lines[..i]).value.marks)
    ensures
      var Outline(trail, marks) := Follow(lines[..i]).value;
      && lines[i].Keep() <= |marks|
      && Follow(lines[..i + 1])
         == Some(Outline(lines[i].TrailAfter(trail, marks), marks[..lines[i].Keep()] + lines[i].children))
  {
    assert lines[..i + 1][..i] == lines[..i];
  }

  /** The container records of a whole document: at its end everything that is open is closed, the innermost first. */
  function Whole(lines: seq<Line>): Trail
    requires Follow(lines).Some?
  {
    var Outline(trail, marks) := Follow(lines).value;
    Closed(trail, marks, 0, |marks|)
  }

  /** Line `j` makes the innermost container that it goes on with a loose list. */
  ghost predicate LoosensList(lines: seq<Line>, j: nat)
    requires j < |lines|
  {
    var before := Follow(lines[..j]);
    && before.Some? && lines[j].loosens
    && 0 < lines[j].Keep() <= |before.value.marks| && before.value.marks[lines[j].Keep() - 1] != Angle
  }

  ghost predicate NoneLoosens(lines: seq<Line>, n: nat)
    requires n <= |lines|
  {
    forall j | 0 <= j < n :: !LoosensList(lines, j)
  }

  /** The first `n` containers are what they were. */
  ghost predicate Earlier(before: seq<Container>, after: seq<Container>, n: nat) {
    n <= |before| == |after| && forall i | 0 <= i < n :: after[i] == before[i]
  }

  /** Only the list whose opener is at `off` becomes a loose one. */
  ghost predicate Marked(before: seq<Record>, after: seq<Record>, off: nat) {
    off < |before| && before[off].Opener? && after == before[off := before[off].(loose := true)]
  }

  /** The current block, if there is one, stays what it is. */
  ghost predicate KeepsBlock(before: seq<Record>, after: seq<Record>, was: bool, is_: bool) {
    was == is_ && (EndsWithLeaf(before) ==> EndsWithLeaf(after) && LastLeaf(after) == LastLeaf(before))
  }

  /** The place of the innermost of the first `keep` containers, if it is a list that is to be loose. */
  ghost function LoosenedAt(cs: seq<Container>, keep: nat, loosens: bool): set<nat> {
    if loosens && 0 < keep <= |cs| && cs[keep - 1].ch != Angle then {cs[keep - 1].off} else {}
  }

  class Parser {
    var records: seq<Record>
    var containers: seq<Container>
    var allocContainers: nat
    var inBlock: bool   // current_block is the leaf at the end of the records
    var pivot: LineKind   // of the line that began the current block

    /** The records know the first `entered` containers; each list knows its opener record. */
    ghost predicate Entered(entered: nat)
      reads this
    {
      && entered <= |containers| <= allocContainers && (allocContainers == 0 || allocContainers >= 16)
      && Nest(records) == Some(OpenKinds(containers[..entered]))
      && Shallow(records, allocContainers)
      && Offsets(records, containers, entered)
      && (inBlock ==> EndsWithLeaf(records) && !IsSetext(LastLeaf(records)))
    }

    ghost predicate Valid()
      reads this
    {
      Entered(|containers|)
    }

    constructor ()
      ensures Valid() && Settled() && records == [] && containers == []
    {
      records, containers, allocContainers, inBlock, pivot := [], [], 0, false, Blank;
    }

    /** If there is a current block, it is of the type that the pivot line says. */
    ghost predicate Fits()
      reads this
    {
      && (pivot == Blank ==> !inBlock)
      && (inBlock ==> EndsWithLeaf(records) && Open(pivot) == Some(LastLeaf(records).leaf))
    }

    /** Between two lines there is a current block exactly if the pivot line is not the dummy one. */
    ghost predicate Settled()
      reads this
    {
      Fits() && (inBlock <==> pivot != Blank)
    }

    /** md_end_current_block, where the block is not an underlined heading. */
    method EndCurrentBlock(ghost entered: nat)
      requires Entered(entered)
      modifies this`records, this`inBlock
      ensures Entered(entered) && !inBlock && TrailOf(records) == TrailOf(old(records))
      ensures LooseAre(records) == LooseAre(old(records))
      ensures !old(inBlock) || !MayDefine(LastLeaf(old(records))) ==> records == old(records)
    {
      if inBlock {
        ghost var before := records;
        ghost var defs := EndLeaf(entered);
        if !MayDefine(LastLeaf(before)) {
          assert Replaced(before, Some(LastLeaf(before))) == before;
        }
      }
    }

    /** The current block ends: `taken` lines at its start turn out to be link reference definitions. */
    method EndLeaf(ghost entered: nat) returns (ghost taken: nat)
      requires Entered(entered) && EndsWithLeaf(records)
      modifies this`records, this`inBlock
      ensures Entered(entered) && TrailOf(records) == TrailOf(old(records))
      ensures LooseAre(records) == LooseAre(old(records))
      ensures
        var leaf := LastLeaf(old(records));
        && taken <= leaf.lines && (taken > 0 ==> MayDefine(leaf))
        && records == Replaced(old(records), Ended(leaf, taken).0) && inBlock == Ended(leaf, taken).1
    {
      hide LooseAre, MarksOf, Nest, OpenKinds, TrailOf;
      var leaf, defs: nat := records[|records| - 1], *;
      if !MayDefine(leaf) || defs > leaf.lines {
        defs := 0;
      }
      taken := defs;
      if defs > 0 && defs == leaf.lines {
        SetLast(None, entered);
      } else if !IsSetext(leaf) {
        SetLast(Some(leaf.(lines := leaf.lines - defs)), entered);
      } else if leaf.lines - defs > 1 {
        SetLast(Some(leaf.(lines := leaf.lines - defs - 1)), entered);
      } else {
        SetLast(Some(Leaf(Paragraph, true, leaf.lines - defs)), entered);
        inBlock := true;
      }
    }

    /** The leaf block at the end changes, or goes. */
    method SetLast(left: Option<Record>, ghost entered: nat)
      requires Entered(entered) && EndsWithLeaf(records) && (left.Some? ==> left.value.Leaf?)
      modifies this`records, this`inBlock
      ensures Entered(entered) && !inBlock
      ensures records == Replaced(old(records), left) && TrailOf(records) == TrailOf(old(records))
      ensures LooseAre(records) == LooseAre(old(records))
    {
      hide Depth, LooseAre, MarksOf, OpenKinds, TrailOf;
      TrailTrim(records, left);
      LooseTrim(records, left);
      ghost var whole := records;
      var n := |records| - 1;
      ShallowFront(records, n, allocContainers);
      assert whole == whole[..n] + [whole[n]];
      inBlock := false;
      records := records[..n];
      if left.Some? {
        NestMore(records, left.value);
        ShallowMore(records, left.value, allocContainers);
        records := records + [left.value];
      }
    }

    /** md_push_container_bytes */
    method PushRecord(r: Record, ghost open: seq<Kind>)
      requires !inBlock && Nest(records) == Some(open) && Shallow(records, allocContainers)
      requires Step(open, r).Some? && Depth(Step(open, r).value) <= allocContainers && (r.Opener? ==> !r.loose)
      modifies this`records
      ensures records == old(records) + [r] && Nest(records) == Step(open, r) && Shallow(records, allocContainers)
      ensures LooseAre(records) == LooseAre(old(records))
      ensures TrailOf(records) == After(TrailOf(old(records)), r)
    {
      TrailMore(records, r);
      LooseMore(records, r);
      NestMore(records, r);
      ShallowMore(records, r, allocContainers);
      records := records + [r];
    }

    /** md_push_container */
    method PushContainer(ch: Mark, ghost entered: nat)
      requires Entered(entered)
      modifies this`containers, this`allocContainers
      ensures Entered(entered) && containers == old(containers) + [Container(ch, 0, false)]
      ensures MarksOf(containers) == MarksOf(old(containers)) + [ch]
    {
      if |containers| >= allocContainers {
        var more := if allocContainers > 0 then allocContainers + allocContainers / 2 else 16;
        ShallowWeaker(records, allocContainers, more);
        allocContainers := more;
      }
      PushKeeps(records, containers, Container(ch, 0, false), entered);
      containers := containers + [Container(ch, 0, false)];
    }

    /** One turn of md_enter_child_containers: the records of container `i`. */
    method EnterChild(i: nat)
      requires Entered(i) && i < |containers| && !inBlock
      modifies this`records, this`containers
      ensures Entered(i + 1) && |containers| == |old(containers)| && MarksOf(containers) == MarksOf(old(containers))
      ensures Earlier(old(containers), containers, i)
      ensures TrailOf(records) == OpenOne(TrailOf(old(records)), MarksOf(old(containers))[i])
      ensures LooseAre(records) == LooseAre(old(records))
    {
      if containers[i].ch == Angle {
        EnterQuote(i);
      } else {
        EnterList(i);
      }
    }

    method EnterQuote(i: nat)
      requires Entered(i) && i < |containers| && !inBlock && containers[i].ch == Angle
      modifies this`records
      ensures Entered(i + 1) && TrailOf(records) == OpenOne(TrailOf(old(records)), containers[i].ch)
      ensures LooseAre(records) == LooseAre(old(records))
    {
      ghost var open := OpenKinds(containers[..i]);
      EnteredOne(containers, i);
      DepthMore(open, Quote);
      ghost var before := records;
      PushRecord(Opener(Quote, false), open);
      assert records[..|before|] == before;
      OffsetsMore(before, records, containers, i);
    }

    method EnterList(i: nat)
      requires Entered(i) && i < |containers| && !inBlock && containers[i].ch != Angle
      modifies this`records, this`containers
      ensures Entered(i + 1) && |containers| == |old(containers)| && MarksOf(containers) == MarksOf(old(containers))
      ensures Earlier(old(containers), containers, i)
      ensures TrailOf(records) == OpenOne(TrailOf(old(records)), MarksOf(old(containers))[i])
      ensures LooseAre(records) == LooseAre(old(records))
    {
      hide Depth, LooseAre, MarksOf, Nest, TrailOf;
      var kind := ListKind(containers[i].ch);
      NoteOffset(i);
      EnteredOne(containers, i);
      ghost var before := records;
      PushList(kind, OpenKinds(containers[..i]));
      assert records[|before|] == Opener(kind, false) && records[..|before|] == before;
      OffsetsMore(before, records, containers, i);
    }

    /** A list remembers where its opener record will be. */
    method NoteOffset(i: nat)
      requires Entered(i) && i < |containers|
      modifies this`containers
      ensures Entered(i) && MarksOf(containers) == MarksOf(old(containers))
      ensures containers == old(containers)[i := old(containers)[i].(off := |records|, loose := false)]
      ensures containers[..i] == old(containers)[..i]
    {
      containers := containers[i := containers[i].(off := |records|, loose := false)];
      SameMarks(containers, old(containers));
      assert containers[..i] == old(containers)[..i];
    }

    /** The opener records of a list and its first item. */
    method PushList(kind: Kind, ghost open: seq<Kind>)
      requires !inBlock && Nest(records) == Some(open) && Shallow(records, allocContainers)
      requires Depth(open) < allocContainers && kind != Item
      modifies this`records
      ensures records == old(records) + [Opener(kind, false), Opener(Item, false)]
      ensures TrailOf(records) == Then(Then(TrailOf(old(records)), kind, true), Item, true)
      ensures LooseAre(records) == LooseAre(old(records))
      ensures Nest(records) == Some(open + [kind, Item]) && Shallow(records, allocContainers)
    {
      DepthOfList(open, kind);
      PushRecord(Opener(kind, false), open);
      PushRecord(Opener(Item, false), open + [kind]);
    }

    static lemma {:induction false} EnteredOne(cs: seq<Container>, i: nat)
      requires i < |cs|
      ensures OpenKinds(cs[..i + 1]) == OpenKinds(cs[..i]) + KindsOf(cs[i].ch) && Depth(OpenKinds(cs[..i])) == i
    {
      assert cs[..i + 1][..i] == cs[..i];
      DepthOfContainers(cs[..i]);
    }

    /** md_enter_child_containers: the last `n` containers are the ones to enter. */
    method EnterChildren(n: nat)
      requires n <= |containers| && Entered(|containers| - n)
      modifies this`records, this`containers, this`inBlock
      ensures Valid() && MarksOf(containers) == MarksOf(old(containers))
      ensures |containers| == |old(containers)| && Earlier(old(containers), containers, |containers| - n)
      ensures TrailOf(records) == Opened(TrailOf(old(records)), MarksOf(containers), |containers| - n)
      ensures LooseAre(records) == LooseAre(old(records))
      ensures if n > 0 then !inBlock else records == old(records) && inBlock == old(inBlock)
    {
      hide LooseAre, MarksOf, Nest, OpenKinds, TrailOf;
      if n > 0 {
        EndCurrentBlock(|containers| - n);
        EnterFrom(|containers| - n);
      }
    }

    /** The records of the containers from `lo` on. */
    method EnterFrom(lo: nat)
      requires lo <= |containers| && Entered(lo) && !inBlock
      modifies this`records, this`containers
      ensures Valid() && MarksOf(containers) == MarksOf(old(containers))
      ensures Earlier(old(containers), containers, lo)
      ensures TrailOf(records) == Opened(TrailOf(old(records)), MarksOf(containers), lo)
      ensures LooseAre(records) == LooseAre(old(records))
    {
      hide LooseAre, MarksOf, Nest, OpenKinds, TrailOf;
      ghost var before, trail := containers, Opened(TrailOf(records), MarksOf(containers), lo);
      var i: nat := lo;
      while i < |containers|
        invariant Midway(i, lo, before, trail) && !inBlock && LooseAre(records) == LooseAre(old(records))
        decreases |before| - i
      {
        EnterNext(i, lo, before, trail);
        i := i + 1;
      }
    }

    /** Between the turns of the loop of md_enter_child_containers. */
    ghost predicate Midway(i: nat, lo: nat, before: seq<Container>, trail: Trail)
      reads this
    {
      && lo <= i <= |containers| && Entered(i)
      && MarksOf(containers) == MarksOf(before) && Earlier(before, containers, lo)
      && Opened(TrailOf(records), MarksOf(containers), i) == trail
    }

    method EnterNext(i: nat, ghost lo: nat, ghost before: seq<Container>, ghost trail: Trail)
      requires Midway(i, lo, before, trail) && i < |containers| && !inBlock
      modifies this`records, this`containers
      ensures Midway(i + 1, lo, before, trail) && |containers| == |old(containers)|
      ensures LooseAre(records) == LooseAre(old(records))
    {
      EnterChild(i);
    }

    /** The closer records of the innermost container. */
    method LeaveLast()
      requires Valid() && containers != []
      modifies this`records, this`containers, this`inBlock
      ensures Valid() && !inBlock && containers == old(containers)[..|old(containers)| - 1]
      ensures TrailOf(records) == CloseOne(TrailOf(old(records)), old(containers)[|old(containers)| - 1].ch)
      ensures LooseAre(records) == LooseAre(old(records))
    {
      EndCurrentBlock(|containers|);
      CloseLast();
    }

    method CloseLast()
      requires Valid() && containers != [] && !inBlock
      modifies this`records, this`containers
      ensures Valid() && containers == old(containers)[..|old(containers)| - 1]
      ensures TrailOf(records) == CloseOne(TrailOf(old(records)), old(containers)[|old(containers)| - 1].ch)
      ensures LooseAre(records) == LooseAre(old(records))
    {
      ghost var before := records;
      var n := |containers| - 1;
      LastKinds(containers);
      CloseRecords(containers[n].ch, OpenKinds(containers[..n]));
      OffsetsKept(before, records, containers, n);
      containers := containers[..n];
      AllOf(containers);
    }

    static lemma {:induction false} AllOf(cs: seq<Container>)
      ensures cs[..|cs|] == cs
    {
    }

    static lemma {:induction false} LastKinds(cs: seq<Container>)
      requires cs != []
      ensures cs[..|cs|] == cs
      ensures OpenKinds(cs) == OpenKinds(cs[..|cs| - 1]) + KindsOf(cs[|cs| - 1].ch)
      ensures Depth(OpenKinds(cs[..|cs| - 1])) == |cs| - 1
    {
      DepthOfContainers(cs[..|cs| - 1]);
    }

    method CloseRecords(ch: Mark, ghost front: seq<Kind>)
      requires !inBlock && Nest(records) == Some(front + KindsOf(ch)) && Shallow(records, allocContainers)
      requires Depth(front) < allocContainers
      modifies this`records
      ensures Nest(records) == Some(front) && Shallow(records, allocContainers)
      ensures |records| >= |old(records)| && records[..|old(records)|] == old(records)
      ensures TrailOf(records) == CloseOne(TrailOf(old(records)), ch)
      ensures LooseAre(records) == LooseAre(old(records))
    {
      if ch == Angle {
        assert (front + [Quote])[..|front|] == front;
        PushRecord(Closer(Quote), front + [Quote]);
      } else {
        CloseList(ListKind(ch), front);
      }
    }

    method CloseList(kind: Kind, ghost front: seq<Kind>)
      requires !inBlock && Nest(records) == Some(front + [kind, Item]) && Shallow(records, allocContainers)
      requires Depth(front) < allocContainers
      modifies this`records
      ensures Nest(records) == Some(front) && Shallow(records, allocContainers)
      ensures |records| >= |old(records)| && records[..|old(records)|] == old(records)
      ensures TrailOf(records) == Then(Then(TrailOf(old(records)), Item, false), kind, false)
      ensures LooseAre(records) == LooseAre(old(records))
    {
      Unnest(front, kind);
      PushRecord(Closer(Item), front + [kind] + [Item]);
      PushRecord(Closer(kind), front + [kind]);
    }

    static lemma {:induction false} Unnest(front: seq<Kind>, kind: Kind)
      ensures front + [kind, Item] == front + [kind] + [Item]
      ensures Step(front + [kind] + [Item], Closer(Item)) == Some(front + [kind])
      ensures Step(front + [kind], Closer(kind)) == Some(front)
      ensures Depth(front + [kind]) <= Depth(front) + 1
    {
      DepthMore(front, kind);
      assert (front + [kind] + [Item])[..|front| + 1] == front + [kind];
      assert (front + [kind])[..|front|] == front;
    }

    /** md_leave_child_containers */
    method LeaveChildren(keep: nat)
      requires Valid() && keep <= |containers|
      modifies this`records, this`containers, this`inBlock
      ensures Valid() && containers == old(containers)[..keep]
      ensures TrailOf(records) == Closed(TrailOf(old(records)), MarksOf(old(containers)), keep, |old(containers)|)
      ensures LooseAre(records) == LooseAre(old(records))
      ensures if keep == |old(containers)| then records == old(records) && inBlock == old(inBlock) else !inBlock
    {
      hide LooseAre, MarksOf, Nest, OpenKinds, TrailOf;
      ghost var trail, marks := TrailOf(records), MarksOf(containers);
      while |containers| > keep
        invariant Valid() && keep <= |containers| <= |old(containers)|
        invariant containers == old(containers)[..|containers|]
        invariant Closed(TrailOf(records), marks, keep, |containers|) == Closed(trail, marks, keep, |marks|)
        invariant if |containers| == |marks| then records == old(records) && inBlock == old(inBlock) else !inBlock
        invariant LooseAre(records) == LooseAre(old(records))
      {
        LeaveLast();
      }
    }

    /** The records of a further item of the innermost list that has been entered. */
    method NextItem(ghost entered: nat)
      requires Entered(entered) && entered > 0 && containers[entered - 1].ch != Angle
      modifies this`records, this`inBlock
      ensures Entered(entered) && !inBlock
      ensures TrailOf(records) == Renewed(TrailOf(old(records)), true)
      ensures LooseAre(records) == LooseAre(old(records))
    {
      EndCurrentBlock(entered);
      ghost var before, list := records, ListKind(containers[entered - 1].ch);
      LastItem(containers, entered);
      SwapItems(OpenKinds(containers[..entered - 1]) + [list], OpenKinds(containers[..entered]));
      OffsetsKept(before, records, containers, entered);
    }

    method SwapItems(ghost list: seq<Kind>, ghost open: seq<Kind>)
      requires !inBlock && Nest(records) == Some(open) && open == list + [Item]
      requires Shallow(records, allocContainers) && Depth(open) <= allocContainers
      modifies this`records
      ensures Nest(records) == Some(open) && Shallow(records, allocContainers)
      ensures |records| >= |old(records)| && records[..|old(records)|] == old(records)
      ensures TrailOf(records) == Renewed(TrailOf(old(records)), true)
      ensures LooseAre(records) == LooseAre(old(records))
    {
      assert (list + [Item])[..|list|] == list;
      DepthMore(list, Item);
      PushRecord(Closer(Item), open);
      PushRecord(Opener(Item, false), list);
    }

    ghost function OffOf(i: nat, entered: nat): nat
      requires Entered(entered) && i < entered && containers[i].ch != Angle
      reads this
      ensures OffOf(i, entered) < |records| && records[OffOf(i, entered)].Opener?
    {
      assert OpensList(records, containers[i]);
      containers[i].off
    }

    /** A list turns out to be loose: the record at its noted place is its own opener. */
    method Loosen(i: nat, ghost entered: nat)
      requires Entered(entered) && i < entered && containers[i].ch != Angle
      modifies this`records, this`containers
      ensures Entered(entered) && TrailOf(records) == TrailOf(old(records))
      ensures containers == old(containers)[i := old(containers)[i].(loose := true)]
      ensures MarksOf(containers) == MarksOf(old(containers))
      ensures Marked(old(records), records, containers[i].off) && OpensList(records, containers[i])
      ensures KeepsBlock(old(records), records, inBlock, inBlock)
      ensures LooseAre(records) == LooseAre(old(records)) + {old(containers)[i].off}
    {
      hide LooseAre, MarksOf, Nest, OpenKinds, TrailOf;
      LooseMarked(records, OffOf(i, entered));
      LooseKeeps(records, containers, i, entered, allocContainers);
      var off := containers[i].off;
      records := records[off := records[off].(loose := true)];
      containers := containers[i := containers[i].(loose := true)];
    }

    predicate Kept(line: Line)
      reads this`containers
    {
      line.Suits(MarksOf(containers))
    }

    /**
     * What md_analyze_line sees to: an underline is only looked for where the pivot line is a text line, a line of
     * a table where it is another one, and both only where no container begins or ends.
     */
    predicate Possible(line: Line)
      requires inBlock ==> records != []
      reads this
    {
      && Kept(line) && line.Proper()
      && (line.kind == SetextUnderline || line.kind == TableUnderline || line.kind == TableLine ==>
           line.parents == |containers| && line.children == [])
      && (line.kind == SetextUnderline ==> pivot == TextLine)
      && (line.kind == TableUnderline ==>
           var last := if inBlock then records[|records| - 1] else Leaf(Paragraph, false, 0);
           pivot == TextLine && last.Leaf? && last.lines == 1)
      && (line.kind == TableLine ==> pivot == TableLine)
    }

    /** One turn of the loop of md_process_doc. */
    method NextLine(line: Line)
      requires Valid() && Settled() && Possible(line)
      modifies this
      ensures Valid() && Settled()
      ensures
        var marks := MarksOf(old(containers));
        && MarksOf(containers) == marks[..line.Keep()] + line.children
        && TrailOf(records) == line.TrailAfter(TrailOf(old(records)), marks)
      ensures LooseAre(records) == LooseAre(old(records)) + LoosenedAt(old(containers), line.Keep(), line.loosens)
    {
      hide LooseAre;
      AnalyzeLine(line);
      ProcessLine(line.kind, line.enforce);
    }

    /** What md_analyze_line does to the containers. */
    method AnalyzeLine(line: Line)
      requires Valid() && Kept(line)
      modifies this`records, this`containers, this`allocContainers, this`inBlock
      ensures Valid()
      ensures
        var keep, marks := line.Keep(), MarksOf(old(containers));
        && MarksOf(containers) == marks[..keep] + line.children
        && keep <= |containers| && containers[..keep] == Loosened(old(containers)[..keep], line.loosens)
        && TrailOf(records) == line.TrailAfter(TrailOf(old(records)), marks)
      ensures
        if line.parents == |old(containers)| && line.children == [] then
          KeepsBlock(old(records), records, old(inBlock), inBlock)
        else
          !inBlock
      ensures LooseAre(records) == LooseAre(old(records)) + LoosenedAt(old(containers), line.Keep(), line.loosens)
    {
      hide LooseAre;
      var keep := line.Keep();
      Arrange(keep, line.children, line.loosens);
      Begin(keep, line.brother, |line.children|);
    }

    /** The records of a further item, and of the children. */
    method Begin(keep: nat, brother: bool, n: nat)
      requires Entered(keep) && |containers| == keep + n
      requires brother ==> keep > 0 && containers[keep - 1].ch != Angle
      modifies this`records, this`containers, this`inBlock
      ensures Valid() && MarksOf(containers) == MarksOf(old(containers))
      ensures containers[..keep] == old(containers)[..keep]
      ensures TrailOf(records) == Opened(Renewed(TrailOf(old(records)), brother), MarksOf(containers), keep)
      ensures LooseAre(records) == LooseAre(old(records))
      ensures if brother || n > 0 then !inBlock else records == old(records) && inBlock == old(inBlock)
    {
      hide LooseAre, MarksOf, Nest, OpenKinds, TrailOf;
      if brother {
        NextItem(keep);
      }
      ghost var before := containers;
      EnterChildren(n);
      EarlierFront(before, containers, keep);
    }

    static lemma {:induction false} EarlierFront(before: seq<Container>, after: seq<Container>, n: nat)
      requires Earlier(before, after, n)
      ensures after[..n] == before[..n]
    {
    }

    /** The containers after the first `keep` make way for `children`, which have no records yet. */
    method Arrange(keep: nat, children: seq<Mark>, loosens: bool)
      requires Valid() && keep <= |containers|
      modifies this`records, this`containers, this`allocContainers, this`inBlock
      ensures Entered(keep) && |containers| == keep + |children|
      ensures MarksOf(containers) == MarksOf(old(containers))[..keep] + children
      ensures containers[..keep] == Loosened(old(containers)[..keep], loosens)
      ensures keep > 0 ==> containers[keep - 1].ch == old(containers)[keep - 1].ch
      ensures TrailOf(records) == Closed(TrailOf(old(records)), MarksOf(old(containers)), keep, |old(containers)|)
      ensures children == [] ==>
        if keep == |old(containers)| then KeepsBlock(old(records), records, old(inBlock), inBlock) else !inBlock
      ensures LooseAre(records) == LooseAre(old(records)) + LoosenedAt(old(containers), keep, loosens)
    {
      hide LooseAre, MarksOf, Nest, OpenKinds, TrailOf;
      MarksOfFront(containers, keep);
      if children == [] {
        Shorten(keep, loosens);
        assert MarksOf(containers) + [] == MarksOf(containers);
        return;
      }
      LeaveChildren(keep);
      PushContainers(children);
      MaybeLoosen(loosens, keep, keep);
    }

    method Shorten(keep: nat, loosens: bool)
      requires Valid() && keep <= |containers|
      modifies this`records, this`containers, this`inBlock
      ensures Entered(keep) && |containers| == keep && MarksOf(containers) == MarksOf(old(containers))[..keep]
      ensures containers == Loosened(old(containers)[..keep], loosens)
      ensures TrailOf(records) == Closed(TrailOf(old(records)), MarksOf(old(containers)), keep, |old(containers)|)
      ensures if keep == |old(containers)| then KeepsBlock(old(records), records, old(inBlock), inBlock) else !inBlock
      ensures LooseAre(records) == LooseAre(old(records)) + LoosenedAt(old(containers), keep, loosens)
    {
      hide LooseAre;
      MaybeLoosen(loosens, keep, |containers|);
      MarksOfFront(containers, keep);
      LeaveChildren(keep);
    }

    static lemma {:induction false} MarksOfFront(cs: seq<Container>, keep: nat)
      requires keep <= |cs|
      ensures MarksOf(cs[..keep]) == MarksOf(cs)[..keep]
    {
    }

    /** A line that goes on with a list after a blank line makes it a loose one. */
    method MaybeLoosen(loosens: bool, keep: nat, ghost entered: nat)
      requires Entered(entered) && keep <= entered
      modifies this`records, this`containers
      ensures Entered(entered) && TrailOf(records) == TrailOf(old(records)) && |containers| == |old(containers)|
      ensures MarksOf(containers) == MarksOf(old(containers))
      ensures containers[..keep] == Loosened(old(containers)[..keep], loosens)
      ensures KeepsBlock(old(records), records, inBlock, inBlock)
      ensures LooseAre(records) == LooseAre(old(records)) + LoosenedAt(old(containers), keep, loosens)
    {
      hide LooseAre, MarksOf, Nest, OpenKinds, TrailOf;
      if loosens && keep > 0 && containers[keep - 1].ch != Angle {
        LoosenedFront(containers, keep);
        Loosen(keep - 1, entered);
      }
    }

    static lemma {:induction false} LoosenedFront(cs: seq<Container>, keep: nat)
      requires 0 < keep <= |cs| && cs[keep - 1].ch != Angle
      ensures cs[keep - 1 := cs[keep - 1].(loose := true)][..keep] == Loosened(cs[..keep], true)
    {
    }

    /** The marks found in a line become containers one after the other. */
    method PushContainers(children: seq<Mark>)
      requires Valid()
      modifies this`containers, this`allocContainers
      ensures Entered(|old(containers)|) && MarksOf(containers) == MarksOf(old(containers)) + children
      ensures containers[..|old(containers)|] == old(containers)
    {
      ghost var n, marks := |containers|, MarksOf(containers);
      assert marks + children[..0] == marks;
      for i := 0 to |children|
        invariant Entered(n) && MarksOf(containers) == marks + children[..i]
        invariant containers[..n] == old(containers)
      {
        PushContainer(children[i], n);
        Prolong(marks, children, i);
      }
      assert children[..|children|] == children;
    }

    static lemma {:induction false} Prolong(marks: seq<Mark>, children: seq<Mark>, i: nat)
      requires i < |children|
      ensures marks + children[..i] + [children[i]] == marks + children[..i + 1]
    {
    }

    /**
     * md_process_line. An underline is only found where the pivot line is a text line, and a line of a table where
     * it is another one.
     */
    method ProcessLine(kind: LineKind, enforce: bool)
      requires Valid() && Fits()
      requires enforce ==> kind == FencedCode || kind == HtmlLine
      requires kind == SetextUnderline ==> inBlock && pivot == TextLine
      requires kind == TableUnderline ==> inBlock && pivot == TextLine && LastLeaf(records).lines == 1
      requires kind == TableLine ==> inBlock && pivot == TableLine
      modifies this`records, this`inBlock, this`pivot
      ensures Valid() && Settled() && TrailOf(records) == TrailOf(old(records))
      ensures LooseAre(records) == LooseAre(old(records))
      ensures kind == Blank || kind == BreakLine || kind == AtxHeader ==> !inBlock
      ensures kind == BreakLine || kind == AtxHeader ==>
        EndsWithLeaf(records) && LastLeaf(records) == Leaf(BlockOf(kind).value, false, 1)
      ensures kind == SetextUnderline ==>
        var leaf := LastLeaf(old(records)).(leaf := Header, setext := true, lines := LastLeaf(old(records)).lines + 1);
        exists defs: nat | defs <= leaf.lines ::
          records == Replaced(old(records), Ended(leaf, defs).0) && inBlock == Ended(leaf, defs).1
      ensures kind == TableUnderline ==>
        records == Replaced(old(records), Some(LastLeaf(old(records)).(leaf := Table, lines := 2)))
      ensures Open(kind).Some? ==>
        if old(inBlock) && kind == old(pivot) && !enforce then
          && pivot == kind
          && records == Replaced(old(records), Some(LastLeaf(old(records)).(lines := LastLeaf(old(records)).lines + 1)))
        else
          pivot == kind && EndsWithLeaf(records) && LastLeaf(records) == Leaf(BlockOf(kind).value, false, 1)
    {
      hide LooseAre, MarksOf, Nest, OpenKinds, TrailOf;
      if kind == Blank {
        EndCurrentBlock(|containers|);
        pivot := Blank;
        return;
      }
      if Open(kind).Some? {
        if enforce {
          EndCurrentBlock(|containers|);
        }
        Continue(kind);
      } else if kind == SetextUnderline {
        ghost var defs := Underline();
      } else if kind == TableUnderline {
        TurnIntoTable();
      } else {
        EndCurrentBlock(|containers|);
        OneLineBlock(kind);
      }
    }

    /** A thematic break or a heading is a block of its own. */
    method OneLineBlock(kind: LineKind)
      requires Valid() && !inBlock && (kind == BreakLine || kind == AtxHeader)
      modifies this`records, this`inBlock, this`pivot
      ensures Valid() && Settled() && !inBlock && TrailOf(records) == TrailOf(old(records))
      ensures LooseAre(records) == LooseAre(old(records))
      ensures EndsWithLeaf(records) && LastLeaf(records) == Leaf(BlockOf(kind).value, false, 1)
    {
      StartNewBlock(kind);
      AddLine();
      EndCurrentBlock(|containers|);
      pivot := Blank;
    }

    /** The current block becomes a heading, as far as it is not link reference definitions. */
    method Underline() returns (ghost defs: nat)
      requires Valid() && inBlock
      modifies this`records, this`inBlock, this`pivot
      ensures Valid() && Settled() && TrailOf(records) == TrailOf(old(records))
      ensures LooseAre(records) == LooseAre(old(records))
      ensures
        var leaf := LastLeaf(old(records)).(leaf := Header, setext := true, lines := LastLeaf(old(records)).lines + 1);
        && defs <= leaf.lines
        && records == Replaced(old(records), Ended(leaf, defs).0) && inBlock == Ended(leaf, defs).1
    {
      hide LooseAre, MarksOf, Nest, OpenKinds, TrailOf;
      var leaf := records[|records| - 1];
      SetLast(Some(leaf.(leaf := Header, setext := true, lines := leaf.lines + 1)), |containers|);
      defs := EndLeaf(|containers|);
      pivot := if inBlock then TextLine else Blank;
    }

    method TurnIntoTable()
      requires Valid() && inBlock
      modifies this`records, this`inBlock, this`pivot
      ensures Valid() && Settled() && TrailOf(records) == TrailOf(old(records))
      ensures LooseAre(records) == LooseAre(old(records))
      ensures records == Replaced(old(records), Some(LastLeaf(old(records)).(leaf := Table, lines := LastLeaf(old(records)).lines + 1)))
    {
      hide LooseAre, MarksOf, Nest, OpenKinds, TrailOf;
      var leaf := records[|records| - 1];
      ChangeBlock(leaf.(leaf := Table));
      pivot := TableLine;
      AddLine();
    }

    /** The line goes on with the current block, or begins one. */
    method Continue(kind: LineKind)
      requires Valid() && Fits() && Open(kind).Some? && (kind == TableLine ==> inBlock && pivot == TableLine)
      modifies this`records, this`inBlock, this`pivot
      ensures Valid() && Settled() && TrailOf(records) == TrailOf(old(records)) && pivot == kind
      ensures LooseAre(records) == LooseAre(old(records))
      ensures
        if old(inBlock) && kind == old(pivot) then
          records == Replaced(old(records), Some(LastLeaf(old(records)).(lines := LastLeaf(old(records)).lines + 1)))
        else
          EndsWithLeaf(records) && LastLeaf(records) == Leaf(BlockOf(kind).value, false, 1)
    {
      hide LooseAre, MarksOf, Nest, OpenKinds, TrailOf;
      if kind != pivot {
        EndCurrentBlock(|containers|);
      }
      if !inBlock {
        StartNewBlock(kind);
        pivot := kind;
      }
      AddLine();
    }

    /** The current block changes its type or its number of lines. */
    method ChangeBlock(leaf: Record)
      requires Valid() && inBlock && leaf.Leaf? && !IsSetext(leaf)
      modifies this`records, this`inBlock
      ensures Valid() && inBlock && TrailOf(records) == TrailOf(old(records))
      ensures LooseAre(records) == LooseAre(old(records))
      ensures records == Replaced(old(records), Some(leaf))
    {
      SetLast(Some(leaf), |containers|);
      inBlock := true;
    }

    /** md_start_new_block: the type of the line is one of those that can begin a block. */
    method StartNewBlock(kind: LineKind)
      requires Valid() && !inBlock && BlockOf(kind).Some?
      modifies this`records, this`inBlock
      ensures Valid() && inBlock && TrailOf(records) == TrailOf(old(records))
      ensures LooseAre(records) == LooseAre(old(records))
      ensures records == old(records) + [Leaf(BlockOf(kind).value, false, 0)]
      ensures LastLeaf(records).leaf ==
        match kind
        case BreakLine => Break
        case AtxHeader => Header
        case FencedCode => Code
        case IndentedCode => Code
        case HtmlLine => Html
        case _ => Paragraph
    {
      ghost var before := records;
      LastOrNone(containers);
      PushRecord(Leaf(BlockOf(kind).value, false, 0), OpenKinds(containers));
      assert records[..|before|] == before;
      OffsetsKept(before, records, containers, |containers|);
      inBlock := true;
    }

    static lemma {:induction false} LastOrNone(cs: seq<Container>)
      ensures cs[..|cs|] == cs && Depth(OpenKinds(cs)) == |cs|
    {
      DepthOfContainers(cs);
    }

    /** md_add_line_into_current_block */
    method AddLine()
      requires Valid() && inBlock
      modifies this`records, this`inBlock
      ensures Valid() && inBlock && TrailOf(records) == TrailOf(old(records))
      ensures LooseAre(records) == LooseAre(old(records))
      ensures records == Replaced(old(records), Some(LastLeaf(old(records)).(lines := LastLeaf(old(records)).lines + 1)))
    {
      var leaf := records[|records| - 1];
      ChangeBlock(leaf.(lines := leaf.lines + 1));
    }

    /** The end of md_process_doc: everything is closed. */
    method CloseAll()
      requires Valid()
      modifies this
      ensures Valid() && containers == [] && Nest(records) == Some([])
      ensures TrailOf(records) == Closed(TrailOf(old(records)), MarksOf(old(containers)), 0, |old(containers)|)
      ensures LooseAre(records) == LooseAre(old(records))
    {
      EndCurrentBlock(|containers|);
      LeaveChildren(0);
    }

    /**
     * md_process_all_blocks: one call for each record, so that the calls are balanced, and each leaf block is told
     * whether it stands in a tight list. The container vector is reused for the open lists and quotes, and `n`
     * never reaches its capacity.
     */
    method ProcessAllBlocks() returns (calls: seq<Call>)
      requires Valid() && Nest(records) == Some([])
      ensures calls == Calls(records) && CallsFit(records, calls) && Balanced(calls) == Some([])
    {
      var isLoose := new bool[allocContainers];
      var n := 0;
      calls := [];
      for i := 0 to |records|
        invariant n == DepthAt(records, i) && n <= isLoose.Length == allocContainers
        invariant Remembered(records, i, isLoose[..n]) && |calls| == i
        invariant forall k | 0 <= k < i :: calls[k] == CallAt(records, k)
      {
        var call;
        call, n := ProcessBlock(i, n, isLoose);
        calls := calls + [call];
      }
      assert calls == Calls(records);
      CallsBalance(records, |records|);
      CallsAreFit(records, allocContainers);
      assert records[..|records|] == records && calls[..|records|] == calls;
    }

    method ProcessBlock(i: nat, n: nat, isLoose: array<bool>) returns (call: Call, now: nat)
      requires Valid() && i < |records| && n == DepthAt(records, i) && n <= isLoose.Length == allocContainers
      requires Remembered(records, i, isLoose[..n])
      modifies isLoose
      ensures call == CallAt(records, i) && now == DepthAt(records, i + 1) && now <= isLoose.Length
      ensures Remembered(records, i + 1, isLoose[..now])
    {
      OneMore(records, i, allocContainers);
      match records[i] {
        case Closer(kind) =>
          call, now := Leave(kind), if kind == Item then n else n - 1;
        case Opener(kind, loose) =>
          call, now := Enter(kind, !loose), n;
          if kind != Item {
            isLoose[n], now := loose || kind == Quote, n + 1;
          }
        case Leaf(_, _, _) =>
          call, now := Text(n > 0 && !isLoose[n - 1]), n;
      }
    }

    /**
     * md_process_doc: the records of quotes, lists and items are those that the lines call for, and the calls are
     * those for the records, in balance.
     */
    method ProcessDoc(lines: seq<Line>) returns (calls: seq<Call>)
      requires Valid() && Settled() && records == [] && containers == []
      requires Follow(lines).Some? && forall i | 0 <= i < |lines| :: lines[i].Proper()
      modifies this
      ensures TrailOf(records) == Whole(lines)
      ensures forall kind :: EnterCount(calls, kind) == Wanted(lines, kind)
      ensures (forall k | 0 <= k < |calls| && calls[k].Enter? :: calls[k].tight) <==> NoneLoosens(lines, |lines|)
      ensures calls == Calls(records) && CallsFit(records, calls) && Balanced(calls) == Some([])
    {
      hide Balanced, Closed, Nest, OpenKinds, CallsFit, EnterCount, Wanted, Calls, LooseAre, NoneLoosens, LoosenedAt;
      NothingLoose(records, lines);
      for i := 0 to |lines|
        invariant Valid() && Settled()
        invariant Follow(lines[..i]) == Some(Outline(TrailOf(records), MarksOf(containers)))
        invariant LooseAre(records) == {} <==> NoneLoosens(lines, i)
      {
        FollowFront(lines, i + 1);
        FollowNext(lines, i);
        var line := Meant(lines[i]);
        ghost var before, here := LooseAre(records), LoosenedAt(containers, line.Keep(), line.loosens);
        LoosensHere(lines, i, containers, before, here);
        NextLine(line);
      }
      assert lines[..|lines|] == lines;
      CloseAll();
      calls := ProcessAllBlocks();
      TightUnlessLoose(records, calls);
      forall kind ensures EnterCount(calls, kind) == Wanted(lines, kind) {
        EntersAsWanted(records, calls, lines, kind);
      }
    }

    static lemma {:induction false} NothingLoose(records: seq<Record>, lines: seq<Line>)
      requires records == []
      ensures LooseAre(records) == {} && NoneLoosens(lines, 0)
    {
    }

    static lemma {:induction false} LoosensHere(lines: seq<Line>, i: nat, cs: seq<Container>, before: set<nat>, here: set<nat>)
      requires i < |lines| && Follow(lines[..i]).Some? && Follow(lines[..i]).value.marks == MarksOf(cs)
      requires here == LoosenedAt(cs, lines[i].Keep(), lines[i].loosens) && (before == {} <==> NoneLoosens(lines, i))
      ensures before + here == {} <==> NoneLoosens(lines, i + 1)
    {
      assert LoosensList(lines, i) <==> here != {};
      assert forall x | x in before + here :: x in before || x in here;
      assert forall x | x in before || x in here :: x in before + here;
    }

    /**
     * What md_analyze_line makes of a line where it comes: what would be an underline, or a line of a table, is a
     * text line or a thematic break where there is nothing to underline and no table.
     */
    method Meant(line: Line) returns (meant: Line)
      requires Valid() && Settled() && Kept(line) && line.Proper()
      ensures Possible(meant) && meant == line.(kind := meant.kind) && (Possible(line) ==> meant == line)
    {
      meant := line;
      if !Possible(line) {
        var dashes: bool := *;
        meant := line.(kind := if dashes then BreakLine else TextLine);
      }
    }
  }

  /** How many block quotes and lists are open before record `i`. */
  function DepthAt(records: seq<Record>, i: nat): nat
    requires i <= |records|
  {
    var open := Nest(records[..i]);
    if open.Some? then Depth(open.value) else 0
  }

  /** The last place before `i` where no more than `level` quotes and lists were open. */
  function OpenedAt(records: seq<Record>, i: nat, level: nat): (k: nat)
    requires 0 < i <= |records|
    ensures k < i
  {
    if i == 1 || DepthAt(records, i - 1) <= level then i - 1 else OpenedAt(records, i - 1, level)
  }

  /** The quote or list that is open at `level` before record `i` is a quote or a loose list. */
  predicate LooseAt(records: seq<Record>, i: nat, level: nat)
    requires 0 < i <= |records|
  {
    var r := records[OpenedAt(records, i, level)];
    r.Opener? && (r.loose || r.kind == Quote)
  }

  /** The flags of all open quotes and lists. */
  ghost predicate Remembered(records: seq<Record>, i: nat, flags: seq<bool>)
    requires i <= |records|
  {
    forall level | 0 <= level < |flags| :: i > 0 && flags[level] == LooseAt(records, i, level)
  }

  /** The call for record `i`; a leaf block is in a tight list if the innermost quote or list is a tight list. */
  function CallAt(records: seq<Record>, i: nat): Call
    requires i < |records|
  {
    match records[i]
    case Opener(kind, loose) => Enter(kind, !loose)
    case Closer(kind) => Leave(kind)
    case Leaf(_, _, _) =>
      var n := DepthAt(records, i);
      Text(i > 0 && n > 0 && !LooseAt(records, i, n - 1))
  }

  function Calls(records: seq<Record>): (r: seq<Call>)
    ensures |r| == |records| && forall i | 0 <= i < |r| :: r[i] == CallAt(records, i)
  {
    seq(|records|, i requires 0 <= i < |records| => CallAt(records, i))
  }

  // ----- the list or quote that a leaf block stands in -----

  /**
   * `k` is the opener of the innermost quote or list around record `i`: the records between leave it open, and only
   * items are open inside.
   */
  ghost predicate Innermost(records: seq<Record>, k: int, i: int) {
    && 0 <= k < i <= |records| && records[k].Opener? && records[k].kind != Item
    && Nest(records[..k + 1]).Some? && Nest(records[..i]).Some?
    && (forall j {:trigger LeavesOpen(records, k, j)} | k < j <= i :: LeavesOpen(records, k, j))
    && forall x | |Nest(records[..k + 1]).value| <= x < |Nest(records[..i]).value| :: Nest(records[..i]).value[x] == Item
  }

  /** What is open after record `k` is still open before record `j`. */
  ghost predicate LeavesOpen(records: seq<Record>, k: int, j: int)
    requires 0 <= k < |records| && k < j <= |records|
  {
    Nest(records[..k + 1]).Some? && Nest(records[..j]).Some? && Nest(records[..k + 1]).value <= Nest(records[..j]).value
  }

  /**
   * The call for record `i`: a leaf block is told that it is in a tight list exactly if the innermost quote or list
   * around it is a list that has not been found to be loose. Text right inside a quote never is.
   */
  ghost predicate CallFits(records: seq<Record>, calls: seq<Call>, i: int)
    requires 0 <= i < |records| == |calls|
  {
    match records[i]
    case Opener(kind, loose) => calls[i] == Enter(kind, !loose)
    case Closer(kind) => calls[i] == Leave(kind)
    case Leaf(_, _, _) =>
      && Nest(records[..i]).Some?
      && (forall k | Innermost(records, k, i) :: calls[i] == Text(records[k].kind != Quote && !records[k].loose))
      && ((exists k :: Innermost(records, k, i)) <==>
            exists x | 0 <= x < |Nest(records[..i]).value| :: Nest(records[..i]).value[x] != Item)
      && ((forall x | 0 <= x < |Nest(records[..i]).value| :: Nest(records[..i]).value[x] == Item) ==> calls[i] == Text(false))
  }

  ghost predicate CallsFit(records: seq<Record>, calls: seq<Call>) {
    |calls| == |records| && forall i {:trigger CallFits(records, calls, i)} | 0 <= i < |records| :: CallFits(records, calls, i)
  }

  lemma {:induction false} DepthConcat(a: seq<Kind>, b: seq<Kind>)
    ensures Depth(a + b) == Depth(a) + Depth(b)
    decreases |b|
  {
    if b == [] {
      assert a + b == a;
    } else {
      var n := |b| - 1;
      DepthConcat(a, b[..n]);
      assert a + b == (a + b[..n]) + [b[n]] && b == b[..n] + [b[n]];
      DepthMore(a + b[..n], b[n]);
      DepthMore(b[..n], b[n]);
    }
  }

  lemma {:induction false} DepthOfItems(open: seq<Kind>)
    ensures Depth(open) == 0 <==> forall x | 0 <= x < |open| :: open[x] == Item
  {
    if open != [] {
      DepthOfItems(open[..|open| - 1]);
    }
  }

  lemma {:induction false} PrefixDepth(a: seq<Kind>, b: seq<Kind>)
    requires a <= b
    ensures Depth(a) <= Depth(b)
    ensures Depth(a) == Depth(b) <==> forall x | |a| <= x < |b| :: b[x] == Item
  {
    assert b == a + b[|a|..];
    DepthConcat(a, b[|a|..]);
    DepthOfItems(b[|a|..]);
    assert forall x | |a| <= x < |b| :: b[x] == b[|a|..][x - |a|];
  }

  lemma {:induction false} OpenedSince(records: seq<Record>, i: nat, level: nat)
    requires 0 < i <= |records|
    ensures
      var k := OpenedAt(records, i, level);
      && (k > 0 ==> DepthAt(records, k) <= level) && forall j | k < j < i :: DepthAt(records, j) > level
  {
    if !(i == 1 || DepthAt(records, i - 1) <= level) {
      OpenedSince(records, i - 1, level);
    }
  }

  /** The innermost quote or list is the one found by its depth. */
  lemma {:induction false} InnermostIsOpened(records: seq<Record>, k: int, i: nat, n: nat)
    requires Shallow(records, n) && i <= |records| && Innermost(records, k, i)
    ensures DepthAt(records, i) > 0 && OpenedAt(records, i, DepthAt(records, i) - 1) == k
  {
    OneMore(records, k, n);
    assert LeavesOpen(records, k, i);
    PrefixDepth(Nest(records[..k + 1]).value, Nest(records[..i]).value);
    forall j | k < j < i ensures DepthAt(records, j) >= DepthAt(records, k + 1) {
      assert LeavesOpen(records, k, j);
      PrefixDepth(Nest(records[..k + 1]).value, Nest(records[..j]).value);
    }
    OpenedSince(records, i, DepthAt(records, i) - 1);
  }

  lemma {:induction false} NothingAtStart(records: seq<Record>)
    ensures DepthAt(records, 0) == 0
  {
    assert records[..0] == [];
  }

  /** The one found by its depth is the innermost. */
  lemma {:induction false} OpenedIsInnermost(records: seq<Record>, i: nat, n: nat)
    requires Shallow(records, n) && i <= |records| && DepthAt(records, i) > 0
    ensures i > 0 && Innermost(records, OpenedAt(records, i, DepthAt(records, i) - 1), i)
  {
    hide Nest, Depth;
    NothingAtStart(records);
    var level := DepthAt(records, i) - 1;
    var k := OpenedAt(records, i, level);
    OpenedSince(records, i, level);
    OneMore(records, k, n);
    assert ShallowAt(records, k, n) && ShallowAt(records, k + 1, n) && ShallowAt(records, i, n);
    for j := k + 1 to i
      invariant forall x | k < x <= j :: LeavesOpen(records, k, x)
    {
      StaysOpen(records, k, j, n);
    }
    assert LeavesOpen(records, k, i);
    PrefixDepth(Nest(records[..k + 1]).value, Nest(records[..i]).value);
  }

  /** Something that is not an item is open until the depth goes down. */
  lemma {:induction false} StaysOpen(records: seq<Record>, k: nat, j: nat, n: nat)
    requires Shallow(records, n) && k < j < |records| && LeavesOpen(records, k, j)
    requires records[k].Opener? && records[k].kind != Item && DepthAt(records, j + 1) >= DepthAt(records, k + 1)
    ensures LeavesOpen(records, k, j + 1)
  {
    hide Nest, Depth;
    var base, open := Nest(records[..k + 1]).value, Nest(records[..j]).value;
    assert records[..j + 1] == records[..j] + [records[j]] && records[..k + 1] == records[..k] + [records[k]];
    assert ShallowAt(records, j + 1, n) && ShallowAt(records, k, n);
    NestMore(records[..j], records[j]);
    NestMore(records[..k], records[k]);
    StepKeeps(base, open, records[j]);
  }

  lemma {:induction false} StepKeeps(base: seq<Kind>, open: seq<Kind>, r: Record)
    requires base <= open && base != [] && base[|base| - 1] != Item
    requires Step(open, r).Some? && Depth(Step(open, r).value) >= Depth(base)
    ensures base <= Step(open, r).value
  {
    assert |base| == |open| ==> base == open;
    DepthMore(open[..|open| - 1], open[|open| - 1]);
    assert open == open[..|open| - 1] + [open[|open| - 1]];
  }

  /** The calls for the records are as they are to be. */
  lemma {:induction false} CallsAreFit(records: seq<Record>, n: nat)
    requires Shallow(records, n)
    ensures CallsFit(records, Calls(records))
  {
    forall i | 0 <= i < |records| ensures CallFits(records, Calls(records), i) {
      if records[i].Leaf? {
        assert ShallowAt(records, i, n);
        DepthOfItems(Nest(records[..i]).value);
        if DepthAt(records, i) > 0 {
          OpenedIsInnermost(records, i, n);
        }
        forall k | Innermost(records, k, i)
          ensures DepthAt(records, i) > 0 && OpenedAt(records, i, DepthAt(records, i) - 1) == k
        {
          InnermostIsOpened(records, k, i, n);
        }
      }
    }
  }

  // ----- how many containers are entered -----

  /** A mark brings a quote, or a list of its kind and an item. */
  predicate Brings(ch: Mark, kind: Kind) {
    match kind
    case Quote => ch == Angle
    case BulletList => ch == Dash || ch == Plus || ch == Asterisk
    case OrderedList => ch == Period || ch == Paren
    case Item => ch != Angle
  }

  function Brought(children: seq<Mark>, kind: Kind): nat {
    if children == [] then 0 else (if Brings(children[0], kind) then 1 else 0) + Brought(children[1..], kind)
  }

  /** Each line brings its children, and an item if it is a further item of a list. */
  function Wanted(lines: seq<Line>, kind: Kind): nat {
    if lines == [] then 0
    else
      var n := |lines| - 1;
      Wanted(lines[..n], kind) + Brought(lines[n].children, kind) + if lines[n].brother && kind == Item then 1 else 0
  }

  function EnterCount(calls: seq<Call>, kind: Kind): nat {
    if calls == [] then 0
    else
      var n := |calls| - 1;
      EnterCount(calls[..n], kind) + if calls[n].Enter? && calls[n].kind == kind then 1 else 0
  }

  function TrailCount(t: Trail, kind: Kind): nat {
    match t
    case Nothing => 0
    case Then(before, k, opens) => TrailCount(before, kind) + if opens && k == kind then 1 else 0
  }

  lemma {:induction false} OpenedCount(t: Trail, marks: seq<Mark>, lo: nat, kind: Kind)
    requires lo <= |marks|
    ensures TrailCount(Opened(t, marks, lo), kind) == TrailCount(t, kind) + Brought(marks[lo..], kind)
    decreases |marks| - lo
  {
    if lo < |marks| {
      OpenedCount(OpenOne(t, marks[lo]), marks, lo + 1, kind);
      assert marks[lo..][1..] == marks[lo + 1..];
    }
  }

  lemma {:induction false} ClosedCount(t: Trail, marks: seq<Mark>, lo: nat, hi: nat, kind: Kind)
    requires lo <= hi <= |marks|
    ensures TrailCount(Closed(t, marks, lo, hi), kind) == TrailCount(t, kind)
    decreases hi
  {
    if lo < hi {
      ClosedCount(CloseOne(t, marks[hi - 1]), marks, lo, hi - 1, kind);
    }
  }

  lemma {:induction false} FollowCount(lines: seq<Line>, kind: Kind)
    requires Follow(lines).Some?
    ensures TrailCount(Follow(lines).value.trail, kind) == Wanted(lines, kind)
    decreases |lines|
  {
    if lines != [] {
      var line, front := lines[|lines| - 1], lines[..|lines| - 1];
      FollowCount(front, kind);
      var Outline(t, marks) := Follow(front).value;
      ClosedCount(t, marks, line.Keep(), |marks|, kind);
      var closed, kept := Closed(t, marks, line.Keep(), |marks|), marks[..line.Keep()];
      OpenedCount(Renewed(closed, line.brother), kept + line.children, line.Keep(), kind);
      assert (kept + line.children)[line.Keep()..] == line.children;
    }
  }

  lemma {:induction false} CallCount(records: seq<Record>, calls: seq<Call>, kind: Kind)
    requires |calls| == |records|
    requires forall i | 0 <= i < |records| ::
      calls[i].Enter? == records[i].Opener? && (calls[i].Enter? ==> calls[i].kind == records[i].kind)
    ensures EnterCount(calls, kind) == TrailCount(TrailOf(records), kind)
    decreases |records|
  {
    if records != [] {
      CallCount(records[..|records| - 1], calls[..|calls| - 1], kind);
    }
  }

  /** The callbacks enter as many quotes, lists and items as the lines call for. */
  lemma {:induction false} EntersAsWanted(records: seq<Record>, calls: seq<Call>, lines: seq<Line>, kind: Kind)
    requires Follow(lines).Some? && TrailOf(records) == Whole(lines) && CallsFit(records, calls)
    ensures EnterCount(calls, kind) == Wanted(lines, kind)
  {
    forall i | 0 <= i < |records|
      ensures calls[i].Enter? == records[i].Opener? && (calls[i].Enter? ==> calls[i].kind == records[i].kind)
    {
      assert CallFits(records, calls, i);
      if records[i].Leaf? {
        assert calls[i].Text?;
      }
    }
    CallCount(records, calls, kind);
    FollowCount(lines, kind);
    var Outline(t, marks) := Follow(lines).value;
    ClosedCount(t, marks, 0, |marks|, kind);
  }

  /** The callbacks are told of a loose list exactly if there is one. */
  lemma {:induction false} TightUnlessLoose(records: seq<Record>, calls: seq<Call>)
    requires CallsFit(records, calls)
    ensures LooseAre(records) == {} <==> forall k | 0 <= k < |calls| && calls[k].Enter? :: calls[k].tight
  {
    forall k | 0 <= k < |records| ensures calls[k].Enter? && !calls[k].tight <==> k in LooseAre(records) {
      assert CallFits(records, calls, k);
      if records[k].Leaf? {
        assert calls[k].Text?;
      }
    }
  }

  lemma {:induction false} CallsBalance(records: seq<Record>, n: nat)
    requires n <= |records|
    ensures Balanced(Calls(records)[..n]) == Nest(records[..n])
  {
    if n > 0 {
      assert Calls(records)[..n][..n - 1] == Calls(records)[..n - 1] && records[..n][..n - 1] == records[..n - 1];
      CallsBalance(records, n - 1);
    }
  }

  /** What the next record does to the depth. */
  lemma {:induction false} OneMore(records: seq<Record>, i: nat, n: nat)
    requires i < |records| && Shallow(records, n)
    ensures
      var before, after := DepthAt(records, i), DepthAt(records, i + 1);
      && before <= n && after <= n
      && match records[i]
         case Opener(kind, _) => after == before + if kind == Item then 0 else 1
         case Closer(kind) => before == after + if kind == Item then 0 else 1
         case Leaf(_, _, _) => after == before
    ensures i == 0 ==> DepthAt(records, i) == 0
  {
    assert records[..i + 1] == records[..i] + [records[i]];
    assert ShallowAt(records, i, n) && ShallowAt(records, i + 1, n);
    NestMore(records[..i], records[i]);
    var open := Nest(records[..i]).value;
    match records[i]
    case Opener(kind, _) => DepthMore(open, kind);
    case Closer(kind) =>
      assert open == open[..|open| - 1] + [kind];
      DepthMore(open[..|open| - 1], kind);
    case Leaf(_, _, _) =>
  }

  /** What the callbacks of the parser are told. */
  datatype Call = Enter(kind: Kind, tight: bool) | Leave(kind: Kind) | Text(tight: bool)

  function Balanced(calls: seq<Call>): Option<seq<Kind>> {
    if calls == [] then Some([])
    else
      var before := Balanced(calls[..|calls| - 1]);
      if before.None? then None
      else match calls[|calls| - 1]
        case Enter(kind, _) => Some(before.value + [kind])
        case Leave(kind) =>
          if before.value != [] && before.value[|before.value| - 1] == kind then Some(before.value[..|before.value| - 1])
          else None
        case Text(_) => before
  }
}
