/** Rendering the marks of a block: spans, text and line breaks in the order they are emitted. */
module Inlines {
  import opened Lines
  import opened Sequences
  import opened Wrappers
  import opened Marks

  datatype Span = Em | Strong | Underline | Del

  /** What the callbacks of the parser are told; text is given by its place in the source. */
  datatype Event = Enter(span: Span) | Leave(span: Span) | Text(beg: nat, end: nat) | LineBreak

  // ----- nesting -----

  /** Entering and leaving spans in order: None when a span is left that is not the innermost one. */
  function Nest(open: seq<Span>, events: seq<Event>): Option<seq<Span>>
    decreases |events|
  {
    if events == [] then Some(open)
    else match events[0]
      case Enter(s) => Nest(open + [s], events[1..])
      case Leave(s) => if open != [] && open[|open| - 1] == s then Nest(open[..|open| - 1], events[1..]) else None
      case _ => Nest(open, events[1..])
  }

  lemma {:induction false} NestConcat(open: seq<Span>, a: seq<Event>, b: seq<Event>)
    requires Nest(open, a).Some?
    ensures Nest(open, a + b) == Nest(Nest(open, a).value, b)
    decreases |a|
  {
    if a == [] {
      assert a + b == b;
    } else {
      assert (a + b)[1..] == a[1..] + b && (a + b)[0] == a[0];
      match a[0]
      case Enter(s) => NestConcat(open + [s], a[1..], b);
      case Leave(s) => NestConcat(open[..|open| - 1], a[1..], b);
      case _ => NestConcat(open, a[1..], b);
    }
  }

  function Enters(spans: seq<Span>): seq<Event> {
    seq(|spans|, i requires 0 <= i < |spans| => Enter(spans[i]))
  }

  function Leaves(spans: seq<Span>): seq<Event> {
    seq(|spans|, i requires 0 <= i < |spans| => Leave(spans[|spans| - 1 - i]))
  }

  lemma {:induction false} NestEnters(open: seq<Span>, spans: seq<Span>)
    ensures Nest(open, Enters(spans)) == Some(open + spans)
    decreases |spans|
  {
    if spans == [] {
      assert open + spans == open;
    } else {
      assert Enters(spans)[1..] == Enters(spans[1..]);
      NestEnters(open + [spans[0]], spans[1..]);
      assert open + [spans[0]] + spans[1..] == open + spans;
    }
  }

  lemma {:induction false} NestLeaves(open: seq<Span>, spans: seq<Span>)
    ensures Nest(open + spans, Leaves(spans)) == Some(open)
    decreases |spans|
  {
    if spans == [] {
      assert open + spans == open;
    } else {
      var n := |spans| - 1;
      assert Leaves(spans)[1..] == Leaves(spans[..n]);
      assert (open + spans)[..|open| + n] == open + spans[..n];
      NestLeaves(open, spans[..n]);
    }
  }

  // ----- the spans of a mark -----

  function Repeat<T>(x: T, n: nat): seq<T> {
    seq(n, _ => x)
  }

  /** A mark opens one emphasis if its length is odd, and a strong emphasis for every two characters. */
  function Spans(x: Mark, underline: bool): seq<Span>
    requires x.beg <= x.end
  {
    if x.ch == '~' then [Del]
    else if x.ch == '_' && underline then Repeat(Underline, x.Len())
    else (if x.Len() % 2 == 1 then [Em] else []) + Repeat(Strong, x.Len() / 2)
  }

  /** The events of an opener. */
  method EnterSpans(x: Mark, underline: bool) returns (events: seq<Event>)
    requires IsDelim(x.ch) && x.beg <= x.end
    ensures events == Enters(Spans(x, underline))
    ensures x.ch == '~' ==> events == [Enter(Del)]
    ensures x.ch == '_' && underline ==> |events| == x.Len() && forall i | 0 <= i < |events| :: events[i] == Enter(Underline)
    ensures x.ch == '*' || (x.ch == '_' && !underline) ==>
      |events| == x.Len() % 2 + x.Len() / 2
      && forall i | 0 <= i < |events| :: events[i] == if i == 0 && x.Len() % 2 == 1 then Enter(Em) else Enter(Strong)
  {
    events := [];
    var off := x.beg;
    if x.ch == '_' && underline {
      while off < x.end
        invariant x.beg <= off <= x.end && events == Enters(Repeat(Underline, off - x.beg))
      {
        events := events + [Enter(Underline)];
        off := off + 1;
      }
    } else if IsEmph(x.ch) {
      if (x.end - off) % 2 != 0 {
        events := events + [Enter(Em)];
        off := off + 1;
      }
      ghost var first := events;
      ghost var n := 0;
      while off + 1 < x.end
        invariant x.beg <= off <= x.end && (x.end - off) % 2 == 0 && off == x.beg + |first| + 2 * n
        invariant events == first + Enters(Repeat(Strong, n))
      {
        events := events + [Enter(Strong)];
        off := off + 2;
        n := n + 1;
      }
    } else {
      events := [Enter(Del)];
    }
  }

  /** The events of a closer: the same spans are left, the innermost first. */
  method LeaveSpans(x: Mark, underline: bool) returns (events: seq<Event>)
    requires IsDelim(x.ch) && x.beg <= x.end
    ensures events == Leaves(Spans(x, underline))
    ensures x.ch == '~' ==> events == [Leave(Del)]
    ensures x.ch == '_' && underline ==> |events| == x.Len() && forall i | 0 <= i < |events| :: events[i] == Leave(Underline)
    ensures x.ch == '*' || (x.ch == '_' && !underline) ==>
      |events| == x.Len() % 2 + x.Len() / 2
      && forall i | 0 <= i < |events| ::
        events[i] == if i == |events| - 1 && x.Len() % 2 == 1 then Leave(Em) else Leave(Strong)
  {
    events := [];
    var off := x.beg;
    if x.ch == '_' && underline {
      while off < x.end
        invariant x.beg <= off <= x.end && events == Leaves(Repeat(Underline, off - x.beg))
      {
        events := events + [Leave(Underline)];
        off := off + 1;
      }
    } else if IsEmph(x.ch) {
      ghost var n := 0;
      while off + 1 < x.end
        invariant x.beg <= off <= x.end && off == x.beg + 2 * n && events == Leaves(Repeat(Strong, n))
      {
        events := events + [Leave(Strong)];
        off := off + 2;
        n := n + 1;
      }
      if (x.end - off) % 2 != 0 {
        events := events + [Leave(Em)];
        off := off + 1;
      }
    } else {
      events := [Leave(Del)];
    }
  }

  // ----- the spans that are open before a mark -----

  /** The spans of the openers before `j` whose closers are not before `k`, outermost first. */
  function Open(m: seq<Mark>, underline: bool, k: int, j: nat): seq<Span>
    requires j <= |m|
  {
    if j == 0 then []
    else if m[j - 1].opener && m[j - 1].next >= k && m[j - 1].beg <= m[j - 1].end
      then Open(m, underline, k, j - 1) + Spans(m[j - 1], underline)
    else Open(m, underline, k, j - 1)
  }

  lemma {:induction false} OpenSame(m: seq<Mark>, underline: bool, k: int, l: int, j: nat)
    requires j <= |m| && forall a | 0 <= a < j && m[a].opener :: m[a].next >= k <==> m[a].next >= l
    ensures Open(m, underline, k, j) == Open(m, underline, l, j)
  {
    if j > 0 {
      OpenSame(m, underline, k, l, j - 1);
    }
  }

  lemma {:induction false} OpenNone(m: seq<Mark>, underline: bool, k: int, i: nat, j: nat)
    requires i <= j <= |m| && forall a | i <= a < j && m[a].opener :: m[a].next < k
    ensures Open(m, underline, k, j) == Open(m, underline, k, i)
  {
    if i < j {
      OpenNone(m, underline, k, i, j - 1);
    }
  }

  /** An opener adds its spans. */
  lemma {:induction false} OpenAtOpener(m: seq<Mark>, underline: bool, k: nat)
    requires PairsOk(m, |m|) && k < |m| && m[k].opener && m[k].beg <= m[k].end
    ensures Open(m, underline, k + 1, k + 1) == Open(m, underline, k, k) + Spans(m[k], underline)
  {
    assert OpenerOk(m, |m|, k);
    forall a | 0 <= a < k && m[a].opener ensures m[a].next >= k <==> m[a].next >= k + 1 {
      assert Apart(m, a, k) && OpenerOk(m, |m|, a);
    }
    OpenSame(m, underline, k, k + 1, k);
  }

  /** A closer finds the spans of its opener innermost. */
  lemma {:induction false} OpenAtCloser(m: seq<Mark>, underline: bool, k: nat)
    requires PairsOk(m, |m|) && k < |m| && m[k].closer && m[k].beg <= m[k].end
    ensures Open(m, underline, k, k) == Open(m, underline, k + 1, k + 1) + Spans(m[k], underline)
  {
    assert CloserOk(m, |m|, k);
    var o := m[k].prev;
    assert OpenerOk(m, |m|, o) && (m[k].opener ==> OpenerOk(m, |m|, k));
    Others(m, o, k);
    OpenNone(m, underline, k, o + 1, k);
    OpenNone(m, underline, k + 1, o, k + 1);
    OpenSame(m, underline, k, k + 1, o);
    SameSpans(m[o], m[k], underline);
  }

  /** The other pairs end inside the pair `o`, `k` or are not affected by where it ends. */
  lemma {:induction false} Others(m: seq<Mark>, o: nat, k: nat)
    requires PairsOk(m, |m|) && o < k < |m| && m[o].opener && m[o].next == k
    ensures forall a | 0 <= a < o && m[a].opener :: m[a].next >= k <==> m[a].next >= k + 1
    ensures forall a | o < a < k && m[a].opener :: m[a].next < k
  {
    forall a | 0 <= a < o && m[a].opener ensures m[a].next >= k <==> m[a].next >= k + 1 {
      assert OpenerOk(m, |m|, a) && Apart(m, a, o) && OpenerOk(m, |m|, o);
    }
    forall a | o < a < k && m[a].opener ensures m[a].next < k {
      assert Apart(m, o, a);
    }
  }

  lemma {:induction false} SameSpans(x: Mark, y: Mark, underline: bool)
    requires x.ch == y.ch && x.Len() == y.Len() >= 0
    ensures Spans(x, underline) == Spans(y, underline)
  {
  }

  /** Other marks change nothing. */
  lemma {:induction false} OpenSkip(m: seq<Mark>, underline: bool, k: nat)
    requires PairsOk(m, |m|) && k < |m| && !m[k].opener && !m[k].closer
    ensures Open(m, underline, k + 1, k + 1) == Open(m, underline, k, k)
  {
    forall a | 0 <= a < k && m[a].opener ensures m[a].next >= k <==> m[a].next >= k + 1 {
      assert OpenerOk(m, |m|, a);
    }
    OpenSame(m, underline, k, k + 1, k);
  }

  // ----- what is told about the marks -----

  /** The events without text and line breaks. */
  function Tags(events: seq<Event>): seq<Event> {
    if events == [] then []
    else (if events[0].Enter? || events[0].Leave? then [events[0]] else []) + Tags(events[1..])
  }

  lemma {:induction false} TagsConcat(a: seq<Event>, b: seq<Event>)
    ensures Tags(a + b) == Tags(a) + Tags(b)
    decreases |a|
  {
    if a == [] {
      assert a + b == b;
    } else {
      assert (a + b)[1..] == a[1..] + b && (a + b)[0] == a[0];
      TagsConcat(a[1..], b);
      Assoc(if a[0].Enter? || a[0].Leave? then [a[0]] else [], Tags(a[1..]), Tags(b));
    }
  }

  lemma {:induction false} TagsOnly(events: seq<Event>)
    requires forall i | 0 <= i < |events| :: events[i].Enter? || events[i].Leave?
    ensures Tags(events) == events
  {
    if events != [] {
      TagsOnly(events[1..]);
    }
  }

  lemma {:induction false} NoTag(e: Event)
    requires !e.Enter? && !e.Leave?
    ensures Tags([e]) == []
  {
    assert [e][1..] == [];
  }

  /** An opener enters its spans, and the closer of the pair leaves the same spans. */
  function TagsOf(x: Mark, underline: bool): seq<Event>
    requires x.beg <= x.end
  {
    if x.opener then Enters(Spans(x, underline))
    else if x.closer then Leaves(Spans(x, underline))
    else []
  }

  /** What the first `k` marks are to be turned into. */
  function MarkTags(m: seq<Mark>, underline: bool, k: nat): seq<Event>
    requires k <= |m|
  {
    if k == 0 then []
    else MarkTags(m, underline, k - 1) + if m[k - 1].beg <= m[k - 1].end then TagsOf(m[k - 1], underline) else []
  }

  /**
   * What an opener or a closer of a given length is told as: one emphasis if the length is odd, the outermost span,
   * and a strong emphasis for every two characters; or an underlining for every character; or one deletion.
   */
  ghost predicate TellsMark(x: Mark, underline: bool, tags: seq<Event>) {
    && (!x.opener && !x.closer ==> tags == [])
    && (x.opener && x.ch == '~' ==> tags == [Enter(Del)])
    && (x.opener && x.ch == '_' && underline ==>
          |tags| == x.Len() && forall i | 0 <= i < |tags| :: tags[i] == Enter(Underline))
    && (x.opener && (x.ch == '*' || (x.ch == '_' && !underline)) ==>
          && |tags| == x.Len() % 2 + x.Len() / 2
          && forall i | 0 <= i < |tags| :: tags[i] == if i == 0 && x.Len() % 2 == 1 then Enter(Em) else Enter(Strong))
    && (!x.opener && x.closer && x.ch == '~' ==> tags == [Leave(Del)])
    && (!x.opener && x.closer && x.ch == '_' && underline ==>
          |tags| == x.Len() && forall i | 0 <= i < |tags| :: tags[i] == Leave(Underline))
    && (!x.opener && x.closer && (x.ch == '*' || (x.ch == '_' && !underline)) ==>
          && |tags| == x.Len() % 2 + x.Len() / 2
          && forall i | 0 <= i < |tags| ::
            tags[i] == if i == |tags| - 1 && x.Len() % 2 == 1 then Leave(Em) else Leave(Strong))
  }

  lemma {:induction false} TagsTellMark(x: Mark, underline: bool)
    requires x.beg <= x.end
    ensures TellsMark(x, underline, TagsOf(x, underline))
  {
    var spans := Spans(x, underline);
    assert forall i | 0 <= i < |spans| :: Enters(spans)[i] == Enter(spans[i]) && Leaves(spans)[i] == Leave(spans[|spans| - 1 - i]);
  }

  /** `tags` consists of what the first `k` marks are told as, mark by mark; `at` says where each one begins. */
  ghost predicate Tells(m: seq<Mark>, underline: bool, tags: seq<Event>, k: nat, at: seq<nat>)
    requires k <= |m|
  {
    && |at| == k + 1 && at[0] == 0 && at[k] == |tags|
    && forall j {:trigger TellsOne(m, underline, tags, at, j)} | 0 <= j < k :: TellsOne(m, underline, tags, at, j)
  }

  ghost predicate TellsOne(m: seq<Mark>, underline: bool, tags: seq<Event>, at: seq<nat>, j: int)
    requires 0 <= j < |m| && j + 1 < |at|
  {
    at[j] <= at[j + 1] <= |tags| && TellsMark(m[j], underline, tags[at[j]..at[j + 1]])
  }

  lemma {:induction false} TagsTell(m: seq<Mark>, underline: bool, k: nat) returns (at: seq<nat>)
    requires Layout(m) && PairsOk(m, |m|) && k <= |m|
    ensures Tells(m, underline, MarkTags(m, underline, k), k, at)
  {
    hide TellsMark, Layout, PairsOk, TagsOf;
    if k == 0 {
      at := [0];
    } else {
      var before := TagsTell(m, underline, k - 1);
      TagsGrow(m, underline, k - 1);
      TellsLast(m, underline, k - 1);
      at := TellMore(m, underline, MarkTags(m, underline, k - 1), MarkTags(m, underline, k), k - 1, before);
    }
  }

  lemma {:induction false} TellMore(m: seq<Mark>, underline: bool, tags: seq<Event>, all: seq<Event>, k: nat, before: seq<nat>)
    returns (at: seq<nat>)
    requires k < |m| && Tells(m, underline, tags, k, before) && tags <= all
    requires TellsMark(m[k], underline, all[|tags|..])
    ensures Tells(m, underline, all, k + 1, at)
  {
    hide TellsMark;
    at := before + [|all|];
    forall j | 0 <= j < k + 1 ensures TellsOne(m, underline, all, at, j) {
      if j < k {
        assert TellsOne(m, underline, tags, before, j);
        assert all[at[j]..at[j + 1]] == tags[before[j]..before[j + 1]];
      } else {
        assert all[at[k]..at[k + 1]] == all[|tags|..];
      }
    }
  }

  lemma {:induction false} TagsGrow(m: seq<Mark>, underline: bool, k: nat)
    requires k < |m|
    ensures MarkTags(m, underline, k) <= MarkTags(m, underline, k + 1)
  {
  }

  lemma {:induction false} TellsLast(m: seq<Mark>, underline: bool, k: nat)
    requires Layout(m) && PairsOk(m, |m|) && k < |m|
    ensures |MarkTags(m, underline, k)| <= |MarkTags(m, underline, k + 1)|
    ensures TellsMark(m[k], underline, MarkTags(m, underline, k + 1)[|MarkTags(m, underline, k)|..])
  {
    var tags, all := MarkTags(m, underline, k), MarkTags(m, underline, k + 1);
    if m[k].beg <= m[k].end {
      TagsTellMark(m[k], underline);
      assert all[|tags|..] == TagsOf(m[k], underline);
    } else {
      assert all[|tags|..] == [];
      assert m[k].opener ==> OpenerOk(m, |m|, k);
      assert m[k].closer ==> CloserOk(m, |m|, k);
      assert IsDelim(m[k].ch) ==> Room(m, k);
    }
  }

  lemma {:induction false} NoMoreTags(m: seq<Mark>, underline: bool, k: nat, l: nat)
    requires k <= l <= |m| && forall j | k <= j < l :: !m[j].opener && !m[j].closer
    ensures MarkTags(m, underline, k) == MarkTags(m, underline, l)
  {
    if k < l {
      NoMoreTags(m, underline, k, l - 1);
    }
  }

  /** The pair of the opener `o` is around the place `x`. */
  predicate IsAround(m: seq<Mark>, o: nat, x: int)
    requires o < |m|
  {
    m[o].opener && 0 <= m[o].next < |m| && m[o].beg <= m[o].end <= x < m[m[o].next].beg
  }

  /** The spans of the pairs around the place `x`, outermost first; `j` is the number of marks looked at. */
  function Around(m: seq<Mark>, underline: bool, x: int, j: nat): seq<Span>
    requires j <= |m|
  {
    if j == 0 then []
    else if IsAround(m, j - 1, x) then Around(m, underline, x, j - 1) + Spans(m[j - 1], underline)
    else Around(m, underline, x, j - 1)
  }

  /** A text event comes when exactly the spans around each of its places are open. */
  ghost predicate InPlace(m: seq<Mark>, underline: bool, open: Option<seq<Span>>, e: Event) {
    e.Text? ==> forall x | e.beg <= x < e.end :: open == Some(Around(m, underline, x, |m|))
  }

  ghost predicate AllInPlace(m: seq<Mark>, underline: bool, out: seq<Event>) {
    forall i {:trigger InPlace(m, underline, Nest([], out[..i]), out[i])} | 0 <= i < |out| ::
      InPlace(m, underline, Nest([], out[..i]), out[i])
  }

  lemma {:induction false} OneMore(m: seq<Mark>, underline: bool, out: seq<Event>, e: Event)
    requires AllInPlace(m, underline, out) && InPlace(m, underline, Nest([], out), e)
    ensures AllInPlace(m, underline, out + [e])
  {
    var all := out + [e];
    forall i | 0 <= i < |all| ensures InPlace(m, underline, Nest([], all[..i]), all[i]) {
      assert all[..i] == out[..i];
      if i < |out| {
        assert InPlace(m, underline, Nest([], out[..i]), out[i]);
      } else {
        assert out[..i] == out;
      }
    }
  }

  lemma {:induction false} SomeMore(m: seq<Mark>, underline: bool, out: seq<Event>, more: seq<Event>)
    requires AllInPlace(m, underline, out) && forall i | 0 <= i < |more| :: !more[i].Text?
    ensures AllInPlace(m, underline, out + more)
  {
    var all := out + more;
    forall i | 0 <= i < |all| ensures InPlace(m, underline, Nest([], all[..i]), all[i]) {
      if i < |out| {
        assert all[..i] == out[..i];
        assert InPlace(m, underline, Nest([], out[..i]), out[i]);
      }
    }
  }

  /** The marks before `k` have been told, and all text is in its place. */
  ghost predicate Told(m: seq<Mark>, underline: bool, out: seq<Event>, k: nat)
    requires k <= |m|
  {
    Tags(out) == MarkTags(m, underline, k) && AllInPlace(m, underline, out)
  }

  lemma {:induction false} TextTold(m: seq<Mark>, underline: bool, out: seq<Event>, k: nat, off: nat, tmp: nat)
    requires Layout(m) && PairsOk(m, |m|) && k < |m| && Told(m, underline, out, k) && tmp <= m[k].beg
    requires forall j | 0 <= j < k && m[j].resolved && IsDelim(m[j].ch) :: m[j].end <= off
    requires Nest([], out) == Some(Open(m, underline, k, k))
    ensures Told(m, underline, out + [Text(off, tmp)], k)
  {
    forall x | off <= x < tmp ensures Around(m, underline, x, |m|) == Open(m, underline, k, k) {
      AroundIsOpen(m, underline, k, x);
    }
    OneMore(m, underline, out, Text(off, tmp));
    TagsConcat(out, [Text(off, tmp)]);
    NoTag(Text(off, tmp));
  }

  /** Between the marks `k - 1` and `k` the open spans are those of the pairs around. */
  lemma {:induction false} AroundIsOpen(m: seq<Mark>, underline: bool, k: nat, x: int)
    requires Layout(m) && PairsOk(m, |m|) && k < |m| && x < m[k].beg
    requires forall j | 0 <= j < k && m[j].resolved && IsDelim(m[j].ch) :: m[j].end <= x
    ensures Around(m, underline, x, |m|) == Open(m, underline, k, k)
  {
    NoneAround(m, underline, k, x, |m|);
    SameAround(m, underline, k, x, k);
  }

  lemma {:induction false} NoneAround(m: seq<Mark>, underline: bool, k: nat, x: int, j: nat)
    requires Layout(m) && k < |m| && x < m[k].beg && k <= j <= |m|
    ensures Around(m, underline, x, j) == Around(m, underline, x, k)
  {
    if j > k {
      assert j - 1 > k ==> Before(m, k, j - 1);
      NoneAround(m, underline, k, x, j - 1);
    }
  }

  lemma {:induction false} SameAround(m: seq<Mark>, underline: bool, k: nat, x: int, j: nat)
    requires Layout(m) && PairsOk(m, |m|) && j <= k < |m| && x < m[k].beg
    requires forall j | 0 <= j < k && m[j].resolved && IsDelim(m[j].ch) :: m[j].end <= x
    ensures Around(m, underline, x, j) == Open(m, underline, k, j)
  {
    hide Spans, Room, NeverCross;
    if j > 0 {
      var o := j - 1;
      SameAround(m, underline, k, x, o);
      if m[o].opener {
        assert OpenerOk(m, |m|, o);
        var c := m[o].next;
        assert CloserOk(m, |m|, c) && Proper(m[c]);
        assert c > k ==> Before(m, k, c);
      }
    }
  }

  lemma {:induction false} MarkTold(m: seq<Mark>, underline: bool, out: seq<Event>, k: nat, events: seq<Event>)
    requires PairsOk(m, |m|) && k < |m| - 1 && Told(m, underline, out, k) && m[k].resolved && m[k].beg <= m[k].end
    requires events == if m[k].opener then Enters(Spans(m[k], underline)) else Leaves(Spans(m[k], underline))
    ensures Told(m, underline, out + events, k + 1)
  {
    TagsConcat(out, events);
    TagsOnly(events);
    SomeMore(m, underline, out, events);
  }

  lemma {:induction false} BreakTold(m: seq<Mark>, underline: bool, out: seq<Event>, k: nat)
    requires k <= |m| && Told(m, underline, out, k)
    ensures Told(m, underline, out + [LineBreak], k)
  {
    TagsConcat(out, [LineBreak]);
    NoTag(LineBreak);
    SomeMore(m, underline, out, [LineBreak]);
  }

  // ----- the text -----

  /** A resolved delimiter covers the character at `off`. */
  predicate Covered(m: seq<Mark>, off: int) {
    exists k | 0 <= k < |m| :: m[k].resolved && IsDelim(m[k].ch) && m[k].beg <= off < m[k].end
  }

  /** The places between `off` and `end` that no resolved delimiter covers. */
  ghost function Kept(m: seq<Mark>, off: int, end: int): seq<int>
    decreases end - off
  {
    if off >= end then []
    else (if Covered(m, off) then [] else [off]) + Kept(m, off + 1, end)
  }

  const BREAK: int := -1

  /** What is to be shown from `off` in the first of `lines` on: the text without resolved delimiters, and the line breaks. */
  ghost function Rest(m: seq<Mark>, lines: seq<Line>, off: int): seq<int>
    requires lines != []
    decreases |lines|, 1
  {
    Kept(m, off, lines[0].end) + After(m, lines[1..])
  }

  /** What is to be shown after a line that `lines` follow. */
  ghost function After(m: seq<Mark>, lines: seq<Line>): seq<int>
    decreases |lines|, 2
  {
    if lines == [] then [] else [BREAK] + Rest(m, lines, lines[0].beg)
  }

  function Range(a: int, b: int): seq<int>
    decreases b - a
  {
    if a >= b then [] else [a] + Range(a + 1, b)
  }

  function Place(e: Event): seq<int> {
    match e
    case Text(a, b) => Range(a, b)
    case LineBreak => [BREAK]
    case _ => []
  }

  /** The places shown by the text events, and the line breaks. */
  function Shown(events: seq<Event>): seq<int> {
    if events == [] then [] else Place(events[0]) + Shown(events[1..])
  }

  lemma {:induction false} ShownConcat(a: seq<Event>, b: seq<Event>)
    ensures Shown(a + b) == Shown(a) + Shown(b)
    decreases |a|
  {
    if a == [] {
      assert a + b == b;
    } else {
      assert (a + b)[1..] == a[1..] + b && (a + b)[0] == a[0];
      ShownConcat(a[1..], b);
      Assoc(Place(a[0]), Shown(a[1..]), Shown(b));
    }
  }

  lemma {:induction false} ShownSilent(events: seq<Event>)
    requires forall i | 0 <= i < |events| :: events[i].Enter? || events[i].Leave?
    ensures Shown(events) == []
  {
    if events != [] {
      ShownSilent(events[1..]);
    }
  }

  lemma {:induction false} KeptPlain(m: seq<Mark>, off: int, tmp: int, end: int)
    requires off <= tmp <= end && forall x | off <= x < tmp :: !Covered(m, x)
    ensures Kept(m, off, end) == Range(off, tmp) + Kept(m, tmp, end)
    decreases tmp - off
  {
    if off < tmp {
      KeptPlain(m, off + 1, tmp, end);
    }
  }

  lemma {:induction false} KeptCovered(m: seq<Mark>, off: int, tmp: int, end: int)
    requires off <= tmp <= end && forall x | off <= x < tmp :: Covered(m, x)
    ensures Kept(m, off, end) == Kept(m, tmp, end)
    decreases tmp - off
  {
    if off < tmp {
      KeptCovered(m, off + 1, tmp, end);
    }
  }

  // ----- what that is, place by place -----

  /** The number of line breaks in `r`. */
  function Breaks(r: seq<int>): nat {
    multiset(r)[BREAK]
  }

  /** What `r` shows at `i` is in the line that as many line breaks are in front of, and no resolved delimiter covers it. */
  ghost predicate ShowsLine(m: seq<Mark>, lines: seq<Line>, r: seq<int>, i: int)
    requires 0 <= i < |r|
  {
    r[i] != BREAK ==>
      var l := Breaks(r[..i]);
      l < |lines| && lines[l].beg <= r[i] < lines[l].end && !Covered(m, r[i])
  }

  predicate Increasing(r: seq<int>, i: int, j: int)
    requires 0 <= i < |r| && 0 <= j < |r|
  {
    i < j && r[i] != BREAK && r[j] != BREAK ==> r[i] < r[j]
  }

  predicate ShowsIfPlain(m: seq<Mark>, r: seq<int>, x: int) {
    x in r || Covered(m, x)
  }

  /**
   * `r` shows every place of the lines that no resolved delimiter covers, in order and nothing else; a break ends each
   * line but the last.
   */
  ghost predicate ShowsLines(m: seq<Mark>, lines: seq<Line>, r: seq<int>) {
    && Breaks(r) == |lines| - 1
    && (forall i {:trigger ShowsLine(m, lines, r, i)} | 0 <= i < |r| :: ShowsLine(m, lines, r, i))
    && (forall i, j {:trigger Increasing(r, i, j)} | 0 <= i < |r| && 0 <= j < |r| :: Increasing(r, i, j))
    && (forall l, x {:trigger lines[l], ShowsIfPlain(m, r, x)} | 0 <= l < |lines| && lines[l].beg <= x < lines[l].end ::
          ShowsIfPlain(m, r, x))
  }

  /** What one line shows from `off` on. */
  ghost predicate ShowsPart(m: seq<Mark>, off: int, end: int, here: seq<int>) {
    && (forall i | 0 <= i < |here| :: off <= here[i] < end && !Covered(m, here[i]))
    && (forall i, j {:trigger Increasing(here, i, j)} | 0 <= i < |here| && 0 <= j < |here| :: Increasing(here, i, j))
    && (forall x | off <= x < end :: ShowsIfPlain(m, here, x))
  }

  lemma {:induction false} KeptShows(m: seq<Mark>, off: nat, end: nat)
    ensures ShowsPart(m, off, end, Kept(m, off, end))
    decreases end - off
  {
    if off < end {
      KeptShows(m, off + 1, end);
      var k, r := Kept(m, off, end), Kept(m, off + 1, end);
      forall i, j | 0 <= i < |k| && 0 <= j < |k| ensures Increasing(k, i, j) {
        var d := |k| - |r|;
        if d <= i < j {
          assert Increasing(r, i - d, j - d);
        }
      }
      forall x | off <= x < end ensures ShowsIfPlain(m, k, x) {
        assert x == off || ShowsIfPlain(m, r, x);
      }
    }
  }

  /** A line, a break and what the lines after it show. */
  lemma {:induction false} LineThenLines(m: seq<Mark>, lines: seq<Line>, here: seq<int>, rest: seq<int>)
    requires |lines| > 1 && Ordered(lines)
    requires ShowsPart(m, lines[0].beg, lines[0].end, here)
    requires ShowsLines(m, lines[1..], rest)
    ensures ShowsLines(m, lines, here + ([BREAK] + rest))
  {
    var r, tail, n := here + ([BREAK] + rest), lines[1..], |here| + 1;
    assert BREAK !in multiset(here);
    assert multiset(r) == multiset(here) + (multiset([BREAK]) + multiset(rest));
    forall i | 0 <= i < |r| ensures ShowsLine(m, lines, r, i) {
      LineOf(m, lines, here, rest, i);
    }
    forall i, j | 0 <= i < |r| && 0 <= j < |r| ensures Increasing(r, i, j) {
      if n <= i < j {
        assert Increasing(rest, i - n, j - n);
      } else if i < |here| && n <= j {
        assert ShowsLine(m, tail, rest, j - n);
      } else if i < j < |here| {
        assert Increasing(here, i, j);
      }
    }
    forall l, x | 0 <= l < |lines| && lines[l].beg <= x < lines[l].end ensures ShowsIfPlain(m, r, x) {
      if l == 0 {
        assert ShowsIfPlain(m, here, x);
      } else {
        assert tail[l - 1] == lines[l] && ShowsIfPlain(m, rest, x);
        if x in rest {
          assert x in [BREAK] + rest;
        }
      }
    }
  }

  lemma {:induction false} LineOf(m: seq<Mark>, lines: seq<Line>, here: seq<int>, rest: seq<int>, i: nat)
    requires |lines| > 1 && i < |here + ([BREAK] + rest)|
    requires forall i | 0 <= i < |here| :: lines[0].beg <= here[i] < lines[0].end && !Covered(m, here[i])
    requires ShowsLines(m, lines[1..], rest)
    ensures ShowsLine(m, lines, here + ([BREAK] + rest), i)
  {
    var r, n := here + ([BREAK] + rest), |here| + 1;
    if i < |here| {
      assert r[..i] == here[..i] && BREAK !in multiset(here[..i]);
    } else if i >= n {
      assert r[..i] == here + ([BREAK] + rest[..i - n]);
      assert BREAK !in multiset(here);
      assert ShowsLine(m, lines[1..], rest, i - n);
    }
  }

  /** What is to be shown is all the text of the lines without the resolved delimiters, in order, line by line. */
  lemma {:induction false} RestShowsLines(m: seq<Mark>, lines: seq<Line>)
    requires Ordered(lines)
    ensures ShowsLines(m, lines, Rest(m, lines, lines[0].beg))
    decreases |lines|
  {
    var here := Kept(m, lines[0].beg, lines[0].end);
    KeptShows(m, lines[0].beg, lines[0].end);
    if |lines| == 1 {
      assert lines[1..] == [] && Rest(m, lines, lines[0].beg) == here;
      OneLine(m, lines, here);
    } else {
      RestShowsLines(m, lines[1..]);
      LineThenLines(m, lines, here, Rest(m, lines[1..], lines[1].beg));
    }
  }

  lemma {:induction false} OneLine(m: seq<Mark>, lines: seq<Line>, here: seq<int>)
    requires |lines| == 1
    requires ShowsPart(m, lines[0].beg, lines[0].end, here)
    ensures ShowsLines(m, lines, here)
  {
    assert BREAK !in multiset(here);
    forall i | 0 <= i < |here| ensures ShowsLine(m, lines, here, i) {
      assert BREAK !in multiset(here[..i]);
    }
  }

  // ----- where the renderer is -----

  /** Lines are apart, and no resolved delimiter reaches across a line end or past the last line. */
  ghost predicate Lined(m: seq<Mark>, lines: seq<Line>) {
    && |lines| > 0 && |m| > 0
    && (forall j | 0 <= j < |lines| :: lines[j].beg <= lines[j].end)
    && (forall i, j | 0 <= i < j < |lines| :: lines[i].end < lines[j].beg)
    && (forall k | 0 <= k < |m| && IsDelim(m[k].ch) && m[k].resolved :: InLine(m[k], lines))
    && lines[|lines| - 1].end <= m[|m| - 1].beg
  }

  ghost predicate InLine(x: Mark, lines: seq<Line>) {
    exists j | 0 <= j < |lines| :: lines[j].beg <= x.beg && x.end <= lines[j].end
  }

  /** Nothing is covered between `off`, which is past the marks before `k`, and the resolved mark `k`. */
  lemma {:induction false} PlainUpTo(m: seq<Mark>, k: nat, off: int, x: int)
    requires Layout(m) && k < |m| && off <= x < m[k].beg
    requires forall j | 0 <= j < k && m[j].resolved && IsDelim(m[j].ch) :: m[j].end <= off
    ensures !Covered(m, x)
  {
    forall j | 0 <= j < |m| && m[j].resolved && IsDelim(m[j].ch) ensures !(m[j].beg <= x < m[j].end) {
      if j > k {
        assert Before(m, k, j);
      }
    }
  }

  /** A mark that is due begins in the line that is being shown, and ends there. */
  lemma {:induction false} DueHere(m: seq<Mark>, lines: seq<Line>, k: nat, li: nat)
    requires Lined(m, lines) && k < |m| && li < |lines| && m[k].resolved && IsDelim(m[k].ch) && m[k].beg < m[k].end
    requires lines[li].beg <= m[k].beg <= lines[li].end
    ensures m[k].end <= lines[li].end
  {
    assert InLine(m[k], lines);
    var j :| 0 <= j < |lines| && lines[j].beg <= m[k].beg && m[k].end <= lines[j].end;
    var here := lines[li];
    assert forall i | 0 <= i < li :: lines[i].end < here.beg;
    assert forall i | li < i < |lines| :: here.end < lines[i].beg;
  }

  // ----- md_process_inlines -----

  /** The resolved delimiters before mark `k` end before `off`, and those from `k` on begin there or later. */
  ghost predicate Between(m: seq<Mark>, off: int, k: int)
    requires 0 <= k <= |m|
  {
    && (forall j | k <= j < |m| && m[j].resolved :: off <= m[j].beg)
    && (forall j | 0 <= j < k && m[j].resolved && IsDelim(m[j].ch) :: m[j].end <= off)
  }

  lemma {:induction false} PassText(m: seq<Mark>, off: int, k: nat, tmp: int)
    requires Layout(m) && k < |m| && Between(m, off, k) && off <= tmp <= m[k].beg
    ensures Between(m, tmp, k)
  {
    forall j | k <= j < |m| ensures tmp <= m[j].beg {
      assert j > k ==> Before(m, k, j);
    }
  }

  lemma {:induction false} PassMark(m: seq<Mark>, k: nat)
    requires Layout(m) && PairsOk(m, |m|) && k < |m| && IsDelim(m[k].ch) && Between(m, m[k].beg, k) && m[k].beg <= m[k].end
    ensures k + 1 < |m| && Between(m, m[k].end, k + 1)
  {
    NextRoom(m, k);
  }

  /**
   * Everything before `off` in line `li` has been dealt with and mark `k` comes next: what has been emitted and
   * what remains make up the whole, and the spans that are open are those around mark `k`.
   */
  ghost predicate At(m: seq<Mark>, lines: seq<Line>, underline: bool, out: seq<Event>, li: int, off: int, k: int,
                     whole: seq<int>) {
    && 0 <= li < |lines| && lines[li].beg <= off <= lines[li].end && 0 <= k < |m|
    && Between(m, off, k)
    && Nest([], out) == Some(Open(m, underline, k, k)) && Told(m, underline, out, k)
    && Shown(out) + Rest(m, lines[li..], off) == whole
  }

  /** Text, up to the next resolved mark or the end of the line. */
  lemma {:induction false} TextStep(m: seq<Mark>, lines: seq<Line>, underline: bool, out: seq<Event>, li: int, off: int, k: int, tmp: int, whole: seq<int>)
    requires Layout(m) && PairsOk(m, |m|) && At(m, lines, underline, out, li, off, k, whole) && 0 <= off < tmp
    requires tmp <= m[k].beg && tmp <= lines[li].end
    ensures At(m, lines, underline, out + [Text(off, tmp)], li, tmp, k, whole)
  {
    TextShown(m, lines[li..], out, off, k, tmp);
    NestConcat([], out, [Text(off, tmp)]);
    TextTold(m, underline, out, k, off, tmp);
    PassText(m, off, k, tmp);
  }

  lemma {:induction false} TextShown(m: seq<Mark>, lines: seq<Line>, out: seq<Event>, off: nat, k: nat, tmp: int)
    requires Layout(m) && lines != [] && k < |m| && off < tmp <= m[k].beg && tmp <= lines[0].end
    requires forall j | 0 <= j < k && m[j].resolved && IsDelim(m[j].ch) :: m[j].end <= off
    ensures Shown(out + [Text(off, tmp)]) + Rest(m, lines, tmp) == Shown(out) + Rest(m, lines, off)
  {
    forall x | off <= x < tmp ensures !Covered(m, x) {
      PlainUpTo(m, k, off, x);
    }
    KeptPlain(m, off, tmp, lines[0].end);
    ShownConcat(out, [Text(off, tmp)]);
    ShownOne(Text(off, tmp));
    Regroup(Shown(out), Range(off, tmp), Kept(m, tmp, lines[0].end), After(m, lines[1..]));
  }

  lemma {:induction false} Regroup(a: seq<int>, b: seq<int>, c: seq<int>, d: seq<int>)
    ensures (a + b) + (c + d) == a + ((b + c) + d)
  {
  }

  /** A mark that is due: it is shown as spans, and its characters are not shown. */
  lemma {:induction false} MarkStep(m: seq<Mark>, lines: seq<Line>, underline: bool, out: seq<Event>, li: int, k: nat, events: seq<Event>, whole: seq<int>)
    requires Layout(m) && PairsOk(m, |m|) && Lined(m, lines) && k < |m| && At(m, lines, underline, out, li, m[k].beg, k, whole)
    requires m[k].resolved && IsDelim(m[k].ch) && m[k].beg < m[k].end
    requires events == if m[k].opener then Enters(Spans(m[k], underline)) else Leaves(Spans(m[k], underline))
    ensures k + 1 < |m| && At(m, lines, underline, out + events, li, m[k].end, k + 1, whole)
  {
    PassMark(m, k);
    DueHere(m, lines, k, li);
    MarkNests(m, underline, out, k, events);
    MarkTold(m, underline, out, k, events);
    MarkShown(m, lines[li..], out, k, events);
  }

  lemma {:induction false} MarkShown(m: seq<Mark>, lines: seq<Line>, out: seq<Event>, k: nat, events: seq<Event>)
    requires k < |m| && lines != [] && m[k].resolved && IsDelim(m[k].ch) && m[k].beg <= m[k].end <= lines[0].end
    requires forall i | 0 <= i < |events| :: events[i].Enter? || events[i].Leave?
    ensures Shown(out + events) + Rest(m, lines, m[k].end) == Shown(out) + Rest(m, lines, m[k].beg)
  {
    forall x | m[k].beg <= x < m[k].end ensures Covered(m, x) {
    }
    KeptCovered(m, m[k].beg, m[k].end, lines[0].end);
    ShownConcat(out, events);
    ShownSilent(events);
  }

  lemma {:induction false} NextRoom(m: seq<Mark>, k: nat)
    requires Layout(m) && PairsOk(m, |m|) && k < |m| && IsDelim(m[k].ch)
    ensures k + 1 < |m|
    ensures forall j | k < j < |m| && m[j].resolved :: m[k].end <= m[j].beg
  {
    assert Room(m, k);
    forall j | k < j < |m| && m[j].resolved ensures m[k].end <= m[j].beg {
      ResolvedIsReal(m, j);
    }
  }

  lemma {:induction false} MarkNests(m: seq<Mark>, underline: bool, out: seq<Event>, k: nat, events: seq<Event>)
    requires PairsOk(m, |m|) && k < |m| - 1 && m[k].resolved && m[k].beg < m[k].end
    requires Nest([], out) == Some(Open(m, underline, k, k))
    requires events == if m[k].opener then Enters(Spans(m[k], underline)) else Leaves(Spans(m[k], underline))
    ensures Nest([], out + events) == Some(Open(m, underline, k + 1, k + 1))
  {
    NestConcat([], out, events);
    if m[k].opener {
      OpenAtOpener(m, underline, k);
      NestEnters(Open(m, underline, k, k), Spans(m[k], underline));
    } else {
      OpenAtCloser(m, underline, k);
      NestLeaves(Open(m, underline, k + 1, k + 1), Spans(m[k], underline));
    }
  }

  /** A mark without effect is passed by. */
  lemma {:induction false} SkipStep(m: seq<Mark>, lines: seq<Line>, underline: bool, out: seq<Event>, li: int, off: int, k: int, whole: seq<int>)
    requires PairsOk(m, |m|) && At(m, lines, underline, out, li, off, k, whole) && !m[k].resolved && k + 1 < |m|
    ensures At(m, lines, underline, out, li, off, k + 1, whole)
  {
    OpenSkip(m, underline, k);
    NoMoreTags(m, underline, k, k + 1);
  }

  /** The end of a line that is not the last. */
  lemma {:induction false} LineStep(m: seq<Mark>, lines: seq<Line>, underline: bool, out: seq<Event>, li: int, k: int, whole: seq<int>)
    requires 0 <= li && li + 1 < |lines| && At(m, lines, underline, out, li, lines[li].end, k, whole)
    requires forall j | k <= j < |m| && m[j].resolved :: lines[li + 1].beg <= m[j].beg
    requires forall i | 0 <= i < |lines| :: lines[i].beg <= lines[i].end
    requires lines[li].end <= lines[li + 1].beg
    ensures At(m, lines, underline, out + [LineBreak], li + 1, lines[li + 1].beg, k, whole)
  {
    LineShown(m, lines[li..], out);
    assert lines[li..][1..] == lines[li + 1..];
    NestConcat([], out, [LineBreak]);
    BreakTold(m, underline, out, k);
  }

  lemma {:induction false} LineShown(m: seq<Mark>, lines: seq<Line>, out: seq<Event>)
    requires |lines| > 1
    ensures Shown(out + [LineBreak]) + Rest(m, lines[1..], lines[1].beg) == Shown(out) + Rest(m, lines, lines[0].end)
  {
    ShownConcat(out, [LineBreak]);
    ShownOne(LineBreak);
    NothingLeft(m, lines);
    Assoc(Shown(out), [BREAK], Rest(m, lines[1..], lines[1].beg));
  }

  lemma {:induction false} ShownOne(e: Event)
    ensures Shown([e]) == Place(e)
  {
    assert [e][1..] == [];
  }

  lemma {:induction false} NothingLeft(m: seq<Mark>, lines: seq<Line>)
    requires lines != []
    ensures Rest(m, lines, lines[0].end) == After(m, lines[1..])
  {
    assert Kept(m, lines[0].end, lines[0].end) == [];
    assert [] + After(m, lines[1..]) == After(m, lines[1..]);
  }

  lemma {:induction false} ResolvedIsReal(m: seq<Mark>, k: nat)
    requires Layout(m) && PairsOk(m, |m|) && k < |m| && m[k].resolved
    ensures m[k].ch != DUMMY && (k == |m| - 1 || IsDelim(m[k].ch))
  {
    assert m[k].opener ==> OpenerOk(m, |m|, k);
    assert m[k].closer ==> CloserOk(m, |m|, k);
  }

  /** The next resolved mark. */
  method Seek(m: seq<Mark>, ghost lines: seq<Line>, ghost underline: bool, ghost out: seq<Event>, ghost li: int,
              off: int, from: nat, ghost whole: seq<int>)
    returns (k: nat)
    requires Layout(m) && PairsOk(m, |m|) && At(m, lines, underline, out, li, off, from, whole)
    ensures At(m, lines, underline, out, li, off, k, whole) && m[k].resolved && from <= k
  {
    k := from;
    while !m[k].resolved || m[k].beg < off
      invariant from <= k < |m| && At(m, lines, underline, out, li, off, k, whole)
      decreases |m| - k
    {
      assert !m[k].resolved;
      SkipStep(m, lines, underline, out, li, off, k, whole);
      k := k + 1;
    }
  }

  /** What is resolved and not shown yet when a line has been shown is in the lines after it. */
  lemma {:induction false} NextLine(m: seq<Mark>, lines: seq<Line>, li: nat, j: nat)
    requires Layout(m) && PairsOk(m, |m|) && Lined(m, lines) && li + 1 < |lines| && j < |m| && m[j].resolved
    requires lines[li].end <= m[j].beg
    ensures lines[li + 1].beg <= m[j].beg
  {
    if j < |m| - 1 {
      ResolvedIsReal(m, j);
      assert Room(m, j) && InLine(m[j], lines);
      var i :| 0 <= i < |lines| && lines[i].beg <= m[j].beg && m[j].end <= lines[i].end;
      var here, next := lines[li], lines[li + 1];
      assert forall x | 0 <= x < li :: lines[x].end < here.beg;
      assert forall x | li + 1 < x < |lines| :: next.end < lines[x].beg;
    } else {
      assert li + 1 < |lines| - 1 ==> lines[li + 1].end < lines[|lines| - 1].beg;
    }
  }

  /** Every resolved mark begins in the lines. */
  lemma {:induction false} Beginning(m: seq<Mark>, lines: seq<Line>, underline: bool)
    requires Layout(m) && PairsOk(m, |m|) && Lined(m, lines)
    ensures At(m, lines, underline, [], 0, lines[0].beg, 0, Rest(m, lines, lines[0].beg))
  {
    assert lines[0..] == lines;
    assert [] + Rest(m, lines, lines[0].beg) == Rest(m, lines, lines[0].beg);
    forall j | 0 <= j < |m| && m[j].resolved ensures lines[0].beg <= m[j].beg {
      if j < |m| - 1 {
        ResolvedIsReal(m, j);
        assert InLine(m[j], lines);
        var i :| 0 <= i < |lines| && lines[i].beg <= m[j].beg && m[j].end <= lines[i].end;
        assert i > 0 ==> lines[0].end < lines[i].beg;
      } else {
        assert |lines| > 1 ==> lines[0].end < lines[|lines| - 1].beg;
      }
    }
  }

  /** At the end of the last line everything has been shown and every span has been left. */
  lemma {:induction false} Ending(m: seq<Mark>, lines: seq<Line>, underline: bool, out: seq<Event>, k: nat, whole: seq<int>)
    requires Layout(m) && PairsOk(m, |m|) && Lined(m, lines)
    requires At(m, lines, underline, out, |lines| - 1, lines[|lines| - 1].end, k, whole)
    ensures Nest([], out) == Some([]) && Shown(out) == whole && Told(m, underline, out, |m|)
  {
    var last := lines[|lines| - 1];
    forall o | 0 <= o < k && m[o].opener ensures m[o].next < k {
      assert OpenerOk(m, |m|, o) && CloserOk(m, |m|, m[o].next);
      InLast(m, lines, m[o].next);
    }
    OpenNone(m, underline, k, 0, k);
    forall j | k <= j < |m| ensures !m[j].opener && !m[j].closer {
      if m[j].resolved && IsDelim(m[j].ch) {
        InLast(m, lines, j);
      }
      assert m[j].opener ==> OpenerOk(m, |m|, j);
      assert m[j].closer ==> CloserOk(m, |m|, j);
    }
    NoMoreTags(m, underline, k, |m|);
    assert lines[|lines| - 1..] == [last];
    NothingLeft(m, [last]);
    assert After(m, [last][1..]) == [];
  }

  lemma {:induction false} InLast(m: seq<Mark>, lines: seq<Line>, j: nat)
    requires Layout(m) && Lined(m, lines) && j < |m| && m[j].resolved && IsDelim(m[j].ch)
    ensures m[j].beg < lines[|lines| - 1].end
  {
    assert Room(m, j) && InLine(m[j], lines);
    var i :| 0 <= i < |lines| && lines[i].beg <= m[j].beg && m[j].end <= lines[i].end;
    assert i < |lines| - 1 ==> lines[i].end < lines[|lines| - 1].beg;
  }

  /**
   * md_process_inlines: the spans are entered and left in a well-nested way, those of each pair once and no others;
   * the text is the source without the resolved delimiters, and is inside the spans of the pairs around it.
   */
  method ProcessInlines(m: seq<Mark>, lines: seq<Line>, underline: bool) returns (out: seq<Event>)
    requires Layout(m) && PairsOk(m, |m|) && Lined(m, lines)
    ensures Nest([], out) == Some([])
    ensures Tags(out) == MarkTags(m, underline, |m|) && AllInPlace(m, underline, out)
    ensures exists at :: Tells(m, underline, Tags(out), |m|, at)
    ensures Shown(out) == Rest(m, lines, lines[0].beg) && ShowsLines(m, lines, Shown(out))
  {
    out := [];
    var li, off := 0, lines[0].beg;
    Beginning(m, lines, underline);
    ghost var whole := Rest(m, lines, lines[0].beg);
    var k := Seek(m, lines, underline, out, li, off, 0, whole);
    var done := false;
    while !done
      invariant At(m, lines, underline, out, li, off, k, whole) && m[k].resolved
      invariant done ==> AtEnd(m, lines, off, k)
      decreases !done, |lines| - li, |m| - k
    {
      out, li, off, k, done := Advance(m, lines, underline, out, li, off, k, whole);
    }
    LastLine(m, lines, li, off, k);
    Ending(m, lines, underline, out, k, whole);
    ghost var at := TagsTell(m, underline, |m|);
    RestShowsLines(m, lines);
  }

  /** One round of the loop: what comes next in the line, and the line break if that was the rest of it. */
  method Advance(m: seq<Mark>, lines: seq<Line>, underline: bool, out: seq<Event>, li: nat, off: nat, k: nat, ghost whole: seq<int>)
    returns (more: seq<Event>, line: nat, now: nat, next: nat, done: bool)
    requires Layout(m) && PairsOk(m, |m|) && Lined(m, lines)
    requires At(m, lines, underline, out, li, off, k, whole) && m[k].resolved
    ensures At(m, lines, underline, more, line, now, next, whole) && m[next].resolved
    ensures done ==> AtEnd(m, lines, now, next)
    ensures line > li || (line == li && next > k) || (line == li && next == k && done)
  {
    more, now, next, done := ShowNext(m, lines, underline, out, li, off, k, whole);
    line := li;
    if !done && now >= lines[li].end {
      if now >= lines[|lines| - 1].end {
        done := true;
      } else {
        more, line, now := NewLine(m, lines, underline, more, li, next, whole);
      }
    }
  }

  ghost predicate AtEnd(m: seq<Mark>, lines: seq<Line>, off: int, k: int)
    requires |lines| > 0 && 0 <= k < |m|
  {
    off >= lines[|lines| - 1].end || (k == |m| - 1 && off >= m[k].beg)
  }

  /** Text up to the next mark or the end of the line, and the mark if it has been reached; the last one ends it all. */
  method ShowNext(m: seq<Mark>, lines: seq<Line>, underline: bool, out: seq<Event>, li: nat, off: nat, k: nat, ghost whole: seq<int>)
    returns (more: seq<Event>, now: nat, next: nat, done: bool)
    requires Layout(m) && PairsOk(m, |m|) && Lined(m, lines)
    requires At(m, lines, underline, out, li, off, k, whole) && m[k].resolved
    ensures At(m, lines, underline, more, li, now, next, whole) && m[next].resolved && next >= k
    ensures done ==> AtEnd(m, lines, now, next)
    ensures !done && next == k ==> now == lines[li].end
  {
    more, now := ShowText(m, lines, underline, out, li, off, k, whole);
    next, done := k, false;
    if now >= m[k].beg {
      ResolvedIsReal(m, k);
      if m[k].ch == SENTINEL {
        return more, now, k, true;
      }
      more, now, next := ShowMark(m, lines, underline, more, li, k, whole);
    }
  }

  /** A line break, and the beginning of the next line. */
  method NewLine(m: seq<Mark>, lines: seq<Line>, ghost underline: bool, out: seq<Event>, li: nat, ghost k: nat, ghost whole: seq<int>)
    returns (more: seq<Event>, next: nat, off: nat)
    requires Layout(m) && PairsOk(m, |m|) && Lined(m, lines) && li < |lines|
    requires At(m, lines, underline, out, li, lines[li].end, k, whole) && lines[li].end < lines[|lines| - 1].end
    ensures next == li + 1 < |lines| && At(m, lines, underline, more, next, off, k, whole)
  {
    NextLines(m, lines, li, k);
    LineStep(m, lines, underline, out, li, k, whole);
    more, next, off := out + [LineBreak], li + 1, lines[li + 1].beg;
  }

  lemma {:induction false} NextLines(m: seq<Mark>, lines: seq<Line>, li: nat, k: nat)
    requires Layout(m) && PairsOk(m, |m|) && Lined(m, lines) && li < |lines| && lines[li].end < lines[|lines| - 1].end
    requires forall j | k <= j < |m| && m[j].resolved :: lines[li].end <= m[j].beg
    ensures li + 1 < |lines| && lines[li].end <= lines[li + 1].beg
    ensures forall j | k <= j < |m| && m[j].resolved :: lines[li + 1].beg <= m[j].beg
  {
    forall j | k <= j < |m| && m[j].resolved ensures lines[li + 1].beg <= m[j].beg {
      NextLine(m, lines, li, j);
    }
  }

  lemma {:induction false} LastLine(m: seq<Mark>, lines: seq<Line>, li: nat, off: int, k: nat)
    requires Lined(m, lines) && li < |lines| && off <= lines[li].end && k < |m|
    requires AtEnd(m, lines, off, k)
    ensures li == |lines| - 1 && off == lines[li].end
  {
    var last := lines[|lines| - 1];
    assert forall x | 0 <= x < |lines| - 1 :: lines[x].end < last.beg;
  }

  /** The text up to the next mark or the end of the line. */
  method ShowText(m: seq<Mark>, lines: seq<Line>, ghost underline: bool, out: seq<Event>, li: nat, off: nat, k: nat, ghost whole: seq<int>)
    returns (more: seq<Event>, tmp: nat)
    requires Layout(m) && PairsOk(m, |m|) && At(m, lines, underline, out, li, off, k, whole) && m[k].resolved
    ensures At(m, lines, underline, more, li, tmp, k, whole)
    ensures tmp == if lines[li].end < m[k].beg then lines[li].end else m[k].beg
  {
    more, tmp := out, if lines[li].end < m[k].beg then lines[li].end else m[k].beg;
    if tmp > off {
      TextStep(m, lines, underline, out, li, off, k, tmp, whole);
      more := out + [Text(off, tmp)];
    }
  }

  /** The events of one mark, and the mark that comes next. */
  method ShowMark(m: seq<Mark>, lines: seq<Line>, underline: bool, out: seq<Event>, ghost li: int, k: nat, ghost whole: seq<int>)
    returns (more: seq<Event>, off: nat, next: nat)
    requires Layout(m) && PairsOk(m, |m|) && Lined(m, lines) && k < |m| && At(m, lines, underline, out, li, m[k].beg, k, whole)
    requires m[k].resolved && IsDelim(m[k].ch)
    ensures At(m, lines, underline, more, li, off, next, whole) && m[next].resolved && next > k
  {
    assert Room(m, k);
    var events: seq<Event>;
    if m[k].opener {
      events := EnterSpans(m[k], underline);
    } else {
      events := LeaveSpans(m[k], underline);
    }
    MarkStep(m, lines, underline, out, li, k, events, whole);
    more, off := out + events, m[k].end;
    next := Seek(m, lines, underline, more, li, off, k + 1, whole);
  }
}
