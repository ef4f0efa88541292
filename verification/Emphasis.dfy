/**
 * Emphasis and strikethrough: the stacks of openers that stand in for looking back, and the proof that they
 * give the same pairs.
 */
module Emphasis {
  import opened Marks
  import opened MarkLaws

  /** md_emph_stack: the stack of the openers of one character, opener-only or mixed, of one length modulo 3. */
  function EmphStack(ch: char, oc: bool, mod3: nat): nat {
    (if ch == '*' then 0 else 6) + (if oc then 3 else 0) + mod3
  }

  /** md_opener_stack */
  function StackOf(x: Mark): nat {
    if x.ch == '~' then (if x.Len() == 1 then 12 else 13) else EmphStack(x.ch, x.oc, x.mod3)
  }

  const STACKS: nat := 16

  // ----- what the stacks hold -----

  /** `r` is the last live opener before `b` that belongs on stack `s`, or -1. */
  ghost predicate Nearest(m: seq<Mark>, b: int, s: nat, r: int) {
    && (r == -1 || (Live(m, b, r) && StackOf(m[r]) == s))
    && forall k | Live(m, b, k) && StackOf(m[k]) == s :: k <= r
  }

  /** Below a live opener on its stack is the last live one before it. */
  ghost predicate Linked(m: seq<Mark>, k: int)
    requires 0 <= k < |m|
  {
    Nearest(m, k, StackOf(m[k]), m[k].next)
  }

  ghost predicate AllLinked(m: seq<Mark>, i: int) {
    forall k {:trigger Linked(m, k)} | 0 <= k < |m| && Live(m, i, k) :: Linked(m, k)
  }

  ghost predicate Tops(m: seq<Mark>, tops: seq<int>, i: int) {
    |tops| == STACKS && forall s {:trigger tops[s]} | 0 <= s < STACKS :: Nearest(m, i, s, tops[s])
  }

  ghost predicate Stacks(m: seq<Mark>, tops: seq<int>, i: int) {
    Tops(m, tops, i) && AllLinked(m, i)
  }

  // ----- how they follow the marks -----

  /** As far as the stacks are concerned, `r` is `m` up to `i`. */
  ghost predicate Alike(m: seq<Mark>, r: seq<Mark>, i: int) {
    && |m| == |r|
    && (forall k | 0 <= k < i && k < |m| ::
          && r[k].ch == m[k].ch && r[k].resolved == m[k].resolved && r[k].canOpen == m[k].canOpen
          && (IsDelim(m[k].ch) ==> StackOf(r[k]) == StackOf(m[k])))
    && forall k | 0 <= k < i :: Enclosed(r, k) <==> Enclosed(m, k)
  }

  lemma {:induction false} AlikeNearest(m: seq<Mark>, r: seq<Mark>, i: int, b: int, s: nat, x: int)
    requires Alike(m, r, i) && b <= i && Nearest(m, b, s, x)
    ensures Nearest(r, b, s, x)
  {
    assert forall k | 0 <= k < i && k < |m| :: Live(r, b, k) <==> Live(m, b, k);
  }

  lemma {:induction false} AlikeStacks(m: seq<Mark>, r: seq<Mark>, tops: seq<int>, i: int)
    requires Alike(m, r, i) && Stacks(m, tops, i)
    requires forall k | 0 <= k < |m| && Live(m, i, k) :: r[k].next == m[k].next
    ensures Stacks(r, tops, i)
  {
    forall s | 0 <= s < STACKS ensures Nearest(r, i, s, tops[s]) {
      AlikeNearest(m, r, i, i, s, tops[s]);
    }
    forall k | 0 <= k < |r| && Live(r, i, k) ensures Linked(r, k) {
      assert Live(m, i, k) && Linked(m, k);
      AlikeNearest(m, r, i, k, StackOf(m[k]), m[k].next);
    }
  }

  /** One more mark: it is pushed or it is not live. */
  lemma {:induction false} PassBy(m: seq<Mark>, tops: seq<int>, i: nat)
    requires Stacks(m, tops, i) && !Live(m, i + 1, i)
    ensures Stacks(m, tops, i + 1)
  {
    forall s | 0 <= s < STACKS ensures Nearest(m, i + 1, s, tops[s]) {
      assert Nearest(m, i, s, tops[s]);
      assert forall k :: Live(m, i + 1, k) ==> Live(m, i, k) || k == i;
    }
    forall k | 0 <= k < |m| && Live(m, i + 1, k) ensures Linked(m, k) {
      assert Live(m, i, k);
    }
  }

  /** The link of a free mark is used by its stack alone. */
  function Relink(m: seq<Mark>, k: nat, next: int): seq<Mark>
    requires k < |m|
  {
    m[k := m[k].(next := next)]
  }

  lemma {:induction false} RelinkLayout(m: seq<Mark>, k: nat, next: int)
    requires k < |m| && Layout(m)
    ensures Layout(Relink(m, k, next))
  {
    StillLaidOut(m, Relink(m, k, next));
  }

  lemma {:induction false} RelinkPairs(m: seq<Mark>, k: nat, next: int, i: int)
    requires k < |m| && !m[k].resolved && PairsOk(m, i)
    ensures PairsOk(Relink(m, k, next), i)
    ensures forall j :: Enclosed(Relink(m, k, next), j) <==> Enclosed(m, j)
  {
    var r := Relink(m, k, next);
    SameOpeners(m, r);
    forall o | 0 <= o < |r| && r[o].opener ensures OpenerOk(r, i, o) {
      assert OpenerOk(m, i, o);
    }
    forall c | 0 <= c < |r| && r[c].closer ensures CloserOk(r, i, c) {
      assert CloserOk(m, i, c);
    }
    forall a, b | 0 <= a < b < |r| && r[a].opener && r[b].opener ensures Apart(r, a, b) {
      assert Apart(m, a, b);
    }
  }

  /** md_mark_stack_push of the mark that was just looked at. */
  lemma {:induction false} PushStacks(m: seq<Mark>, tops: seq<int>, i: nat)
    requires Stacks(m, tops, i) && PairsOk(m, i) && i < |m| && IsDelim(m[i].ch)
    requires !m[i].resolved && m[i].canOpen
    ensures Stacks(Relink(m, i, tops[StackOf(m[i])]), tops[StackOf(m[i]) := i], i + 1)
  {
    var s := StackOf(m[i]);
    var r := Relink(m, i, tops[s]);
    RelinkPairs(m, i, tops[s], i);
    AlikeStacks(m, r, tops, i);
    NotEnclosed(r, i);
    Pushed(r, tops, i);
  }

  lemma {:induction false} NotEnclosed(m: seq<Mark>, i: nat)
    requires PairsOk(m, i)
    ensures !Enclosed(m, i)
  {
    forall o | 0 <= o < |m| && o < i && m[o].opener ensures m[o].next <= i {
      assert OpenerOk(m, i, o);
    }
  }

  lemma {:induction false} Pushed(r: seq<Mark>, tops: seq<int>, i: nat)
    requires Stacks(r, tops, i) && Live(r, i + 1, i) && StackOf(r[i]) < STACKS && r[i].next == tops[StackOf(r[i])]
    ensures Stacks(r, tops[StackOf(r[i]) := i], i + 1)
  {
    var s := StackOf(r[i]);
    var now := tops[s := i];
    assert forall k :: Live(r, i + 1, k) ==> Live(r, i, k) || k == i;
    forall t | 0 <= t < STACKS ensures Nearest(r, i + 1, t, now[t]) {
      assert Nearest(r, i, t, tops[t]);
    }
    forall k | 0 <= k < |r| && Live(r, i + 1, k) ensures Linked(r, k) {
      if k == i {
        assert Nearest(r, i, s, tops[s]);
      } else {
        assert Live(r, i, k) && Linked(r, k);
      }
    }
  }

  /** The marks after the inner end of the opener on top of its stack has been split off and pushed. */
  ghost predicate SplitOff(m: seq<Mark>, r: seq<Mark>, i: nat, o: nat, at: nat) {
    && |r| == |m| && o < at < i && at < |m|
    && (forall j :: Live(r, i, j) <==> Live(m, i, j) || j == at)
    && StackOf(r[at]) == StackOf(m[o]) && r[at].next == o
    && (forall j | 0 <= j < |m| && Live(m, i, j) :: StackOf(r[j]) == StackOf(m[j]) && r[j].next == m[j].next)
    && !Live(m, i, at)
  }

  lemma {:induction false} SplitOffOk(m: seq<Mark>, i: nat, o: nat, n: nat)
    requires Layout(m) && PairsOk(m, i) && Live(m, i, o) && IsEmph(m[o].ch)
    requires 0 < n < m[o].Len() && o + m[o].Len() <= i
    ensures o + m[o].Len() - n < |m|
    ensures
      var at := o + m[o].Len() - n;
      SplitOff(m, Relink(Split(m, o, n), at, o), i, o, at)
  {
    SplitLive(m, i, o, n);
    var q, at := Split(m, o, n), o + m[o].Len() - n;
    SplitLayout(m, o, n);
    SplitPairs(m, o, n, i);
    RelinkLive(q, at, o, i);
    assert !Live(m, i, at);
    assert q[at] == m[o].(beg := m[o].end - n) && forall j | 0 <= j < |m| && j != at && j != o :: q[j] == m[j];
  }

  lemma {:induction false} RelinkLive(m: seq<Mark>, k: nat, next: int, i: int)
    requires k < |m| && !m[k].resolved && PairsOk(m, i)
    ensures forall j :: Live(Relink(m, k, next), i, j) <==> Live(m, i, j)
  {
    RelinkPairs(m, k, next, i);
  }

  lemma {:induction false} SplitStacks(m: seq<Mark>, tops: seq<int>, r: seq<Mark>, i: nat, o: nat, at: nat)
    requires Stacks(m, tops, i) && Live(m, i, o) && SplitOff(m, r, i, o, at)
    requires StackOf(m[o]) < STACKS && tops[StackOf(m[o])] == o
    ensures Stacks(r, tops[StackOf(m[o]) := at], i)
  {
    var s := StackOf(m[o]);
    var now := tops[s := at];
    assert Nearest(m, i, s, tops[s]);
    forall t | 0 <= t < STACKS ensures Nearest(r, i, t, now[t]) {
      assert Nearest(m, i, t, tops[t]);
    }
    forall k | 0 <= k < |r| && Live(r, i, k) ensures Linked(r, k) {
      if k != at {
        assert Linked(m, k);
      }
      SplitLinked(m, r, i, o, at, k);
    }
  }

  lemma {:induction false} SplitLinked(m: seq<Mark>, r: seq<Mark>, i: nat, o: nat, at: nat, k: nat)
    requires Live(m, i, o) && SplitOff(m, r, i, o, at) && k < |m| && (k == at || (Live(m, i, k) && Linked(m, k)))
    requires Nearest(m, i, StackOf(m[o]), o)
    ensures Linked(r, k)
  {
    assert forall j :: Live(r, k, j) <==> Live(r, i, j) && j < k;
    assert forall j :: Live(m, k, j) <==> Live(m, i, j) && j < k;
  }

  /** The stacks after everything from `o` on has been dropped from them. */
  lemma {:induction false} PairStacks(m: seq<Mark>, tops: seq<int>, o: nat, i: nat)
    requires PairsOk(m, i) && o < i < |m| && !m[o].resolved && !m[i].resolved
    requires Tops(m, tops, o) && AllLinked(m, i)
    ensures Stacks(Pair(m, o, i), tops, i + 1)
  {
    var r := Pair(m, o, i);
    PairEncloses(m, o, i);
    assert forall k :: Live(r, i + 1, k) <==> Live(m, o, k);
    assert Alike(m, r, o);
    forall s | 0 <= s < STACKS ensures Nearest(r, i + 1, s, tops[s]) {
      AlikeNearest(m, r, o, o, s, tops[s]);
    }
    forall k | 0 <= k < |r| && Live(r, i + 1, k) ensures Linked(r, k) {
      assert Live(m, o, k) && Live(m, i, k) && Linked(m, k);
      AlikeNearest(m, r, o, k, StackOf(m[k]), m[k].next);
    }
  }

  lemma {:induction false} PairEncloses(m: seq<Mark>, o: nat, i: nat)
    requires o < i < |m| && !m[o].opener && !m[i].opener
    ensures forall k :: Enclosed(Pair(m, o, i), k) <==> Enclosed(m, k) || o < k < i
  {
    var r := Pair(m, o, i);
    forall k ensures Enclosed(r, k) <==> Enclosed(m, k) || o < k < i {
      if o < k < i {
        assert r[o].opener && r[o].next == i;
      }
      assert forall a | 0 <= a < |m| && a != o && a != i :: r[a] == m[a];
    }
  }

  // ----- marks without the links of the stacks -----

  function Unlinked(x: Mark): Mark {
    if x.opener then x else x.(next := -1)
  }

  /** The marks, except for what the stacks keep in `next`. */
  function Plain(m: seq<Mark>): (r: seq<Mark>)
    ensures |r| == |m| && forall k | 0 <= k < |m| :: r[k] == Unlinked(m[k])
  {
    seq(|m|, k requires 0 <= k < |m| => Unlinked(m[k]))
  }

  lemma {:induction false} PlainLayout(m: seq<Mark>)
    requires Layout(m)
    ensures Layout(Plain(m))
  {
    StillLaidOut(m, Plain(m));
  }

  lemma {:induction false} PlainLookBack(m: seq<Mark>, c: nat)
    requires c < |m|
    ensures LookBack(Plain(m), c, c) == LookBack(m, c, c)
  {
    var r := Plain(m);
    SameOpeners(m, r);
    assert forall k :: Live(r, c, k) <==> Live(m, c, k);
    assert forall k | 0 <= k < c :: Matches(r[k], r[c]) <==> Matches(m[k], m[c]);
    var x, y := LookBack(r, c, c), LookBack(m, c, c);
    assert x >= 0 ==> Live(m, c, x);
    assert y >= 0 ==> Live(r, c, y);
  }

  lemma {:induction false} PlainSplit(m: seq<Mark>, k: nat, n: nat)
    requires k < |m| && 0 < n < m[k].Len() && k + m[k].Len() - n < |m|
    ensures Plain(Split(m, k, n)) == Split(Plain(m), k, n)
  {
  }

  lemma {:induction false} PlainPair(m: seq<Mark>, o: nat, c: nat)
    requires o < c < |m| && !m[c].opener
    ensures Plain(Pair(m, o, c)) == Pair(Plain(m), o, c)
  {
  }

  lemma {:induction false} PlainRelink(m: seq<Mark>, k: nat, next: int)
    requires k < |m| && !m[k].opener
    ensures Plain(Relink(m, k, next)) == Plain(m)
  {
  }

  lemma {:induction false} PlainTrim(m: seq<Mark>, o: nat, c: nat)
    requires o < c < |m| && m[o].beg < m[o].end && m[c].beg < m[c].end
    requires m[o].Len() < m[c].Len() ==> c + m[o].Len() < |m|
    requires m[o].Len() > m[c].Len() ==> o + m[o].Len() - m[c].Len() < c
    ensures Plain(Trim(m, o, c)) == Trim(Plain(m), o, c)
  {
    if m[o].Len() > m[c].Len() {
      PlainSplit(m, o, m[c].Len());
    } else if m[o].Len() < m[c].Len() {
      PlainSplit(m, c, m[c].Len() - m[o].Len());
    }
  }

  lemma {:induction false} PlainJoin(m: seq<Mark>, o: nat, c: nat)
    requires o < c < |m| && m[o].beg < m[o].end && m[c].beg < m[c].end
    requires m[o].Len() < m[c].Len() ==> c + m[o].Len() < |m|
    requires m[o].Len() > m[c].Len() ==> o + m[o].Len() - m[c].Len() < c
    requires !m[c].opener
    ensures Plain(Join(m, o, c)) == Join(Plain(m), o, c)
  {
    PlainTrim(m, o, c);
    PlainPair(Trim(m, o, c), Inner(m, o, c), c);
  }

  /** The links make no difference to the simple way. */
  lemma {:induction false} PlainStep(m: seq<Mark>, i: nat)
    requires Layout(m) && PairsOk(m, i) && i < |m|
    ensures Layout(Plain(m)) && SimpleStep(Plain(m), i) == Plain(SimpleStep(m, i))
  {
    PlainLayout(m);
    PlainLookBack(m, i);
    if IsDelim(m[i].ch) && !m[i].resolved && m[i].canClose && LookBack(m, i, i) >= 0 {
      RoomToJoin(m, LookBack(m, i, i), i);
      PlainJoin(m, LookBack(m, i, i), i);
    }
  }

  /** Marks that differ in their links only get the same pairs. */
  lemma {:induction false} PlainRun(m: seq<Mark>, r: seq<Mark>, i: nat)
    requires Layout(m) && PairsOk(m, i) && Layout(r) && PairsOk(r, i) && i <= |m| && Plain(m) == Plain(r)
    ensures |r| == |m| && Plain(SimpleRun(m, i)) == Plain(SimpleRun(r, i))
    decreases |m| - i
  {
    assert |Plain(m)| == |m| && |Plain(r)| == |r|;
    if i < |m| {
      PlainStep(m, i);
      PlainStep(r, i);
      SimpleStepOk(m, i);
      SimpleStepOk(r, i);
      PlainRun(SimpleStep(m, i), SimpleStep(r, i), i + 1);
    }
  }

  /** Marks that differ in what the stacks keep in `next`. */
  ghost predicate SameButLinks(m: seq<Mark>, r: seq<Mark>) {
    |m| == |r| && forall k | 0 <= k < |m| :: r[k] == m[k] || (!m[k].opener && r[k] == m[k].(next := r[k].next))
  }

  lemma {:induction false} PlainLinks(m: seq<Mark>, r: seq<Mark>)
    requires Plain(m) == Plain(r)
    ensures SameButLinks(m, r)
  {
    assert |Plain(m)| == |m| && |Plain(r)| == |r|;
    forall k | 0 <= k < |m| ensures r[k] == m[k] || (!m[k].opener && r[k] == m[k].(next := r[k].next)) {
      assert Plain(m)[k] == Plain(r)[k];
    }
  }

  lemma {:induction false} LinksReach(m: seq<Mark>, r: seq<Mark>, o: int, c: int)
    requires SameButLinks(m, r)
    ensures InReach(r, o, c) <==> InReach(m, o, c)
  {
  }

  lemma {:induction false} LinksNothingLeft(m: seq<Mark>, r: seq<Mark>, from: nat, i: int)
    requires SameButLinks(m, r) && NothingLeft(m, from, i)
    ensures NothingLeft(r, from, i)
  {
    forall c | from <= c < i && c < |r| ensures Stuck(r, c) {
      assert Stuck(m, c);
      forall o | InReach(r, o, c) ensures InReach(m, o, c) {
        LinksReach(m, r, o, c);
      }
    }
  }

  lemma {:induction false} LinksNearest(m: seq<Mark>, r: seq<Mark>)
    requires SameButLinks(m, r) && AllNearest(m)
    ensures AllNearest(r)
  {
    forall a | 0 <= a < |r| ensures NearestOne(r, a) {
      assert NearestOne(m, a);
      forall k | m[a].opener && InReach(r, k, m[a].next) ensures InReach(m, k, m[a].next) {
        LinksReach(m, r, k, m[a].next);
      }
    }
  }

  lemma {:induction false} LinksRuns(orig: seq<Mark>, m: seq<Mark>, r: seq<Mark>)
    requires SameButLinks(m, r) && Runs(orig, m)
    ensures Runs(orig, r)
  {
    forall a, b | 0 <= a < |r| && 0 <= b < |r| ensures Ordered(orig, r, a, b) {
      assert Ordered(orig, m, a, b);
    }
    forall a | 0 <= a < |r| ensures Spent(orig, r, a) {
      assert Spent(orig, m, a);
    }
  }

  /** Marks that were dealt with like the simple way would have done end up alike. */
  lemma {:induction false} StepAgrees(m: seq<Mark>, r: seq<Mark>, i: nat)
    requires i < |m| && Layout(m) && PairsOk(m, i) && Layout(r) && PairsOk(r, i + 1)
    requires Plain(r) == Plain(SimpleStep(m, i))
    ensures |r| == |m| && Plain(SimpleRun(r, i + 1)) == Plain(SimpleRun(m, i))
  {
    SimpleStepOk(m, i);
    PlainRun(SimpleStep(m, i), r, i + 1);
  }

  // ----- the stacks of one closer -----

  /** The stacks that the rule of 3 allows for closer `y`, in the order they are tried. */
  function Candidates(y: Mark): seq<nat> {
    [EmphStack(y.ch, true, 0)]
    + (if y.mod3 != 2 then [EmphStack(y.ch, true, 1)] else [])
    + (if y.mod3 != 1 then [EmphStack(y.ch, true, 2)] else [])
    + [EmphStack(y.ch, false, 0)]
    + (if !y.oc || y.mod3 != 2 then [EmphStack(y.ch, false, 1)] else [])
    + (if !y.oc || y.mod3 != 1 then [EmphStack(y.ch, false, 2)] else [])
  }

  /** They are the stacks of the openers that match it. */
  lemma {:induction false} CandidatesMatch(x: Mark, y: Mark)
    requires IsDelim(x.ch) && IsEmph(y.ch)
    ensures StackOf(x) in Candidates(y) <==> Matches(x, y)
  {
  }

  lemma {:induction false} CandidatesAreStacks(y: Mark)
    requires IsEmph(y.ch)
    ensures forall j | 0 <= j < |Candidates(y)| :: Candidates(y)[j] < STACKS
  {
  }

  /** Later runs end later. */
  lemma {:induction false} EndsInOrder(m: seq<Mark>, a: int, b: int)
    requires Layout(m) && 0 <= a < |m| && 0 <= b < |m| && IsDelim(m[a].ch) && IsDelim(m[b].ch)
    ensures m[a].end < m[b].end <==> a < b
  {
    assert Room(m, a) && Room(m, b);
  }

  /** `r` may still have to be popped: every live opener before `o` on stack `s` is at or below it. */
  ghost predicate Cutting(m: seq<Mark>, o: int, i: int, s: nat, r: int) {
    && (r == -1 || (Live(m, i, r) && StackOf(m[r]) == s))
    && forall k | Live(m, o, k) && StackOf(m[k]) == s :: k <= r
  }

  lemma {:induction false} CutNearest(m: seq<Mark>, o: int, i: int, s: nat, r: int)
    requires o <= i && (Nearest(m, i, s, r) || Nearest(m, o, s, r))
    ensures Cutting(m, o, i, s, r)
  {
    assert forall k | Live(m, o, k) :: Live(m, i, k);
  }

  lemma {:induction false} CutMore(m: seq<Mark>, o: int, i: int, s: nat, r: int)
    requires Cutting(m, o, i, s, r) && 0 <= o <= r && AllLinked(m, i)
    ensures -1 <= m[r].next < r && Cutting(m, o, i, s, m[r].next)
  {
    assert Linked(m, r);
    assert forall k | Live(m, o, k) :: Live(m, r, k);
    assert forall k | Live(m, r, k) :: Live(m, i, k);
  }

  lemma {:induction false} CutEnough(m: seq<Mark>, o: int, i: int, s: nat, r: int)
    requires Cutting(m, o, i, s, r) && r < o <= i
    ensures Nearest(m, o, s, r)
  {
    assert r >= 0 ==> Live(m, o, r);
  }

  /** The marks of a block and the opener stacks of MD_CTX. */
  class Analyzer {
    var marks: seq<Mark>
    var tops: seq<int>

    /** In order before mark `i` is looked at. */
    ghost predicate Valid(i: int)
      reads this
    {
      Layout(marks) && PairsOk(marks, i) && Stacks(marks, tops, i)
    }

    constructor (marks: seq<Mark>)
      requires Layout(marks) && forall k | 0 <= k < |marks| - 1 :: !marks[k].resolved
      requires forall k | 0 <= k < |marks| :: !marks[k].opener && !marks[k].closer
      ensures Valid(0) && this.marks == marks
    {
      this.marks := marks;
      tops := seq(STACKS, _ => -1);
    }

    /** md_mark_stack_push */
    method Push(s: nat, k: nat)
      requires |tops| == STACKS && s < STACKS && k < |marks|
      modifies this
      ensures marks == Relink(old(marks), k, old(tops)[s]) && tops == old(tops)[s := k]
    {
      marks := marks[k := marks[k].(next := tops[s])];
      tops := tops[s := k];
    }

    /** md_mark_stack_pop */
    method Pop(s: nat)
      requires |tops| == STACKS && s < STACKS && tops[s] < |marks|
      modifies this`tops
      ensures tops == if old(tops)[s] >= 0 then old(tops)[s := marks[old(tops)[s]].next] else old(tops)
    {
      var top := tops[s];
      if top >= 0 {
        tops := tops[s := marks[top].next];
      }
    }

    /** md_split_emph_mark */
    method SplitMark(k: nat, n: nat) returns (at: nat)
      requires k < |marks| && 0 < n < marks[k].Len() && k + marks[k].Len() - n < |marks|
      modifies this`marks
      ensures at == k + old(marks)[k].Len() - n && marks == Split(old(marks), k, n)
    {
      at := k + (marks[k].Len() - n);
      var mark := marks[k];
      marks := marks[at := mark];
      marks := marks[k := marks[k].(end := marks[k].end - n)];
      marks := marks[at := marks[at].(beg := marks[k].end)];
    }

    /** md_resolve_range */
    method ResolveRange(o: nat, c: nat)
      requires o < c < |marks|
      modifies this`marks
      ensures marks == Pair(old(marks), o, c)
    {
      marks := marks[o := marks[o].(next := c)];
      marks := marks[c := marks[c].(prev := o)];
      marks := marks[o := marks[o].(opener := true, resolved := true)];
      marks := marks[c := marks[c].(closer := true, resolved := true)];
    }

    /** md_rollback, of what would cross a pair that begins at `o`. */
    method Rollback(o: nat, ghost i: nat)
      requires |tops| == STACKS && o <= i && AllLinked(marks, i)
      requires forall s | 0 <= s < STACKS :: Cutting(marks, o, i, s, tops[s])
      modifies this`tops
      ensures Tops(marks, tops, o)
    {
      for s := 0 to STACKS
        invariant |tops| == STACKS
        invariant forall t | 0 <= t < s :: Nearest(marks, o, t, tops[t])
        invariant forall t | s <= t < STACKS :: Cutting(marks, o, i, t, tops[t])
      {
        ghost var before := tops;
        while tops[s] >= o
          invariant |tops| == STACKS && Cutting(marks, o, i, s, tops[s]) && tops[s] >= -1
          invariant forall t | 0 <= t < STACKS && t != s :: tops[t] == before[t]
          decreases tops[s]
        {
          CutMore(marks, o, i, s, tops[s]);
          Pop(s);
        }
        CutEnough(marks, o, i, s, tops[s]);
      }
    }

    /** The search of md_analyze_emph: the last ending top of the allowed stacks is what looking back finds. */
    method FindOpener(i: nat) returns (o: int)
      requires Valid(i) && i < |marks| && IsEmph(marks[i].ch)
      ensures o == LookBack(marks, i, i)
      ensures o >= 0 ==> tops[StackOf(marks[o])] == o
    {
      var stacks := Candidates(marks[i]);
      CandidatesAreStacks(marks[i]);
      o := -1;
      for j := 0 to |stacks|
        invariant o == -1 || (Live(marks, i, o) && StackOf(marks[o]) in stacks[..j] && tops[StackOf(marks[o])] == o)
        invariant forall k | Live(marks, i, k) && StackOf(marks[k]) in stacks[..j] :: k <= o
      {
        var top := tops[stacks[j]];
        assert Nearest(marks, i, stacks[j], top);
        assert stacks[..j + 1] == stacks[..j] + [stacks[j]];
        if top >= 0 && o >= 0 {
          EndsInOrder(marks, o, top);
        }
        if top >= 0 && (o < 0 || marks[top].end > marks[o].end) {
          o := top;
        }
      }
      assert stacks[..|stacks|] == stacks;
      forall k | Live(marks, i, k) ensures StackOf(marks[k]) in stacks <==> Matches(marks[k], marks[i]) {
        CandidatesMatch(marks[k], marks[i]);
      }
      FoundIsNearest(marks, i, o);
    }

    static lemma {:induction false} FoundIsNearest(m: seq<Mark>, i: nat, o: int)
      requires i < |m| && (o == -1 || (Live(m, i, o) && Matches(m[o], m[i])))
      requires forall k | Live(m, i, k) && Matches(m[k], m[i]) :: k <= o
      ensures o == LookBack(m, i, i)
    {
      var r := LookBack(m, i, i);
      assert r >= 0 ==> Live(m, i, r);
      assert o >= 0 ==> Live(m, i, o);
    }

    /** The longer of opener `o` and closer `i` is split; a split opener is pushed. */
    method TrimMarks(o: nat, i: nat) returns (at: nat)
      requires Valid(i) && i < |marks| && Live(marks, i, o) && !marks[i].resolved && Matches(marks[o], marks[i])
      requires tops[StackOf(marks[o])] == o && IsEmph(marks[o].ch)
      modifies this
      ensures Ready(marks, at, i) && Stacks(marks, tops, i) && Live(marks, i, at) && tops[StackOf(marks[at])] == at
      ensures old(marks[o].beg < marks[o].end && marks[i].beg < marks[i].end)
      ensures old(marks[o].Len() < marks[i].Len()) ==> old(i + marks[o].Len() < |marks|)
      ensures old(marks[o].Len() > marks[i].Len()) ==> old(o + marks[o].Len() - marks[i].Len() < i)
      ensures Plain(marks) == Plain(Trim(old(marks), o, i)) && at == Inner(old(marks), o, i)
    {
      RoomToJoin(marks, o, i);
      ghost var m := marks;
      at := o;
      var openerSize, closerSize := marks[o].Len(), marks[i].Len();
      if openerSize > closerSize {
        at := SplitOpenerMark(o, i, closerSize);
        LongerReady(m, o, i, at, marks);
        return;
      }
      if openerSize < closerSize {
        SplitCloserMark(i, closerSize - openerSize);
        ShorterReady(m, o, i, marks);
      }
    }

    static lemma {:induction false} LongerReady(m: seq<Mark>, o: nat, i: nat, at: nat, r: seq<Mark>)
      requires o < i < |m| && m[o].ch == m[i].ch && m[o].Len() > m[i].Len() > 0 && !m[i].resolved && !m[o].opener
      requires at == o + m[o].Len() - m[i].Len() < i && r == Relink(Split(m, o, m[i].Len()), at, o)
      requires Layout(r) && PairsOk(r, i) && Live(r, i, at)
      ensures Ready(r, at, i) && Plain(r) == Plain(Trim(m, o, i)) && at == Inner(m, o, i)
    {
      PlainRelink(Split(m, o, m[i].Len()), at, o);
    }

    static lemma {:induction false} ShorterReady(m: seq<Mark>, o: nat, i: nat, r: seq<Mark>)
      requires o < i < |m| && m[o].ch == m[i].ch && 0 < m[o].Len() < m[i].Len() && !m[i].resolved && Live(m, i, o)
      requires i + m[o].Len() < |m| && r == Split(m, i, m[i].Len() - m[o].Len())
      requires Layout(r) && PairsOk(r, i) && PairsOk(m, i)
      ensures Ready(r, o, i) && Live(r, i, o) && r == Trim(m, o, i) && o == Inner(m, o, i)
    {
      assert Enclosed(r, o) <==> Enclosed(m, o) by {
        forall a | 0 <= a < o ensures r[a] == m[a] {
        }
      }
    }

    method SplitOpenerMark(o: nat, i: nat, n: nat) returns (at: nat)
      requires Valid(i) && i < |marks| && Live(marks, i, o) && IsEmph(marks[o].ch)
      requires tops[StackOf(marks[o])] == o && 0 < n < marks[o].Len() && o + marks[o].Len() <= i
      modifies this
      ensures at == o + old(marks)[o].Len() - n < |old(marks)| && marks == Relink(Split(old(marks), o, n), at, o)
      ensures Valid(i) && Live(marks, i, at) && tops[StackOf(marks[at])] == at
    {
      ghost var m := marks;
      var s := StackOf(marks[o]);
      SplitOffOk(m, i, o, n);
      SplitLayout(m, o, n);
      SplitPairs(m, o, n, i);
      at := SplitMark(o, n);
      Push(s, at);
      RelinkLayout(Split(m, o, n), at, o);
      RelinkPairs(Split(m, o, n), at, o, i);
      SplitStacks(m, old(tops), marks, i, o, at);
    }

    method SplitCloserMark(i: nat, n: nat)
      requires Valid(i) && i < |marks| && !marks[i].resolved && IsEmph(marks[i].ch) && 0 < n < marks[i].Len()
      modifies this`marks
      ensures i + old(marks)[i].Len() - n < |old(marks)| && marks == Split(old(marks), i, n) && Valid(i)
    {
      SplitCloser(marks, i, n);
      var _ := SplitMark(i, n);
      AlikeStacks(old(marks), marks, tops, i);
    }

    /** The end of md_analyze_emph and md_analyze_tilde: the opener leaves its stack, the stacks are cut, the pair is made. */
    method Close(o: nat, i: nat)
      requires Stacks(marks, tops, i) && Ready(marks, o, i) && Live(marks, i, o)
      requires StackOf(marks[o]) < STACKS && tops[StackOf(marks[o])] == o
      modifies this
      ensures Valid(i + 1) && marks == Pair(old(marks), o, i)
    {
      var s := StackOf(marks[o]);
      Pop(s);
      PoppedCut(marks, old(tops), tops, o, i);
      Rollback(o, i);
      PairBoth(marks, o, i);
      PairStacks(marks, tops, o, i);
      ResolveRange(o, i);
    }

    static lemma {:induction false} PoppedCut(m: seq<Mark>, tops: seq<int>, now: seq<int>, o: nat, i: nat)
      requires Stacks(m, tops, i) && o < i && Live(m, i, o) && StackOf(m[o]) < STACKS && tops[StackOf(m[o])] == o
      requires now == tops[StackOf(m[o]) := m[o].next]
      ensures forall s | 0 <= s < STACKS :: Cutting(m, o, i, s, now[s])
    {
      assert Linked(m, o);
      forall s | 0 <= s < STACKS ensures Cutting(m, o, i, s, now[s]) {
        assert Nearest(m, i, s, tops[s]);
        CutNearest(m, o, i, s, now[s]);
      }
    }

    /** md_analyze_emph: the stacks pair mark `i` as looking back does. */
    method AnalyzeEmph(i: nat)
      requires Valid(i) && i < |marks| && IsEmph(marks[i].ch) && !marks[i].resolved
      modifies this
      ensures Valid(i + 1) && Plain(marks) == Plain(SimpleStep(old(marks), i))
    {
      if marks[i].canClose {
        var o := FindOpener(i);
        if o >= 0 {
          Resolve(o, i);
          return;
        }
      }
      PushIfOpener(i);
    }

    /** Mark `i` is paired with the opener that was found. */
    method Resolve(o: nat, i: nat)
      requires Valid(i) && i < |marks| && Live(marks, i, o) && !marks[i].resolved && Matches(marks[o], marks[i])
      requires tops[StackOf(marks[o])] == o && IsEmph(marks[o].ch)
      modifies this
      ensures Valid(i + 1)
      ensures old(marks[o].beg < marks[o].end && marks[i].beg < marks[i].end)
      ensures old(marks[o].Len() < marks[i].Len()) ==> old(i + marks[o].Len() < |marks|)
      ensures old(marks[o].Len() > marks[i].Len()) ==> old(o + marks[o].Len() - marks[i].Len() < i)
      ensures Plain(marks) == Plain(Join(old(marks), o, i))
    {
      RoomToJoin(marks, o, i);
      var at := TrimMarks(o, i);
      ghost var m := marks;
      Close(at, i);
      PlainPair(m, at, i);
      TrimOk(old(marks), o, i, Trim(old(marks), o, i));
      PlainPair(Trim(old(marks), o, i), at, i);
    }

    /** A mark that did not close anything may still open something. */
    method PushIfOpener(i: nat)
      requires Valid(i) && i < |marks| && IsDelim(marks[i].ch) && !marks[i].resolved
      modifies this
      ensures Valid(i + 1) && Plain(marks) == Plain(old(marks))
    {
      PairsLater(marks, i);
      if marks[i].canOpen {
        ghost var m, s := marks, StackOf(marks[i]);
        PushStacks(m, tops, i);
        RelinkLayout(m, i, tops[s]);
        RelinkPairs(m, i, tops[s], i + 1);
        PlainRelink(m, i, tops[s]);
        Push(StackOf(marks[i]), i);
      } else {
        PassBy(marks, tops, i);
      }
    }

    /** md_analyze_tilde */
    method AnalyzeTilde(i: nat)
      requires Valid(i) && i < |marks| && marks[i].ch == '~' && !marks[i].resolved
      modifies this
      ensures Valid(i + 1) && Plain(marks) == Plain(SimpleStep(old(marks), i))
    {
      var s := StackOf(marks[i]);
      if marks[i].canClose && tops[s] >= 0 {
        var o := tops[s];
        TildeOpener(marks, tops, i);
        ghost var m := marks;
        Close(o, i);
        return;
      }
      TildeOpener(marks, tops, i);
      PushIfOpener(i);
    }

    static lemma {:induction false} TildeOpener(m: seq<Mark>, tops: seq<int>, i: nat)
      requires Layout(m) && Tops(m, tops, i) && i < |m| && m[i].ch == '~'
      ensures tops[StackOf(m[i])] == LookBack(m, i, i)
    {
      var s := StackOf(m[i]);
      assert Nearest(m, i, s, tops[s]);
      forall k | Live(m, i, k) ensures StackOf(m[k]) == s <==> Matches(m[k], m[i]) {
        assert Room(m, k) && Room(m, i) && Proper(m[k]) && Proper(m[i]);
        TildeMatch(m[k], m[i]);
      }
      FoundIsNearest(m, i, tops[s]);
    }

    static lemma {:induction false} TildeMatch(x: Mark, y: Mark)
      requires IsDelim(x.ch) && y.ch == '~' && (x.ch == '~' ==> 0 < x.Len() <= 2) && 0 < y.Len() <= 2
      ensures StackOf(x) == StackOf(y) <==> Matches(x, y)
    {
    }

    /** md_analyze_marks, on the characters of emphasis and strikethrough: the pairs are those of the simple way. */
    method AnalyzeMarks(markBeg: nat, lineBeg: nat)
      requires Valid(markBeg) && markBeg <= |marks| && Clear(marks, markBeg, lineBeg)
      modifies this
      ensures Layout(marks) && PairsOk(marks, |marks|) && |marks| == |old(marks)|
      ensures Plain(marks) == Plain(SimpleRun(old(marks), markBeg))
      ensures NothingLeft(marks, markBeg, |marks|)
      ensures AllNearest(old(marks)) ==> AllNearest(marks)
      ensures forall runs | Runs(runs, old(marks)) :: Runs(runs, marks)
    {
      hide NothingLeft, AllNearest, Runs, PairsOk, Layout, Clear, Plain;
      var i, lastEnd := markBeg, lineBeg;
      while i < |marks|
        invariant markBeg <= i <= |marks| == |old(marks)| && Valid(i) && Clear(marks, i, lastEnd)
        invariant Plain(SimpleRun(marks, i)) == Plain(SimpleRun(old(marks), markBeg))
        decreases |old(marks)| - i
      {
        i, lastEnd := AnalyzeNext(i, lastEnd);
      }
      FinalLaws(old(marks), marks, markBeg);
    }

    static lemma {:induction false} FinalLaws(m: seq<Mark>, r: seq<Mark>, from: nat)
      requires Layout(m) && PairsOk(m, from) && from <= |m| && Plain(r) == Plain(SimpleRun(m, from))
      ensures |r| == |m| && NothingLeft(r, from, |r|)
      ensures AllNearest(m) ==> AllNearest(r)
      ensures forall runs | Runs(runs, m) :: Runs(runs, r)
    {
      hide Plain, SimpleRun;
      var s := SimpleRun(m, from);
      PlainLinks(s, r);
      RunLaws(m, m, from, from);
      LinksNothingLeft(s, r, from, |m|);
      if AllNearest(m) {
        LinksNearest(s, r);
      }
      forall runs | Runs(runs, m) ensures Runs(runs, r) {
        RunLaws(runs, m, from, from);
        LinksRuns(runs, s, r);
      }
    }

    /** No mark from `i` on begins before `end`. */
    static predicate Clear(m: seq<Mark>, i: int, end: int) {
      forall k | 0 <= k < |m| && i <= k && m[k].ch != DUMMY :: end <= m[k].beg
    }

    /**
     * One turn of the loop. Nothing ahead is an opener already or begins inside the last pair, so the scan
     * never jumps and never passes over a mark that has to be looked at.
     */
    method AnalyzeNext(i: nat, lastEnd: nat) returns (next: int, end: nat)
      requires Valid(i) && i < |marks| && Clear(marks, i, lastEnd)
      modifies this
      ensures next == i + 1 && Valid(i + 1) && |marks| == |old(marks)| && Clear(marks, i + 1, end)
      ensures Plain(SimpleRun(marks, i + 1)) == Plain(SimpleRun(old(marks), i))
    {
      var mark := marks[i];
      NothingAhead(marks, i);
      if mark.resolved || !IsDelim(mark.ch) || mark.beg < lastEnd {
        PairsLater(marks, i);
        PassBy(marks, tops, i);
        StepAgrees(marks, marks, i);
        return if mark.resolved && mark.opener then mark.next + 1 else i + 1, lastEnd;
      }
      AnalyzeMark(i);
      StepAgrees(old(marks), marks, i);
      next, end := i + 1, lastEnd;
      NothingBehind(old(marks), marks, i, lastEnd);
      if marks[i].resolved {
        end := marks[i].end;
      }
    }

    static lemma {:induction false} NothingAhead(m: seq<Mark>, i: nat)
      requires PairsOk(m, i) && i < |m|
      ensures !m[i].opener
    {
      assert m[i].opener ==> OpenerOk(m, i, i);
    }

    static lemma {:induction false} NothingBehind(m: seq<Mark>, r: seq<Mark>, i: nat, lastEnd: nat)
      requires Layout(m) && PairsOk(m, i) && i < |m| && Clear(m, i, lastEnd) && IsDelim(m[i].ch) && !m[i].resolved
      requires Plain(r) == Plain(SimpleStep(m, i)) && Layout(r)
      ensures |r| == |m| && IsDelim(r[i].ch) && Clear(r, i + 1, lastEnd) && Clear(r, i + 1, r[i].end)
    {
      SimpleStepOk(m, i);
      StepKeepsPlace(m, i);
      var s := SimpleStep(m, i);
      assert |Plain(r)| == |Plain(s)|;
      assert forall k | 0 <= k < |m| :: Plain(r)[k].beg == Plain(s)[k].beg && Plain(r)[k].ch == Plain(s)[k].ch;
      assert Room(r, i) && Room(m, i);
      forall k | i < k < |m| && r[k].ch != DUMMY ensures lastEnd <= r[k].beg {
        assert Before(m, i, k);
      }
    }

    /** Every mark begins where it began. */
    static lemma {:induction false} StepKeepsPlace(m: seq<Mark>, i: nat)
      requires Layout(m) && PairsOk(m, i) && i < |m|
      ensures |SimpleStep(m, i)| == |m| && forall k | 0 <= k < |m| :: SimpleStep(m, i)[k].beg == m[k].beg
      ensures SimpleStep(m, i)[i].ch == m[i].ch
    {
      if IsDelim(m[i].ch) && !m[i].resolved && m[i].canClose && LookBack(m, i, i) >= 0 {
        var o := LookBack(m, i, i);
        RoomToJoin(m, o, i);
        if m[o].Len() > m[i].Len() {
          SplitLayout(m, o, m[i].Len());
        } else if m[o].Len() < m[i].Len() {
          SplitLayout(m, i, m[i].Len() - m[o].Len());
        }
      }
    }

    /** The analysis of one mark. */
    method AnalyzeMark(i: nat)
      requires Valid(i) && i < |marks| && IsDelim(marks[i].ch) && !marks[i].resolved
      modifies this
      ensures Valid(i + 1) && |marks| == |old(marks)| && Plain(marks) == Plain(SimpleStep(old(marks), i))
    {
      SimpleStepOk(marks, i);
      assert |Plain(SimpleStep(marks, i))| == |marks|;
      if marks[i].ch == '~' {
        AnalyzeTilde(i);
      } else {
        AnalyzeEmph(i);
      }
    }
  }
}
