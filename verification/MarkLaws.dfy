/**
 * What the final pairs are, said without the way they are found: nothing is left that could still be paired, each
 * closer has the nearest opener that it may have, and two runs that are paired give all that one of them has.
 */
module MarkLaws {
  import opened Marks

  // ----- openers within reach -----

  /** A pair reaches across `o` and ends before `c`, so that `o` cannot be paired with `c`. */
  predicate Cut(m: seq<Mark>, o: int, c: int) {
    exists a | 0 <= a < |m| :: a < o && m[a].opener && o < m[a].next < c
  }

  /** A potential opener that is not paired, and from which no pair separates the mark `c` behind it. */
  predicate InReach(m: seq<Mark>, o: int, c: int) {
    0 <= o < c && o < |m| && IsDelim(m[o].ch) && !m[o].resolved && m[o].canOpen && !Cut(m, o, c)
  }

  /** Mark `c` could close something and does not: it cannot be paired with anything within reach. */
  ghost predicate Stuck(m: seq<Mark>, c: int)
    requires 0 <= c < |m|
  {
    IsDelim(m[c].ch) && !m[c].resolved && m[c].canClose ==> forall o | InReach(m, o, c) :: !Matches(m[o], m[c])
  }

  /** None of the marks from `from` to `i` could still be paired with one before it. */
  ghost predicate NothingLeft(m: seq<Mark>, from: nat, i: int) {
    forall c {:trigger Stuck(m, c)} | from <= c < i && c < |m| :: Stuck(m, c)
  }

  /** The closer of opener `a` could not have been paired with anything within reach behind `a`. */
  ghost predicate NearestOne(m: seq<Mark>, a: int)
    requires 0 <= a < |m|
  {
    m[a].opener && m[a].next < |m| ==> forall k | a < k && InReach(m, k, m[a].next) :: !Matches(m[k], m[m[a].next])
  }

  ghost predicate AllNearest(m: seq<Mark>) {
    forall a {:trigger NearestOne(m, a)} | 0 <= a < |m| :: NearestOne(m, a)
  }

  // ----- all that one of two runs has -----

  /** `a` and `b` are places in one of the original runs, whose further characters have dummies. */
  predicate SameRun(orig: seq<Mark>, a: int, b: int) {
    0 <= a <= b < |orig| && forall x | a < x <= b :: orig[x].ch == DUMMY
  }

  /** Of two marks of one run the first is a closer or the second an opener: closers, one unpaired rest, openers. */
  predicate Ordered(orig: seq<Mark>, m: seq<Mark>, a: int, b: int)
    requires 0 <= a < |m| && 0 <= b < |m|
  {
    a < b && SameRun(orig, a, b) && IsDelim(m[a].ch) && IsDelim(m[b].ch) ==> m[a].closer || m[b].opener
  }

  /** Of the run of opener `a` nothing is left in front of it, or of that of its closer nothing behind it. */
  ghost predicate Spent(orig: seq<Mark>, m: seq<Mark>, a: int)
    requires 0 <= a < |m|
  {
    m[a].opener ==>
      || (forall x | 0 <= x < a && x < |m| && SameRun(orig, x, a) && IsDelim(m[x].ch) :: m[x].closer)
      || (forall y | m[a].next < y < |m| && SameRun(orig, m[a].next, y) :: !IsDelim(m[y].ch))
  }

  ghost predicate Runs(orig: seq<Mark>, m: seq<Mark>) {
    && |orig| == |m| && (forall k | 0 <= k < |m| && m[k].ch == DUMMY :: orig[k].ch == DUMMY)
    && (forall a, b {:trigger Ordered(orig, m, a, b)} | 0 <= a < |m| && 0 <= b < |m| :: Ordered(orig, m, a, b))
    && (forall a {:trigger Spent(orig, m, a)} | 0 <= a < |m| :: Spent(orig, m, a))
  }

  // ----- what joining does -----

  /** What is known of opener `o` and closer `i` before they are joined. */
  ghost predicate Joining(m: seq<Mark>, o: nat, i: nat) {
    && Layout(m) && PairsOk(m, i) && i < |m| && Live(m, i, o) && !m[i].resolved && Matches(m[o], m[i])
    && m[o].beg < m[o].end && m[i].beg < m[i].end && (IsEmph(m[o].ch) ==> o + m[o].Len() <= i)
    && (m[o].Len() > m[i].Len() ==> o + m[o].Len() - m[i].Len() < i)
    && (m[o].Len() < m[i].Len() ==> i + m[o].Len() < |m|)
  }

  /** The mark that joining splits off, or the closer. */
  function Off(m: seq<Mark>, o: nat, i: nat): int
    requires o < |m| && i < |m|
  {
    if m[o].Len() > m[i].Len() then Inner(m, o, i) else if m[o].Len() < m[i].Len() then i + m[o].Len() else i
  }

  /** `y` is `x`, or what is left of the run `x` of '*' or '_'. */
  predicate Left(x: Mark, y: Mark) {
    y == x || (IsEmph(x.ch) && y == x.(end := y.end))
  }

  /** Joining changes the inner opener, the closer, and what is left over of one of them. */
  lemma {:induction false} JoinFacts(m: seq<Mark>, o: nat, i: nat)
    requires Joining(m, o, i)
    ensures
      var r, a := Join(m, o, i), Inner(m, o, i);
      && |r| == |m| && r[a].opener && r[a].resolved && r[a].next == i && IsDelim(r[a].ch)
      && r[i].closer && r[i].resolved && IsDelim(r[i].ch) && !r[i].opener
      && (forall k | 0 <= k < |m| && k != o && k != i && k != Off(m, o, i) :: r[k] == m[k])
      && (a != o ==> r[o] == m[o].(end := m[o].end - m[i].Len()))
      && (Off(m, o, i) > i ==>
            var rest := r[Off(m, o, i)];
            IsDelim(rest.ch) && !rest.resolved && !rest.opener && !rest.closer)
  {
    assert Room(m, o) && Room(m, i);
    if Off(m, o, i) > i {
      assert m[o].ch != '~';
    }
  }

  lemma {:induction false} OffDummy(m: seq<Mark>, o: nat, i: nat)
    requires Joining(m, o, i)
    ensures forall k | o < k <= Inner(m, o, i) || i < k <= Off(m, o, i) :: m[k].ch == DUMMY && !m[k].opener && !m[k].closer
  {
    assert Room(m, o) && Room(m, i);
    forall k | o < k <= Inner(m, o, i) || i < k <= Off(m, o, i)
      ensures m[k].ch == DUMMY && !m[k].opener && !m[k].closer
    {
      DummyFree(m, i, k);
    }
  }

  /** Joining keeps the pairs that there are. */
  lemma {:induction false} JoinKeepsPairs(m: seq<Mark>, o: nat, i: nat)
    requires Joining(m, o, i)
    ensures |Join(m, o, i)| == |m| && forall k | 0 <= k < |m| && (m[k].opener || m[k].closer) :: Join(m, o, i)[k] == m[k]
  {
    JoinFacts(m, o, i);
    OffDummy(m, o, i);
  }

  lemma {:induction false} LeftMatches(x: Mark, y: Mark, x': Mark, y': Mark)
    requires Left(x, x') && Left(y, y')
    ensures Matches(x', y') ==> Matches(x, y)
  {
  }

  lemma {:induction false} JoinLeaves(m: seq<Mark>, o: nat, i: nat)
    requires Joining(m, o, i)
    ensures |Join(m, o, i)| == |m| && Join(m, o, i)[i].resolved
    ensures forall k | 0 <= k < i && !Join(m, o, i)[k].resolved :: Left(m[k], Join(m, o, i)[k])
  {
  }

  /** What is within reach of a mark before `i` was so before. */
  lemma {:induction false} JoinReach(m: seq<Mark>, o: nat, i: nat, k: int, c: int)
    requires Joining(m, o, i) && c <= i
    ensures |Join(m, o, i)| == |m|
    ensures InReach(Join(m, o, i), k, c) ==> InReach(m, k, c) && Left(m[k], Join(m, o, i)[k])
  {
    JoinLeaves(m, o, i);
    JoinKeepsPairs(m, o, i);
    var r := Join(m, o, i);
    if Cut(m, k, c) {
      var a :| 0 <= a < |m| && a < k && m[a].opener && k < m[a].next < c;
      assert r[a].opener && r[a].next == m[a].next;
    }
  }

  // ----- what joining does to the runs -----

  lemma {:induction false} JoinOrdered(orig: seq<Mark>, m: seq<Mark>, o: nat, i: nat, a: nat, b: nat)
    requires Joining(m, o, i) && Runs(orig, m) && a < |m| && b < |m|
    ensures |Join(m, o, i)| == |m| && Ordered(orig, Join(m, o, i), a, b)
  {
    hide Join, Layout, NeverCross;
    JoinFacts(m, o, i);
    OffDummy(m, o, i);
    if a < b && SameRun(orig, a, b) {
      assert Ordered(orig, m, a, b) && Ordered(orig, m, a, o) && Ordered(orig, m, o, b);
      assert Ordered(orig, m, a, i) && Ordered(orig, m, i, b);
    }
  }

  /** When two runs are joined, one of them is used up, and that stays so. */
  lemma {:induction false} JoinSpentNow(orig: seq<Mark>, m: seq<Mark>, o: nat, i: nat)
    requires Joining(m, o, i) && Runs(orig, m)
    ensures |Join(m, o, i)| == |m| && Spent(orig, Join(m, o, i), Inner(m, o, i))
  {
    hide Join, Layout, NeverCross;
    JoinFacts(m, o, i);
    OffDummy(m, o, i);
    var r, a := Join(m, o, i), Inner(m, o, i);
    if m[o].Len() < m[i].Len() {
      forall x | 0 <= x < a && SameRun(orig, x, a) && IsDelim(r[x].ch) ensures r[x].closer {
        assert Ordered(orig, m, x, o);
      }
    } else {
      forall y | i < y < |m| && SameRun(orig, i, y) ensures !IsDelim(r[y].ch) {
        assert Ordered(orig, m, i, y);
        assert m[y].opener ==> OpenerOk(m, i, y);
      }
    }
  }

  lemma {:induction false} JoinSpent(orig: seq<Mark>, m: seq<Mark>, o: nat, i: nat, a: nat)
    requires Joining(m, o, i) && Runs(orig, m) && a < |m|
    ensures |Join(m, o, i)| == |m| && Spent(orig, Join(m, o, i), a)
  {
    hide Join, Layout, NeverCross;
    JoinFacts(m, o, i);
    OffDummy(m, o, i);
    var r := Join(m, o, i);
    if a == Inner(m, o, i) {
      JoinSpentNow(orig, m, o, i);
    } else if m[a].opener {
      assert Spent(orig, m, a) && OpenerOk(m, i, a);
      var c := m[a].next;
      if forall x | 0 <= x < a && SameRun(orig, x, a) && IsDelim(m[x].ch) :: m[x].closer {
        assert forall x | 0 <= x < a && SameRun(orig, x, a) && IsDelim(r[x].ch) :: r[x].closer;
      } else {
        assert forall y | c < y < |m| && SameRun(orig, c, y) :: !IsDelim(r[y].ch);
      }
    }
  }

  // ----- what joining leaves behind -----

  lemma {:induction false} JoinNearest(m: seq<Mark>, o: nat, i: nat, a: nat)
    requires Joining(m, o, i) && AllNearest(m) && a < |m|
    requires forall j | o < j < i :: !(Live(m, i, j) && Matches(m[j], m[i]))
    ensures |Join(m, o, i)| == |m| && NearestOne(Join(m, o, i), a)
  {
    hide Join, Layout, NeverCross, Enclosed;
    JoinFacts(m, o, i);
    var r := Join(m, o, i);
    if r[a].opener {
      if a == Inner(m, o, i) {
        JoinNearestNow(m, o, i);
      } else {
        JoinKeepsPairs(m, o, i);
        assert NearestOne(m, a) && OpenerOk(m, i, a);
        var c := m[a].next;
        forall k | a < k && InReach(r, k, c) ensures !Matches(r[k], r[c]) {
          JoinReach(m, o, i, k, c);
          LeftMatches(m[k], m[c], r[k], r[c]);
        }
      }
    }
  }

  lemma {:induction false} JoinNearestNow(m: seq<Mark>, o: nat, i: nat)
    requires Joining(m, o, i)
    requires forall j | o < j < i :: !(Live(m, i, j) && Matches(m[j], m[i]))
    ensures |Join(m, o, i)| == |m| && NearestOne(Join(m, o, i), Inner(m, o, i))
  {
    hide Join, Layout, NeverCross, RuleOf3;
    JoinFacts(m, o, i);
    var r, a := Join(m, o, i), Inner(m, o, i);
    forall k | a < k && InReach(r, k, i) ensures !Matches(r[k], r[i]) {
      JoinReach(m, o, i, k, i);
      LeftMatches(m[k], m[i], r[k], m[i]);
      CloserMatches(m, o, i, r[k]);
      ReachIsLive(m, i, k);
    }
  }

  lemma {:induction false} CloserMatches(m: seq<Mark>, o: nat, i: nat, x: Mark)
    requires Joining(m, o, i)
    ensures |Join(m, o, i)| == |m| && (Matches(x, Join(m, o, i)[i]) ==> Matches(x, m[i]))
  {
    hide Layout, PairsOk;
  }

  /** For the mark that is being dealt with, what is within reach is what is live. */
  lemma {:induction false} ReachIsLive(m: seq<Mark>, i: int, k: int)
    requires PairsOk(m, i)
    ensures InReach(m, k, i) <==> Live(m, i, k)
  {
    forall a | 0 <= a < |m| && m[a].opener ensures m[a].next < i {
      assert OpenerOk(m, i, a);
    }
  }

  lemma {:induction false} JoinLeavesNothing(m: seq<Mark>, o: nat, from: nat, i: nat)
    requires Joining(m, o, i) && NothingLeft(m, from, i)
    ensures NothingLeft(Join(m, o, i), from, i + 1)
  {
    hide Join, Layout, PairsOk;
    JoinLeaves(m, o, i);
    var r := Join(m, o, i);
    forall c | from <= c < i + 1 && c < |r| ensures Stuck(r, c) {
      if c < i && !r[c].resolved {
        assert Stuck(m, c) && Left(m[c], r[c]);
        forall k | InReach(r, k, c) ensures InReach(m, k, c) && (Matches(r[k], r[c]) ==> Matches(m[k], m[c])) {
          JoinReach(m, o, i, k, c);
          LeftMatches(m[k], m[c], r[k], r[c]);
        }
      }
    }
  }

  // ----- the simple way keeps all this -----

  lemma {:induction false} JoinLaws(orig: seq<Mark>, m: seq<Mark>, from: nat, o: nat, i: nat)
    requires Joining(m, o, i) && NothingLeft(m, from, i)
    requires forall j | o < j < i :: !(Live(m, i, j) && Matches(m[j], m[i]))
    ensures |Join(m, o, i)| == |m| && NothingLeft(Join(m, o, i), from, i + 1)
    ensures AllNearest(m) ==> AllNearest(Join(m, o, i))
    ensures Runs(orig, m) ==> Runs(orig, Join(m, o, i))
  {
    var r := Join(m, o, i);
    JoinLeavesNothing(m, o, from, i);
    if AllNearest(m) {
      forall a | 0 <= a < |r| ensures NearestOne(r, a) {
        JoinNearest(m, o, i, a);
      }
    }
    if Runs(orig, m) {
      JoinFacts(m, o, i);
      forall a, b | 0 <= a < |r| && 0 <= b < |r| ensures Ordered(orig, r, a, b) {
        JoinOrdered(orig, m, o, i, a, b);
      }
      forall a | 0 <= a < |r| ensures Spent(orig, r, a) {
        JoinSpent(orig, m, o, i, a);
      }
    }
  }

  lemma {:induction false} StepLaws(orig: seq<Mark>, m: seq<Mark>, from: nat, i: nat)
    requires Layout(m) && PairsOk(m, i) && i < |m| && NothingLeft(m, from, i)
    ensures |SimpleStep(m, i)| == |m| && NothingLeft(SimpleStep(m, i), from, i + 1)
    ensures AllNearest(m) ==> AllNearest(SimpleStep(m, i))
    ensures Runs(orig, m) ==> Runs(orig, SimpleStep(m, i))
  {
    hide Join, AllNearest, Runs, NothingLeft, Layout, PairsOk, Stuck;
    if IsDelim(m[i].ch) && !m[i].resolved && m[i].canClose && LookBack(m, i, i) >= 0 {
      RoomToJoin(m, LookBack(m, i, i), i);
      JoinLaws(orig, m, from, LookBack(m, i, i), i);
    } else {
      NothingMore(m, from, i);
    }
  }

  lemma {:induction false} NothingMore(m: seq<Mark>, from: nat, i: nat)
    requires i < |m| && PairsOk(m, i) && NothingLeft(m, from, i)
    requires !(IsDelim(m[i].ch) && !m[i].resolved && m[i].canClose && LookBack(m, i, i) >= 0)
    ensures NothingLeft(m, from, i + 1)
  {
    forall o | InReach(m, o, i) ensures Live(m, i, o) {
      ReachIsLive(m, i, o);
    }
    assert Stuck(m, i);
  }

  /** What the simple way ends with: the laws of this module, if they held at the start. */
  lemma {:induction false} RunLaws(orig: seq<Mark>, m: seq<Mark>, from: nat, i: nat)
    requires Layout(m) && PairsOk(m, i) && i <= |m| && NothingLeft(m, from, i)
    ensures |SimpleRun(m, i)| == |m| && NothingLeft(SimpleRun(m, i), from, |m|)
    ensures AllNearest(m) ==> AllNearest(SimpleRun(m, i))
    ensures Runs(orig, m) ==> Runs(orig, SimpleRun(m, i))
    decreases |m| - i
  {
    if i < |m| {
      SimpleStepOk(m, i);
      StepLaws(orig, m, from, i);
      RunLaws(orig, SimpleStep(m, i), from, i + 1);
    }
  }

  // ----- the start -----

  lemma {:induction false} FreshLaws(m: seq<Mark>)
    requires forall k | 0 <= k < |m| :: !m[k].opener
    ensures AllNearest(m) && Runs(m, m)
  {
  }
}
