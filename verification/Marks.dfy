/**
 * The marks of a block whose only mark characters are '*', '_' and '~': where they stand, which of them are
 * paired, and the simple way to pair them, by looking back for the nearest opener.
 */
module Marks {

  type Mod3 = n: nat | n < 3

  datatype Mark = Mark(
    beg: nat, end: nat, prev: int, next: int, ch: char,
    canOpen: bool, canClose: bool, oc: bool, mod3: Mod3,   // potential opener, potential closer, both, length mod 3
    opener: bool, closer: bool, resolved: bool)
  {
    function Len(): int {
      end - beg
    }
  }

  const DUMMY: char := 'D'
  const SENTINEL: char := '\U{7F}'

  predicate IsEmph(ch: char) {
    ch == '*' || ch == '_'
  }

  predicate IsDelim(ch: char) {
    IsEmph(ch) || ch == '~'
  }

  // ----- layout -----

  /** The marks after `k` leave it alone, and a run of '*' or '_' has a dummy for each further character. */
  ghost predicate Room(m: seq<Mark>, k: nat)
    requires k < |m|
  {
    && m[k].beg < m[k].end
    && (IsEmph(m[k].ch) ==>
          && k + m[k].Len() < |m|
          && forall j | k < j < k + m[k].Len() :: m[j].ch == DUMMY && m[j].beg == m[k].beg + (j - k))
    && (forall j | k < j < |m| && m[j].ch != DUMMY :: m[k].end <= m[j].beg)
  }

  /** A strikethrough has one or two characters. */
  predicate Proper(x: Mark) {
    x.ch == '~' ==> x.Len() <= 2
  }

  predicate Before(m: seq<Mark>, j: int, k: int)
    requires 0 <= j < |m| && 0 <= k < |m|
  {
    m[j].beg < m[k].beg
  }

  ghost predicate Layout(m: seq<Mark>) {
    && |m| > 0 && m[|m| - 1].ch == SENTINEL && m[|m| - 1].resolved
    && (forall j, k {:trigger Before(m, j, k)} | 0 <= j < k < |m| :: Before(m, j, k))
    && (forall k | 0 <= k < |m| - 1 :: m[k].ch == DUMMY || IsDelim(m[k].ch))
    && (forall k {:trigger Room(m, k)} | 0 <= k < |m| && IsDelim(m[k].ch) :: Room(m, k))
    && (forall k {:trigger Proper(m[k])} | 0 <= k < |m| :: Proper(m[k]))
  }

  /** A change that leaves the marks where they are keeps them in order. */
  lemma {:induction false} StillBefore(m: seq<Mark>, r: seq<Mark>)
    requires |m| == |r| && forall k | 0 <= k < |m| :: r[k].beg == m[k].beg
    requires forall j, k {:trigger Before(m, j, k)} | 0 <= j < k < |m| :: Before(m, j, k)
    ensures forall j, k {:trigger Before(r, j, k)} | 0 <= j < k < |r| :: Before(r, j, k)
  {
    forall j, k | 0 <= j < k < |r| ensures Before(r, j, k) {
      assert Before(m, j, k);
    }
  }

  /** A change that touches neither extents nor characters keeps the layout. */
  lemma {:induction false} StillLaidOut(m: seq<Mark>, r: seq<Mark>)
    requires Layout(m) && |m| == |r| && r[|r| - 1].resolved
    requires forall k | 0 <= k < |m| :: r[k].beg == m[k].beg && r[k].end == m[k].end && r[k].ch == m[k].ch
    ensures Layout(r)
  {
    StillBefore(m, r);
    forall k | 0 <= k < |r| && IsDelim(r[k].ch) ensures Room(r, k) {
      assert Room(m, k);
    }
    forall k | 0 <= k < |r| ensures Proper(r[k]) {
      assert Proper(m[k]);
    }
  }

  // ----- pairs -----

  ghost predicate OpenerOk(m: seq<Mark>, i: int, o: int)
    requires 0 <= o < |m|
  {
    && m[o].resolved && !m[o].closer && IsDelim(m[o].ch) && o < m[o].next < i && m[o].next < |m|
    && m[m[o].next].closer && m[m[o].next].prev == o && m[m[o].next].ch == m[o].ch
    && m[m[o].next].Len() == m[o].Len()
  }

  ghost predicate CloserOk(m: seq<Mark>, i: int, c: int)
    requires 0 <= c < |m|
  {
    m[c].resolved && IsDelim(m[c].ch) && c < i && 0 <= m[c].prev < c && m[m[c].prev].opener && m[m[c].prev].next == c
  }

  /** Two pairs are apart or one is inside the other. */
  predicate Apart(m: seq<Mark>, a: int, b: int)
    requires 0 <= a < |m| && 0 <= b < |m|
  {
    m[a].next < b || m[b].next < m[a].next
  }

  ghost predicate NeverCross(m: seq<Mark>) {
    forall a, b {:trigger Apart(m, a, b)} | 0 <= a < b < |m| && m[a].opener && m[b].opener :: Apart(m, a, b)
  }

  /** The resolved marks below `i` form pairs of equal lengths that never cross; nothing else is resolved. */
  ghost predicate PairsOk(m: seq<Mark>, i: int) {
    && (forall o {:trigger OpenerOk(m, i, o)} | 0 <= o < |m| && m[o].opener :: OpenerOk(m, i, o))
    && (forall c {:trigger CloserOk(m, i, c)} | 0 <= c < |m| && m[c].closer :: CloserOk(m, i, c))
    && (forall k | 0 <= k < |m| - 1 && m[k].resolved :: m[k].opener || m[k].closer)
    && (forall k | 0 <= k < |m| && !m[k].resolved :: !m[k].opener && !m[k].closer)
    && NeverCross(m)
  }

  // ----- live openers -----

  /** A pair reaches across `k`. */
  predicate Enclosed(m: seq<Mark>, k: int) {
    exists o | 0 <= o < |m| :: o < k && m[o].opener && k < m[o].next
  }

  /** A potential opener before `i` that is still free. */
  predicate Live(m: seq<Mark>, i: int, k: int) {
    0 <= k < i && k < |m| && IsDelim(m[k].ch) && !m[k].resolved && m[k].canOpen && !Enclosed(m, k)
  }

  /**
   * Rules 9 and 10 of section 6.2 of the CommonMark specification, on lengths modulo 3: if one of the two runs
   * can both open and close, the lengths may add up to a multiple of 3 only if both are multiples of 3.
   */
  predicate RuleOf3(x: Mark, y: Mark) {
    x.oc || y.oc ==> (x.mod3 + y.mod3) % 3 != 0 || (x.mod3 % 3 == 0 && y.mod3 % 3 == 0)
  }

  /** Opener `x` and closer `y` may be paired. */
  predicate Matches(x: Mark, y: Mark) {
    x.ch == y.ch && if x.ch == '~' then x.Len() == y.Len() else RuleOf3(x, y)
  }

  /** Looking back from `k` for the nearest live opener that closer `c` may be paired with. */
  function LookBack(m: seq<Mark>, c: nat, k: nat): (r: int)
    requires c < |m| && k <= c
    ensures -1 <= r < k
    ensures r >= 0 ==> Live(m, c, r) && Matches(m[r], m[c])
    ensures forall j | r < j < k :: !(Live(m, c, j) && Matches(m[j], m[c]))
  {
    if k == 0 then -1
    else if Live(m, c, k - 1) && Matches(m[k - 1], m[c]) then k - 1
    else LookBack(m, c, k - 1)
  }

  // ----- pairing -----

  /** md_split_emph_mark: the last `n` characters of mark `k` become a mark of their own. */
  function Split(m: seq<Mark>, k: nat, n: nat): seq<Mark>
    requires k < |m| && 0 < n < m[k].Len() && k + m[k].Len() - n < |m|
  {
    var at := k + m[k].Len() - n;
    m[at := m[k].(beg := m[k].end - n)][k := m[k].(end := m[k].end - n)]
  }

  /** md_resolve_range */
  function Pair(m: seq<Mark>, o: nat, c: nat): seq<Mark>
    requires o < c < |m|
  {
    m[o := m[o].(next := c, opener := true, resolved := true)][c := m[c].(prev := o, closer := true, resolved := true)]
  }

  /** The longer of opener `o` and closer `c` is split, so that the inner ends are of the same length. */
  function Trim(m: seq<Mark>, o: nat, c: nat): seq<Mark>
    requires o < c < |m| && m[o].beg < m[o].end && m[c].beg < m[c].end
    requires m[o].Len() < m[c].Len() ==> c + m[o].Len() < |m|
    requires m[o].Len() > m[c].Len() ==> o + m[o].Len() - m[c].Len() < c
  {
    if m[o].Len() > m[c].Len() then Split(m, o, m[c].Len())
    else if m[o].Len() < m[c].Len() then Split(m, c, m[c].Len() - m[o].Len())
    else m
  }

  /** The index of the inner end of opener `o`. */
  function Inner(m: seq<Mark>, o: nat, c: nat): int
    requires o < |m| && c < |m|
  {
    if m[o].Len() > m[c].Len() then o + m[o].Len() - m[c].Len() else o
  }

  /** The inner ends of opener `o` and closer `c` are paired, as many characters as both have. */
  function Join(m: seq<Mark>, o: nat, c: nat): seq<Mark>
    requires o < c < |m| && m[o].beg < m[o].end && m[c].beg < m[c].end
    requires m[o].Len() < m[c].Len() ==> c + m[o].Len() < |m|
    requires m[o].Len() > m[c].Len() ==> o + m[o].Len() - m[c].Len() < c
  {
    Pair(Trim(m, o, c), Inner(m, o, c), c)
  }

  /** Runs do not overlap, so there is room for what is split off. */
  lemma {:induction false} RoomToJoin(m: seq<Mark>, o: nat, c: nat)
    requires Layout(m) && o < c < |m| && IsDelim(m[o].ch) && m[c].ch == m[o].ch
    requires m[o].ch == '~' ==> m[o].Len() == m[c].Len()
    ensures m[o].beg < m[o].end && m[c].beg < m[c].end
    ensures IsEmph(m[o].ch) ==> o + m[o].Len() <= c
    ensures m[o].Len() > m[c].Len() ==> o + m[o].Len() - m[c].Len() < c
    ensures m[o].Len() < m[c].Len() ==> c + m[o].Len() < |m|
  {
    assert Room(m, o) && Room(m, c);
    assert forall j | o < j < o + m[o].Len() :: IsEmph(m[o].ch) ==> j < |m| && m[j].ch == DUMMY;
  }

  /** The simple way to deal with mark `i`: look back. */
  ghost function SimpleStep(m: seq<Mark>, i: nat): seq<Mark>
    requires Layout(m) && i < |m|
  {
    if IsDelim(m[i].ch) && !m[i].resolved && m[i].canClose && LookBack(m, i, i) >= 0 then
      RoomToJoin(m, LookBack(m, i, i), i);
      Join(m, LookBack(m, i, i), i)
    else m
  }

  // ----- what splitting and pairing keep -----

  lemma {:induction false} SplitRoom(m: seq<Mark>, k: nat, n: nat, j: nat)
    requires Layout(m) && k < |m| && IsEmph(m[k].ch) && 0 < n < m[k].Len() && k + m[k].Len() < |m|
    requires j < |m| && IsDelim(Split(m, k, n)[j].ch)
    ensures Room(Split(m, k, n), j)
  {
    var at := k + m[k].Len() - n;
    assert Room(m, k) && Before(m, k, at);
    if j != at {
      assert Room(m, j);
    }
  }

  lemma {:induction false} SplitLayout(m: seq<Mark>, k: nat, n: nat)
    requires Layout(m) && k < |m| && IsEmph(m[k].ch) && 0 < n < m[k].Len()
    ensures k + m[k].Len() < |m| && m[k + m[k].Len() - n].ch == DUMMY && Layout(Split(m, k, n))
    ensures Split(m, k, n)[k + m[k].Len() - n].Len() == n && Split(m, k, n)[k].Len() == m[k].Len() - n
    ensures forall j | 0 <= j < |m| :: Split(m, k, n)[j].beg == m[j].beg
  {
    assert Room(m, k);
    var r := Split(m, k, n);
    assert m[k + m[k].Len() - n].ch == DUMMY;
    StillBefore(m, r);
    forall j | 0 <= j < |r| && IsDelim(r[j].ch) ensures Room(r, j) {
      SplitRoom(m, k, n, j);
    }
    forall j | 0 <= j < |r| ensures Proper(r[j]) {
      assert Proper(m[j]);
    }
  }

  lemma {:induction false} SplitPairs(m: seq<Mark>, k: nat, n: nat, i: int)
    requires k < |m| && IsDelim(m[k].ch) && 0 < n < m[k].Len() && !m[k].resolved && PairsOk(m, i)
    requires k + m[k].Len() < |m| && m[k + m[k].Len() - n].ch == DUMMY
    ensures PairsOk(Split(m, k, n), i)
    ensures forall j :: Enclosed(Split(m, k, n), j) <==> Enclosed(m, j)
  {
    var r, at := Split(m, k, n), k + m[k].Len() - n;
    DummyFree(m, i, at);
    assert forall j | 0 <= j < |m| :: r[j].opener == m[j].opener && (m[j].opener ==> r[j] == m[j]);
    SameOpeners(m, r);
    forall o | 0 <= o < |r| && r[o].opener ensures OpenerOk(r, i, o) {
      assert OpenerOk(m, i, o);
    }
    forall c | 0 <= c < |r| && r[c].closer ensures CloserOk(r, i, c) {
      assert CloserOk(m, i, c);
    }
    forall a, b | 0 <= a < b < |r| && r[a].opener && r[b].opener ensures Apart(r, a, b) {
      assert Apart(m, a, b);
    }
  }

  lemma {:induction false} SameOpeners(m: seq<Mark>, r: seq<Mark>)
    requires |m| == |r|
    requires forall j | 0 <= j < |m| :: r[j].opener == m[j].opener && (m[j].opener ==> r[j].next == m[j].next)
    ensures forall j :: Enclosed(r, j) <==> Enclosed(m, j)
  {
  }

  lemma {:induction false} DummyFree(m: seq<Mark>, i: int, k: nat)
    requires PairsOk(m, i) && k < |m| && m[k].ch == DUMMY
    ensures !m[k].opener && !m[k].closer
  {
    assert m[k].opener ==> OpenerOk(m, i, k);
    assert m[k].closer ==> CloserOk(m, i, k);
  }

  lemma {:induction false} PairPairs(m: seq<Mark>, o: nat, i: nat)
    requires PairsOk(m, i) && o < i < |m| && IsDelim(m[o].ch) && !m[o].resolved && !Enclosed(m, o)
    requires IsDelim(m[i].ch) && !m[i].resolved && m[i].ch == m[o].ch && m[i].Len() == m[o].Len()
    ensures PairsOk(Pair(m, o, i), i + 1)
  {
    var r := Pair(m, o, i);
    forall a | 0 <= a < |r| && r[a].opener ensures OpenerOk(r, i + 1, a) {
      if a != o {
        assert OpenerOk(m, i, a);
      }
    }
    forall c | 0 <= c < |r| && r[c].closer ensures CloserOk(r, i + 1, c) {
      if c != i {
        assert CloserOk(m, i, c);
      }
    }
    forall a, b | 0 <= a < b < |r| && r[a].opener && r[b].opener ensures Apart(r, a, b) {
      PairApart(m, o, i, a, b);
    }
  }

  lemma {:induction false} PairApart(m: seq<Mark>, o: nat, i: nat, a: nat, b: nat)
    requires PairsOk(m, i) && o < i < |m| && !m[o].resolved && !Enclosed(m, o) && !m[i].resolved
    requires a < b < |m| && Pair(m, o, i)[a].opener && Pair(m, o, i)[b].opener
    ensures Apart(Pair(m, o, i), a, b)
  {
    if a == o {
      assert OpenerOk(m, i, b);
    } else if b == o {
      assert OpenerOk(m, i, a) && m[a].opener && a < o;
    } else {
      assert Apart(m, a, b);
    }
  }

  lemma {:induction false} PairLayout(m: seq<Mark>, o: nat, i: nat)
    requires Layout(m) && o < i < |m| && i < |m| - 1
    ensures Layout(Pair(m, o, i))
  {
    StillLaidOut(m, Pair(m, o, i));
  }

  lemma {:induction false} PairsLater(m: seq<Mark>, i: int)
    requires PairsOk(m, i)
    ensures PairsOk(m, i + 1)
  {
    forall o | 0 <= o < |m| && m[o].opener ensures OpenerOk(m, i + 1, o) {
      assert OpenerOk(m, i, o);
    }
    forall c | 0 <= c < |m| && m[c].closer ensures CloserOk(m, i + 1, c) {
      assert CloserOk(m, i, c);
    }
  }

  /** No pair ends inside a live run. */
  lemma {:induction false} RunFree(m: seq<Mark>, i: int, o: nat, at: nat)
    requires Layout(m) && PairsOk(m, i) && Live(m, i, o) && IsEmph(m[o].ch) && o < at < o + m[o].Len()
    ensures !Enclosed(m, at)
  {
    assert Room(m, o);
    var end := o + m[o].Len();
    forall a | 0 <= a < |m| && a < at && m[a].opener ensures m[a].next <= at {
      assert OpenerOk(m, i, a);
      assert !(o < a < end);
      assert a < o && !(o < m[a].next);
    }
  }

  /** The last part of a live run is as live as the run. */
  lemma {:induction false} SplitLive(m: seq<Mark>, i: int, o: nat, n: nat)
    requires Layout(m) && PairsOk(m, i) && Live(m, i, o) && IsEmph(m[o].ch) && 0 < n < m[o].Len() && o + m[o].Len() <= i
    ensures o + m[o].Len() - n < |m|
    ensures forall j :: Live(Split(m, o, n), i, j) <==> Live(m, i, j) || j == o + m[o].Len() - n
  {
    SplitLayout(m, o, n);
    SplitPairs(m, o, n, i);
    RunFree(m, i, o, o + m[o].Len() - n);
  }

  lemma {:induction false} SplitOpener(m: seq<Mark>, o: nat, n: nat, i: nat)
    requires Layout(m) && PairsOk(m, i) && i < |m| && Live(m, i, o) && IsEmph(m[o].ch)
    requires 0 < n < m[o].Len() && o + m[o].Len() <= i
    ensures
      var r, at := Split(m, o, n), o + m[o].Len() - n;
      && Layout(r) && PairsOk(r, i) && !Enclosed(r, at) && at < i
      && r[at] == m[o].(beg := m[o].end - n) && r[i] == m[i]
  {
    SplitLayout(m, o, n);
    SplitPairs(m, o, n, i);
    RunFree(m, i, o, o + m[o].Len() - n);
  }

  lemma {:induction false} SplitCloser(m: seq<Mark>, i: nat, n: nat)
    requires Layout(m) && PairsOk(m, i) && i < |m| && !m[i].resolved && IsEmph(m[i].ch) && 0 < n < m[i].Len()
    ensures i + m[i].Len() - n < |m|
    ensures
      var r := Split(m, i, n);
      && Layout(r) && PairsOk(r, i) && (forall j :: Enclosed(r, j) <==> Enclosed(m, j))
      && r[i] == m[i].(end := m[i].end - n) && forall j | 0 <= j < i :: r[j] == m[j]
  {
    SplitLayout(m, i, n);
    SplitPairs(m, i, n, i);
  }

  lemma {:induction false} TrimLonger(m: seq<Mark>, o: nat, i: nat, r: seq<Mark>)
    requires Layout(m) && PairsOk(m, i) && i < |m| && Live(m, i, o) && !m[i].resolved && Matches(m[o], m[i])
    requires m[o].Len() > m[i].Len() > 0 && o + m[o].Len() <= i && r == Split(m, o, m[i].Len())
    ensures Ready(r, o + m[o].Len() - m[i].Len(), i)
  {
    SplitOpener(m, o, m[i].Len(), i);
  }

  lemma {:induction false} TrimShorter(m: seq<Mark>, o: nat, i: nat, r: seq<Mark>)
    requires Layout(m) && PairsOk(m, i) && i < |m| && Live(m, i, o) && !m[i].resolved && Matches(m[o], m[i])
    requires 0 < m[o].Len() < m[i].Len() && i + m[o].Len() < |m| && r == Split(m, i, m[i].Len() - m[o].Len())
    ensures Ready(r, o, i)
  {
    SplitCloser(m, i, m[i].Len() - m[o].Len());
  }

  /** After the longer one has been split, opener and closer are ready to be paired. */
  lemma {:induction false} TrimOk(m: seq<Mark>, o: nat, i: nat, r: seq<Mark>)
    requires Layout(m) && PairsOk(m, i) && i < |m| && Live(m, i, o) && !m[i].resolved && Matches(m[o], m[i])
    requires m[o].beg < m[o].end && m[i].beg < m[i].end && (IsEmph(m[o].ch) ==> o + m[o].Len() <= i)
    requires m[o].Len() > m[i].Len() ==> o + m[o].Len() - m[i].Len() < i
    requires m[o].Len() < m[i].Len() ==> i + m[o].Len() < |m|
    requires r == Trim(m, o, i)
    ensures Ready(r, Inner(m, o, i), i)
  {
    if m[o].Len() > m[i].Len() {
      TrimLonger(m, o, i, r);
    } else if m[o].Len() < m[i].Len() {
      TrimShorter(m, o, i, r);
    }
  }

  /** Pairing the inner ends of a live opener and a closer keeps the layout and the pairs in order. */
  lemma {:induction false} JoinOk(m: seq<Mark>, o: nat, i: nat)
    requires Layout(m) && PairsOk(m, i) && i < |m| && Live(m, i, o) && !m[i].resolved && Matches(m[o], m[i])
    ensures m[o].beg < m[o].end && m[i].beg < m[i].end
    ensures m[o].Len() > m[i].Len() ==> o + m[o].Len() - m[i].Len() < i
    ensures m[o].Len() < m[i].Len() ==> i + m[o].Len() < |m|
    ensures Layout(Join(m, o, i)) && PairsOk(Join(m, o, i), i + 1)
  {
    RoomToJoin(m, o, i);
    TrimOk(m, o, i, Trim(m, o, i));
    PairBoth(Trim(m, o, i), Inner(m, o, i), i);
  }

  /** Opener `o` and closer `i` are ready to be paired. */
  ghost predicate Ready(m: seq<Mark>, o: int, i: int) {
    && Layout(m) && PairsOk(m, i) && 0 <= o < i < |m| && !Enclosed(m, o) && IsDelim(m[o].ch)
    && m[o].ch == m[i].ch && m[o].Len() == m[i].Len() && !m[o].resolved && !m[i].resolved
  }

  lemma {:induction false} PairBoth(m: seq<Mark>, o: nat, i: nat)
    requires Ready(m, o, i)
    ensures Layout(Pair(m, o, i)) && PairsOk(Pair(m, o, i), i + 1)
  {
    PairLayout(m, o, i);
    PairPairs(m, o, i);
  }

  lemma {:induction false} SimpleStepOk(m: seq<Mark>, i: nat)
    requires Layout(m) && PairsOk(m, i) && i < |m|
    ensures Layout(SimpleStep(m, i)) && PairsOk(SimpleStep(m, i), i + 1) && |SimpleStep(m, i)| == |m|
  {
    PairsLater(m, i);
    if IsDelim(m[i].ch) && !m[i].resolved && m[i].canClose && LookBack(m, i, i) >= 0 {
      JoinOk(m, LookBack(m, i, i), i);
    }
  }

  /** The simple way to deal with all marks from `i` on. */
  ghost function SimpleRun(m: seq<Mark>, i: nat): (r: seq<Mark>)
    requires Layout(m) && PairsOk(m, i) && i <= |m|
    decreases |m| - i
  {
    if i == |m| then m else
    SimpleStepOk(m, i);
    SimpleRun(SimpleStep(m, i), i + 1)
  }

  // ----- where the marks come from -----

  /** `x` is a part of the run `y`, and has kept what was found out about the whole run. */
  predicate PartOf(x: Mark, y: Mark) {
    && x.ch == y.ch && y.beg <= x.beg && x.end <= y.end
    && x.canOpen == y.canOpen && x.canClose == y.canClose && x.oc == y.oc && x.mod3 == y.mod3
  }

  predicate PartOfSome(orig: seq<Mark>, x: Mark) {
    exists g | 0 <= g < |orig| :: IsDelim(orig[g].ch) && PartOf(x, orig[g])
  }

  /** Every delimiter is a part of one of the original runs. */
  ghost predicate Parts(orig: seq<Mark>, m: seq<Mark>) {
    forall k {:trigger PartOfSome(orig, m[k])} | 0 <= k < |m| && IsDelim(m[k].ch) :: PartOfSome(orig, m[k])
  }

  lemma {:induction false} PartOfPart(orig: seq<Mark>, x: Mark, y: Mark)
    requires PartOf(x, y) && PartOfSome(orig, y)
    ensures PartOfSome(orig, x)
  {
    var g :| 0 <= g < |orig| && IsDelim(orig[g].ch) && PartOf(y, orig[g]);
    assert PartOf(x, orig[g]);
  }

  lemma {:induction false} SplitParts(orig: seq<Mark>, m: seq<Mark>, k: nat, n: nat)
    requires Parts(orig, m) && k < |m| && IsDelim(m[k].ch) && 0 < n < m[k].Len() && k + m[k].Len() - n < |m|
    ensures Parts(orig, Split(m, k, n))
  {
    var r := Split(m, k, n);
    forall j | 0 <= j < |r| && IsDelim(r[j].ch) ensures PartOfSome(orig, r[j]) {
      var from := if j == k + m[k].Len() - n then k else j;
      assert PartOfSome(orig, m[from]);
      PartOfPart(orig, r[j], m[from]);
    }
  }

  lemma {:induction false} PairParts(orig: seq<Mark>, m: seq<Mark>, o: nat, c: nat)
    requires Parts(orig, m) && o < c < |m|
    ensures Parts(orig, Pair(m, o, c))
  {
    var r := Pair(m, o, c);
    forall j | 0 <= j < |r| && IsDelim(r[j].ch) ensures PartOfSome(orig, r[j]) {
      assert PartOfSome(orig, m[j]);
      PartOfPart(orig, r[j], m[j]);
    }
  }

  lemma {:induction false} StepParts(orig: seq<Mark>, m: seq<Mark>, i: nat)
    requires Layout(m) && PairsOk(m, i) && i < |m| && Parts(orig, m)
    ensures Parts(orig, SimpleStep(m, i))
  {
    if IsDelim(m[i].ch) && !m[i].resolved && m[i].canClose && LookBack(m, i, i) >= 0 {
      var o := LookBack(m, i, i);
      RoomToJoin(m, o, i);
      if m[o].Len() > m[i].Len() {
        SplitParts(orig, m, o, m[i].Len());
      } else if m[o].Len() < m[i].Len() {
        SplitParts(orig, m, i, m[i].Len() - m[o].Len());
      }
      PairParts(orig, Trim(m, o, i), Inner(m, o, i), i);
    }
  }

  /** Through all splitting and pairing every mark remains a part of its run, with the run's flags and length modulo 3. */
  lemma {:induction false} RunParts(orig: seq<Mark>, m: seq<Mark>, i: nat)
    requires Layout(m) && PairsOk(m, i) && i <= |m| && Parts(orig, m)
    ensures Parts(orig, SimpleRun(m, i))
    decreases |m| - i
  {
    if i < |m| {
      SimpleStepOk(m, i);
      StepParts(orig, m, i);
      RunParts(orig, SimpleStep(m, i), i + 1);
    }
  }

  /** What is known about a run when it is found. */
  predicate KnownRun(y: Mark) {
    y.beg < y.end && y.oc == (y.canOpen && y.canClose) && y.mod3 == y.Len() % 3
  }

  /** The rule of 3 is about the runs that the two marks come from, however they have been split since. */
  lemma {:induction false} RuleOf3IsAboutRuns(x: Mark, y: Mark, xRun: Mark, yRun: Mark)
    requires PartOf(x, xRun) && PartOf(y, yRun) && KnownRun(xRun) && KnownRun(yRun)
    ensures RuleOf3(x, y) <==>
      !(((xRun.canOpen && xRun.canClose) || (yRun.canOpen && yRun.canClose))
        && (xRun.Len() + yRun.Len()) % 3 == 0
        && !(xRun.Len() % 3 == 0 && yRun.Len() % 3 == 0))
  {
    assert (xRun.Len() + yRun.Len()) % 3 == (xRun.Len() % 3 + yRun.Len() % 3) % 3;
  }
}
