/** The lines of a block, by their places in the text. */
module Lines {
  import opened Wrappers

  datatype Line = Line(beg: nat, end: nat)

  /** There is a line, and each one ends before the next begins. */
  ghost predicate LinesOk(text: string, lines: seq<Line>) {
    && |lines| > 0 && (forall j | 0 <= j < |lines| :: lines[j].beg <= lines[j].end <= |text|)
    && (forall i, j | 0 <= i < j < |lines| :: lines[i].end < lines[j].beg)
  }

  ghost predicate Ordered(lines: seq<Line>) {
    && |lines| > 0 && (forall j | 0 <= j < |lines| :: lines[j].beg <= lines[j].end)
    && (forall i, j | 0 <= i < j < |lines| :: lines[i].end < lines[j].beg)
  }

  /** The line that the place is in, or the next one if it is between two lines. */
  function LineAt(lines: seq<Line>, off: nat): (t: nat)
    ensures t <= |lines| && (t < |lines| ==> off <= lines[t].end)
    ensures forall k | 0 <= k < t :: lines[k].end < off
  {
    if lines == [] || off <= lines[0].end then 0
    else
      var t := 1 + LineAt(lines[1..], off);
      assert forall k | 0 < k < t :: lines[k] == lines[1..][k - 1];
      t
  }

  /** Halving the lines from `lo` to `hi` comes to `p` only when no other line is left. */
  predicate Alone(lo: nat, hi: nat, p: nat)
    requires lo <= p <= hi
    decreases hi - lo
  {
    var pivot := (lo + hi) / 2;
    lo == hi || (p < pivot && Alone(lo, pivot - 1, p)) || (p > pivot && Alone(pivot + 1, hi, p))
  }

  /** What is found: the line of a place that is in one, and not always the next line of a place that is not. */
  function Found(lines: seq<Line>, off: nat): Option<nat> {
    var t := LineAt(lines, off);
    if t < |lines| && (lines[t].beg <= off || Alone(0, |lines| - 1, t)) then Some(t) else None
  }

  /** How a line compares with the place, from where that is. */
  lemma {:induction false} Compare(lines: seq<Line>, off: nat, pivot: nat)
    requires Ordered(lines) && pivot < |lines|
    ensures
      var t := LineAt(lines, off);
      && (off > lines[pivot].end <==> pivot < t)
      && (off < lines[pivot].beg <==> pivot > t || (pivot == t && off < lines[t].beg))
  {
    var t := LineAt(lines, off);
    if pivot > t {
      assert lines[t].end < lines[pivot].beg;
    }
  }

  lemma {:induction false} LineAtIs(lines: seq<Line>, off: nat, p: nat)
    requires Ordered(lines) && p < |lines| && off <= lines[p].end && (p > 0 ==> lines[p - 1].end < off)
    ensures LineAt(lines, off) == p
  {
    Compare(lines, off, p);
    if p > 0 {
      Compare(lines, off, p - 1);
    }
  }

  /** The line of a place in a line; the next line of a place between two lines just if that is reached alone. */
  lemma {:induction false} FoundIs(lines: seq<Line>, off: nat, found: Option<nat>)
    requires Ordered(lines) && found == Found(lines, off)
    ensures forall k | 0 <= k < |lines| && lines[k].beg <= off <= lines[k].end :: found == Some(k)
    ensures forall p | 0 < p < |lines| && lines[p - 1].end < off < lines[p].beg ::
      found == if Alone(0, |lines| - 1, p) then Some(p) else None
    ensures off > lines[|lines| - 1].end ==> found == None
  {
    forall k | 0 <= k < |lines| && lines[k].beg <= off <= lines[k].end ensures found == Some(k) {
      assert k > 0 ==> lines[k - 1].end < lines[k].beg;
      LineAtIs(lines, off, k);
    }
    forall p | 0 < p < |lines| && lines[p - 1].end < off < lines[p].beg ensures LineAt(lines, off) == p {
      LineAtIs(lines, off, p);
    }
    Compare(lines, off, |lines| - 1);
  }

  /**
   * md_lookup_line, of a place that is not before the first line. The next line of a place between two lines is
   * meant to be found, and is found if, and only if, the halving comes to it with no other line left.
   */
  method Lookup(lines: seq<Line>, off: nat) returns (found: Option<nat>)
    requires Ordered(lines) && lines[0].beg <= off
    ensures forall k | 0 <= k < |lines| && lines[k].beg <= off <= lines[k].end :: found == Some(k)
    ensures forall p | 0 < p < |lines| && lines[p - 1].end < off < lines[p].beg ::
      found == if Alone(0, |lines| - 1, p) then Some(p) else None
    ensures off > lines[|lines| - 1].end ==> found == None
  {
    found := Halve(lines, off);
    FoundIs(lines, off, found);
  }

  /** The loop of md_lookup_line. */
  method Halve(lines: seq<Line>, off: nat) returns (found: Option<nat>)
    requires Ordered(lines) && lines[0].beg <= off
    ensures found == Found(lines, off)
  {
    ghost var t, n := LineAt(lines, off), |lines|;
    var lo: nat, hi: nat := 0, |lines| - 1;
    while lo <= hi
      invariant lo <= t <= n && hi < n
      invariant if t <= hi then Alone(lo, hi, t) == Alone(0, n - 1, t) else t == n || (off < lines[t].beg && !Alone(0, n - 1, t))
      decreases hi + 1 - lo
    {
      var pivot := (lo + hi) / 2;
      Compare(lines, off, pivot);
      Compare(lines, off, 0);
      if off < lines[pivot].beg {
        if hi > 0 {
          Compare(lines, off, hi - 1);
        }
        if hi == 0 || lines[hi - 1].end < off {
          return Some(pivot);
        }
        hi := pivot - 1;
      } else if off > lines[pivot].end {
        lo := pivot + 1;
      } else {
        return Some(pivot);
      }
    }
    found := None;
  }

  /** A place between the first and the second of three lines: nothing is found. */
  lemma {:induction false} GapIsLost()
    ensures
      var lines := [Line(0, 1), Line(3, 4), Line(6, 7)];
      Ordered(lines) && lines[0].end < 2 < lines[1].beg && Found(lines, 2) == None
  {
    var lines := [Line(0, 1), Line(3, 4), Line(6, 7)];
    LineAtIs(lines, 2, 1);
  }
}
