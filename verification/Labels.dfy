/**
 * Link labels: two labels match if they are equal after case folding, when white space counts as one space and
 * does not count at the ends. How they are compared, and how they are hashed.
 */
module Labels {
  import opened Sequences

  type Code = nat   // a code point
  type Label = seq<Code>

  const SPACE: Code := 32
  const BASE: nat := 2166136261

  /** The tables of white space and of case folding, and how one more code point changes a hash. */
  datatype Unicode = Unicode(isSpace: Code -> bool, fold: Code -> Label, mix: (nat, Code) -> nat)

  /** A code point that is no white space is folded to one, two or three such code points. */
  ghost predicate Sane(u: Unicode) {
    forall c {:trigger u.fold(c)} :: !u.isSpace(c) ==> 1 <= |u.fold(c)| <= 3 && SPACE !in u.fold(c)
  }

  // ----- what a text means -----

  function Skip(u: Unicode, text: Label, off: nat): (r: nat)
    requires off <= |text|
    ensures off <= r <= |text|
    decreases |text| - off
  {
    if off < |text| && u.isSpace(text[off]) then Skip(u, text, off + 1) else off
  }

  /** The folded code points from `off` on. */
  function Rest(u: Unicode, text: Label, off: nat): seq<Code>
    requires off <= |text|
    decreases |text| - off
  {
    if off == |text| then []
    else if u.isSpace(text[off]) then [SPACE] + Rest(u, text, Skip(u, text, off + 1))
    else u.fold(text[off]) + Rest(u, text, off + 1)
  }

  function Norm(u: Unicode, text: Label): seq<Code> {
    Rest(u, text, Skip(u, text, 0))
  }

  function Head(s: seq<Code>): Code {
    if s == [] then SPACE else s[0]
  }

  function Tail(s: seq<Code>): seq<Code> {
    if s == [] then [] else s[1..]
  }

  /** The first difference, where the shorter sequence goes on with spaces. */
  function PadCmp(a: seq<Code>, b: seq<Code>): int
    decreases |a| + |b|
  {
    if a == [] && b == [] then 0
    else if Head(a) != Head(b) then Head(b) - Head(a)
    else PadCmp(Tail(a), Tail(b))
  }

  predicate Solid(s: seq<Code>) {
    s != [] ==> s[|s| - 1] != SPACE
  }

  // ----- white space counts as one space, and not at all at the beginning -----

  ghost predicate Blank(u: Unicode, w: Label) {
    forall i | 0 <= i < |w| :: u.isSpace(w[i])
  }

  /** `text` from its first code point on that is no white space. */
  function Stripped(u: Unicode, text: Label): Label {
    text[Skip(u, text, 0)..]
  }

  function Folded(u: Unicode, text: Label): seq<Code> {
    Rest(u, text, 0)
  }

  lemma {:induction false} SkipFrom(u: Unicode, text: Label, off: nat, x: nat)
    requires off <= x <= |text|
    ensures Skip(u, text, x) == off + Skip(u, text[off..], x - off)
    decreases |text| - x
  {
    if x < |text| {
      SkipFrom(u, text, off, x + 1);
    }
  }

  lemma {:induction false} RestFrom(u: Unicode, text: Label, off: nat, x: nat)
    requires off <= x <= |text|
    ensures Rest(u, text, x) == Rest(u, text[off..], x - off)
    decreases |text| - x
  {
    if x < |text| {
      SkipFrom(u, text, off, x + 1);
      RestFrom(u, text, off, x + 1);
      RestFrom(u, text, off, Skip(u, text, x + 1));
    }
  }

  lemma {:induction false} NormIsFolded(u: Unicode, text: Label)
    ensures Norm(u, text) == Folded(u, Stripped(u, text))
  {
    RestFrom(u, text, Skip(u, text, 0), Skip(u, text, 0));
  }

  lemma {:induction false} StrippedStep(u: Unicode, text: Label)
    requires text != []
    ensures Stripped(u, text) == if u.isSpace(text[0]) then Stripped(u, text[1..]) else text
  {
    SkipFrom(u, text, 1, 1);
  }

  lemma {:induction false} FoldedStep(u: Unicode, text: Label)
    requires text != []
    ensures Folded(u, text) ==
      if u.isSpace(text[0]) then [SPACE] + Folded(u, Stripped(u, text[1..])) else u.fold(text[0]) + Folded(u, text[1..])
  {
    RestFrom(u, text, 1, 1);
    SkipFrom(u, text, 1, 1);
    var next := Skip(u, text, 1);
    RestFrom(u, text, next, next);
    assert text[next..] == text[1..][next - 1..];
  }

  lemma {:induction false} StrippedBlank(u: Unicode, w: Label, text: Label)
    requires Blank(u, w)
    ensures Stripped(u, w + text) == Stripped(u, text)
  {
    hide Stripped;
    if w == [] {
      assert w + text == text;
    } else {
      StrippedStep(u, w + text);
      assert (w + text)[1..] == w[1..] + text;
      StrippedBlank(u, w[1..], text);
    }
  }

  lemma {:induction false} SameFolded(u: Unicode, a: Label, w: Label, v: Label, b: Label)
    requires w != [] && v != [] && Blank(u, w) && Blank(u, v)
    ensures Folded(u, a + (w + b)) == Folded(u, a + (v + b))
    ensures Folded(u, Stripped(u, a + (w + b))) == Folded(u, Stripped(u, a + (v + b)))
    decreases |a|
  {
    hide Stripped, Folded;
    var x, y := a + (w + b), a + (v + b);
    FoldedStep(u, x);
    FoldedStep(u, y);
    if a == [] {
      assert x == w + b && y == v + b && x[1..] == w[1..] + b && y[1..] == v[1..] + b;
      StrippedBlank(u, w[1..], b);
      StrippedBlank(u, v[1..], b);
      StrippedBlank(u, w, b);
      StrippedBlank(u, v, b);
    } else {
      assert x[1..] == a[1..] + (w + b) && y[1..] == a[1..] + (v + b);
      StrippedStep(u, x);
      StrippedStep(u, y);
      SameFolded(u, a[1..], w, v, b);
    }
  }

  /** Inside a label it does not matter what white space there is, and how much. */
  lemma {:induction false} SpaceIsSpace(u: Unicode, a: Label, w: Label, v: Label, b: Label)
    requires w != [] && v != [] && Blank(u, w) && Blank(u, v)
    ensures Norm(u, a + w + b) == Norm(u, a + v + b)
  {
    hide Norm, Stripped, Folded;
    assert a + w + b == a + (w + b) && a + v + b == a + (v + b);
    NormIsFolded(u, a + w + b);
    NormIsFolded(u, a + v + b);
    SameFolded(u, a, w, v, b);
  }

  /** White space at the beginning of a label does not count. */
  lemma {:induction false} SpaceInFront(u: Unicode, w: Label, a: Label)
    requires Blank(u, w)
    ensures Norm(u, w + a) == Norm(u, a)
  {
    hide Norm, Stripped, Folded;
    NormIsFolded(u, w + a);
    NormIsFolded(u, a);
    StrippedBlank(u, w, a);
  }

  // ----- the rest of what a label means -----

  lemma {:induction false} FoldedConcat(u: Unicode, a: Label, t: Label)
    requires a != [] && !u.isSpace(a[|a| - 1])
    ensures Folded(u, a + t) == Folded(u, a) + Folded(u, t)
    ensures Stripped(u, a + t) == Stripped(u, a) + t && Stripped(u, a) != []
    ensures Folded(u, Stripped(u, a) + t) == Folded(u, Stripped(u, a)) + Folded(u, t)
    decreases |a|
  {
    hide Stripped, Folded;
    assert (a + t)[1..] == a[1..] + t;
    FoldedStep(u, a + t);
    FoldedStep(u, a);
    StrippedStep(u, a + t);
    StrippedStep(u, a);
    if |a| == 1 {
      assert a[1..] == [] && [] + t == t;
      FoldedNone(u);
    } else {
      FoldedConcat(u, a[1..], t);
    }
    if u.isSpace(a[0]) {
      Assoc([SPACE], Folded(u, Stripped(u, a[1..])), Folded(u, t));
    } else {
      Assoc(u.fold(a[0]), Folded(u, a[1..]), Folded(u, t));
    }
  }

  lemma {:induction false} FoldedNone(u: Unicode)
    ensures Folded(u, []) == []
  {
  }

  /** A label is folded piece by piece, where there is no white space between the pieces. */
  lemma {:induction false} NormConcat(u: Unicode, a: Label, b: Label)
    requires a != [] && !u.isSpace(a[|a| - 1]) && b != [] && !u.isSpace(b[0])
    ensures Norm(u, a + b) == Norm(u, a) + Norm(u, b)
  {
    hide Norm, Stripped, Folded;
    NormIsFolded(u, a + b);
    NormIsFolded(u, a);
    NormIsFolded(u, b);
    FoldedConcat(u, a, b);
    StrippedStep(u, b);
  }

  /** White space between two pieces is one space. */
  lemma {:induction false} NormSpace(u: Unicode, a: Label, w: Label, b: Label)
    requires a != [] && !u.isSpace(a[|a| - 1]) && w != [] && Blank(u, w)
    ensures Norm(u, a + (w + b)) == Norm(u, a) + [SPACE] + Norm(u, b)
  {
    hide Norm, Stripped, Folded;
    NormIsFolded(u, a + (w + b));
    NormIsFolded(u, a);
    NormIsFolded(u, b);
    FoldedConcat(u, a, w + b);
    FoldedStep(u, w + b);
    assert (w + b)[1..] == w[1..] + b;
    StrippedBlank(u, w[1..], b);
    Assoc(Norm(u, a), [SPACE], Norm(u, b));
  }

  /** A code point that is no white space is what it is folded to. */
  lemma {:induction false} NormOne(u: Unicode, c: Code)
    requires !u.isSpace(c)
    ensures Norm(u, [c]) == u.fold(c) && Norm(u, []) == []
  {
    hide Norm, Stripped, Folded;
    NormIsFolded(u, [c]);
    StrippedStep(u, [c]);
    FoldedStep(u, [c]);
    assert [c][1..] == [];
    FoldedNone(u);
    NormIsFolded(u, []);
    NothingStripped(u);
  }

  lemma {:induction false} NothingStripped(u: Unicode)
    ensures Stripped(u, []) == []
  {
  }

  /** Code points that are folded alike. */
  ghost predicate FoldAlike(u: Unicode, x: Label, y: Label) {
    |x| == |y| && forall i | 0 <= i < |x| ::
      x[i] == y[i] || (!u.isSpace(x[i]) && !u.isSpace(y[i]) && u.fold(x[i]) == u.fold(y[i]))
  }

  lemma {:induction false} FoldAlikeFolded(u: Unicode, x: Label, y: Label)
    requires FoldAlike(u, x, y)
    ensures Folded(u, x) == Folded(u, y) && Folded(u, Stripped(u, x)) == Folded(u, Stripped(u, y))
    decreases |x|
  {
    hide Stripped, Folded;
    if x == [] {
      assert x == y;
    } else {
      FoldedStep(u, x);
      FoldedStep(u, y);
      StrippedStep(u, x);
      StrippedStep(u, y);
      FoldAlikeFolded(u, x[1..], y[1..]);
    }
  }

  /** `x` and `y` have white space, of any kind and length, between the same pieces. */
  ghost predicate SpacedAlike(u: Unicode, x: Label, y: Label) {
    exists a: Label, w: Label, v: Label, b: Label | w != [] && v != [] && Blank(u, w) && Blank(u, v) ::
      x == a + w + b && y == a + v + b
  }

  /** `y` is `x` without white space at the beginning. */
  ghost predicate Dedented(u: Unicode, x: Label, y: Label) {
    exists w | Blank(u, w) :: x == w + y
  }

  /** The labels differ in white space before or between other characters, or in case. */
  ghost predicate Alike(u: Unicode, x: Label, y: Label) {
    SpacedAlike(u, x, y) || Dedented(u, x, y) || Dedented(u, y, x) || FoldAlike(u, x, y)
  }

  /** Such labels mean the same. */
  lemma {:induction false} AlikeMeansSame(u: Unicode, x: Label, y: Label)
    requires Alike(u, x, y)
    ensures Norm(u, x) == Norm(u, y)
  {
    hide Norm;
    if SpacedAlike(u, x, y) {
      var a: Label, w: Label, v: Label, b: Label :|
        w != [] && v != [] && Blank(u, w) && Blank(u, v) && x == a + w + b && y == a + v + b;
      SpaceIsSpace(u, a, w, v, b);
    } else if Dedented(u, x, y) {
      var w :| Blank(u, w) && x == w + y;
      SpaceInFront(u, w, y);
    } else if Dedented(u, y, x) {
      var w :| Blank(u, w) && y == w + x;
      SpaceInFront(u, w, x);
    } else {
      NormIsFolded(u, x);
      NormIsFolded(u, y);
      FoldAlikeFolded(u, x, y);
    }
  }

  // ----- the order of labels -----

  lemma {:induction false} PadSym(a: seq<Code>, b: seq<Code>)
    ensures PadCmp(a, b) == -PadCmp(b, a)
    decreases |a| + |b|
  {
    if a != [] || b != [] {
      PadSym(Tail(a), Tail(b));
    }
  }

  lemma {:induction false} PadTrans(a: seq<Code>, b: seq<Code>, c: seq<Code>)
    requires PadCmp(a, b) <= 0 && PadCmp(b, c) <= 0
    ensures PadCmp(a, c) <= 0
    ensures PadCmp(a, c) == 0 ==> PadCmp(a, b) == 0 && PadCmp(b, c) == 0
    decreases |a| + |b| + |c|
  {
    if (a != [] || b != [] || c != []) && Head(a) == Head(b) == Head(c) {
      Unfold(a, b);
      Unfold(b, c);
      Unfold(a, c);
      PadTrans(Tail(a), Tail(b), Tail(c));
    } else {
      Unfold(a, b);
      Unfold(b, c);
      Unfold(a, c);
    }
  }

  /** One step of the comparison, also when both sequences are at their end. */
  lemma {:induction false} Unfold(a: seq<Code>, b: seq<Code>)
    ensures PadCmp(a, b) == if Head(a) != Head(b) then Head(b) - Head(a) else PadCmp(Tail(a), Tail(b))
  {
    if a == [] && b == [] {
      assert PadCmp([], []) == 0;
    }
  }

  lemma {:induction false} OnlySpaces(s: seq<Code>)
    requires PadCmp([], s) == 0
    ensures forall i | 0 <= i < |s| :: s[i] == SPACE
  {
    if s != [] {
      OnlySpaces(s[1..]);
      assert s == [s[0]] + s[1..];
    }
  }

  /** Labels without white space at the end match only if they are folded to the same code points. */
  lemma {:induction false} PadZero(a: seq<Code>, b: seq<Code>)
    requires PadCmp(a, b) == 0 && Solid(a) && Solid(b)
    ensures a == b
  {
    if a == [] {
      OnlySpaces(b);
    } else if b == [] {
      PadSym(a, b);
      OnlySpaces(a);
    } else {
      assert Solid(a[1..]) && Solid(b[1..]);
      PadZero(a[1..], b[1..]);
      assert a == [a[0]] + a[1..] && b == [b[0]] + b[1..];
    }
  }

  /** All labels that match the same one match each other; those without white space at the end are the same. */
  lemma {:induction false} MatchBoth(a: seq<Code>, b: seq<Code>, key: seq<Code>)
    requires PadCmp(a, key) == 0 && PadCmp(b, key) == 0 && Solid(a) && Solid(b)
    ensures a == b
  {
    PadSym(b, key);
    PadTrans(a, key, b);
    PadSym(a, key);
    PadTrans(b, key, a);
    PadSym(a, b);
    PadZero(a, b);
  }

  lemma {:induction false} PadSelf(a: seq<Code>)
    ensures PadCmp(a, a) == 0
  {
    PadSym(a, a);
  }

  lemma {:induction false} RestSolid(u: Unicode, text: Label, off: nat)
    requires Sane(u) && off < |text| && !u.isSpace(text[|text| - 1])
    ensures Rest(u, text, off) != [] && Solid(Rest(u, text, off))
    decreases |text| - off
  {
    if u.isSpace(text[off]) {
      var next := Skip(u, text, off + 1);
      SkipStops(u, text, off + 1);
      RestSolid(u, text, next);
    } else {
      var f := u.fold(text[off]);
      assert f[|f| - 1] in f;
      if off + 1 < |text| {
        RestSolid(u, text, off + 1);
      }
    }
  }

  lemma {:induction false} SkipStops(u: Unicode, text: Label, off: nat)
    requires off < |text| && !u.isSpace(text[|text| - 1])
    ensures Skip(u, text, off) < |text|
    decreases |text| - off
  {
    if u.isSpace(text[off]) {
      SkipStops(u, text, off + 1);
    }
  }

  /** A label that does not end with white space. */
  predicate Trimmed(u: Unicode, text: Label) {
    text != [] ==> !u.isSpace(text[|text| - 1])
  }

  lemma {:induction false} TrimmedIsSolid(u: Unicode, text: Label)
    requires Sane(u) && Trimmed(u, text)
    ensures Solid(Norm(u, text))
  {
    if text != [] {
      SkipStops(u, text, 0);
      RestSolid(u, text, Skip(u, text, 0));
    }
  }

  // ----- the hash -----

  function HashOf(u: Unicode, h: nat, s: seq<Code>): nat
    decreases |s|
  {
    if s == [] then h else HashOf(u, u.mix(h, s[0]), s[1..])
  }

  lemma {:induction false} HashMore(u: Unicode, h: nat, s: seq<Code>, t: seq<Code>)
    ensures HashOf(u, h, s + t) == HashOf(u, HashOf(u, h, s), t)
    decreases |s|
  {
    if s == [] {
      assert s + t == t;
    } else {
      assert (s + t)[1..] == s[1..] + t;
      HashMore(u, u.mix(h, s[0]), s[1..], t);
    }
  }

  /** md_skip_unicode_whitespace */
  method SkipSpace(u: Unicode, text: Label, beg: nat) returns (off: nat)
    requires beg <= |text|
    ensures off == Skip(u, text, beg)
  {
    off := beg;
    while off < |text| && u.isSpace(text[off])
      invariant off <= |text| && Skip(u, text, off) == Skip(u, text, beg)
    {
      off := off + 1;
    }
  }

  /** md_fnv1a, over some code points. */
  method Fnv1a(u: Unicode, base: nat, codes: seq<Code>) returns (hash: nat)
    ensures hash == HashOf(u, base, codes)
  {
    hash := base;
    for i := 0 to |codes|
      invariant HashOf(u, hash, codes[i..]) == HashOf(u, base, codes)
    {
      hash := u.mix(hash, codes[i]);
      assert codes[i..][1..] == codes[i + 1..];
    }
  }

  /** md_link_label_hash: labels that are folded to the same code points have the same hash. */
  method LabelHash(u: Unicode, text: Label) returns (hash: nat)
    ensures hash == HashOf(u, BASE, Norm(u, text))
  {
    hash := BASE;
    var off: nat := SkipSpace(u, text, 0);
    while off < |text|
      invariant off <= |text| && HashOf(u, hash, Rest(u, text, off)) == HashOf(u, BASE, Norm(u, text))
    {
      ghost var before := hash;
      if u.isSpace(text[off]) {
        hash := Fnv1a(u, hash, [SPACE]);
        HashMore(u, before, [SPACE], Rest(u, text, Skip(u, text, off + 1)));
        off := SkipSpace(u, text, off);
      } else {
        hash := Fnv1a(u, hash, u.fold(text[off]));
        HashMore(u, before, u.fold(text[off]), Rest(u, text, off + 1));
        off := off + 1;
      }
    }
  }

  /** md_link_label_cmp_load_fold_info: the next folded code points; the end counts as a space. */
  method LoadFold(u: Unicode, text: Label, off: nat) returns (fold: seq<Code>, next: nat)
    requires Sane(u) && off <= |text|
    ensures next <= |text| && fold != [] && (off == |text| ==> next == off)
    ensures
      fold + Rest(u, text, next) == if off == |text| then [SPACE] else Rest(u, text, off)
    ensures off < |text| ==> next > off
  {
    if off >= |text| {
      next := SkipSpace(u, text, off);
      return [SPACE], next;
    }
    if u.isSpace(text[off]) {
      next := SkipSpace(u, text, off + 1);
      return [SPACE], next;
    }
    return u.fold(text[off]), off + 1;
  }

  /** md_link_label_cmp: what is left of both labels compares as the whole labels do. */
  method LabelCmp(u: Unicode, a: Label, b: Label) returns (cmp: int)
    requires Sane(u)
    ensures cmp == PadCmp(Norm(u, a), Norm(u, b)) && (Alike(u, a, b) ==> cmp == 0)
  {
    AlikeMatch(u, a, b);
    var aFold, bFold: Label := [], [];
    var aOff: nat := SkipSpace(u, a, 0);
    var bOff: nat := SkipSpace(u, b, 0);
    ghost var restA, restB := Norm(u, a), Norm(u, b);
    while aOff < |a| || aFold != [] || bOff < |b| || bFold != []
      invariant aOff <= |a| && bOff <= |b|
      invariant restA == aFold + Rest(u, a, aOff) && restB == bFold + Rest(u, b, bOff)
      invariant PadCmp(restA, restB) == PadCmp(Norm(u, a), Norm(u, b))
      decreases |a| - aOff + |b| - bOff, |aFold| + |bFold|
    {
      ghost var headA, headB := Head(restA), Head(restB);
      if aFold == [] {
        aFold, aOff := LoadFold(u, a, aOff);
      }
      if bFold == [] {
        bFold, bOff := LoadFold(u, b, bOff);
      }
      Unfold(restA, restB);
      Loaded(restA, aFold, Rest(u, a, aOff));
      Loaded(restB, bFold, Rest(u, b, bOff));
      cmp := bFold[0] as int - aFold[0] as int;
      if cmp != 0 {
        return;
      }
      aFold, bFold := aFold[1..], bFold[1..];
      restA, restB := Tail(restA), Tail(restB);
    }
    return 0;
  }

  lemma {:induction false} AlikeMatch(u: Unicode, a: Label, b: Label)
    ensures Alike(u, a, b) ==> PadCmp(Norm(u, a), Norm(u, b)) == 0
  {
    if Alike(u, a, b) {
      AlikeMeansSame(u, a, b);
      PadSelf(Norm(u, a));
    }
  }

  lemma {:induction false} Loaded(rest: seq<Code>, fold: seq<Code>, more: seq<Code>)
    requires fold != [] && (rest == fold + more || (rest == [] && fold + more == [SPACE]))
    ensures Head(rest) == fold[0] && Tail(rest) == fold[1..] + more
  {
  }
}
