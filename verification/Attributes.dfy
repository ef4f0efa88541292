/**
 * Attributes of links and code blocks: the raw text, without its backslashes, in pieces that are plain text, entities
 * or NUL characters.
 */
module Attributes {
  import opened Sequences

  datatype PieceKind = Normal | Entity | NullChar

  /** The text and its pieces: where each begins, and in the end the size. */
  datatype Attribute = Attribute(text: string, kinds: seq<PieceKind>, offsets: seq<nat>)

  predicate IsPunct(c: char) {
    '!' <= c <= '/' || ':' <= c <= '@' || '[' <= c <= '`' || '{' <= c <= '~'
  }

  predicate IsNewline(c: char) {
    c == '\r' || c == '\n'
  }

  /** md_is_entity_str: where the entity ends that begins at some place, or a place not behind it. */
  type EntityEnd = (string, nat) -> nat

  predicate EntityAt(end: EntityEnd, raw: string, i: nat) {
    i < |raw| && raw[i] == '&' && i < end(raw, i) <= |raw|
  }

  /** A backslash that takes the meaning of the next character away. */
  predicate EscapeAt(raw: string, i: nat, escapes: bool) {
    escapes && i + 1 < |raw| && raw[i] == '\\' && (IsPunct(raw[i + 1]) || IsNewline(raw[i + 1]))
  }

  predicate IsSpecial(c: char) {
    c == '\\' || c == '&' || c == '\0'
  }

  // ----- what an attribute says -----

  datatype Token = Plain(c: char) | EntityText(s: string) | Nul

  function PlainText(s: string): seq<Token> {
    if s == "" then [] else PlainText(s[..|s| - 1]) + [Plain(s[|s| - 1])]
  }

  /** The raw text from `i` on, token by token. */
  function Tokens(end: EntityEnd, escapes: bool, raw: string, i: nat): seq<Token>
    requires i <= |raw|
    decreases |raw| - i
  {
    if i == |raw| then []
    else if raw[i] == '\0' then [Nul] + Tokens(end, escapes, raw, i + 1)
    else if EntityAt(end, raw, i) then [EntityText(raw[i..end(raw, i)])] + Tokens(end, escapes, raw, end(raw, i))
    else if EscapeAt(raw, i, escapes) then [Plain(raw[i + 1])] + Tokens(end, escapes, raw, i + 2)
    else [Plain(raw[i])] + Tokens(end, escapes, raw, i + 1)
  }

  /** What a reader makes of one piece. */
  function PieceTokens(kind: PieceKind, s: string): seq<Token> {
    match kind
    case Normal => PlainText(s)
    case Entity => [EntityText(s)]
    case NullChar => [Nul]
  }

  /** There is an offset for each piece, and one more. */
  predicate Shaped(a: Attribute) {
    && |a.offsets| == |a.kinds| + 1 && a.offsets[0] == 0 && a.offsets[|a.kinds|] == |a.text|
    && (forall i, j | 0 <= i < j < |a.offsets| :: a.offsets[i] <= a.offsets[j])
  }

  /** What a reader makes of the first `n` pieces. */
  function Read(a: Attribute, n: nat): seq<Token>
    requires Shaped(a) && n <= |a.kinds|
  {
    if n == 0 then []
    else Read(a, n - 1) + PieceTokens(a.kinds[n - 1], a.text[a.offsets[n - 1]..a.offsets[n]])
  }

  /** No piece is empty, and plain text is never split. */
  ghost predicate Wellformed(a: Attribute) {
    && Shaped(a) && (forall i, j | 0 <= i < j < |a.offsets| :: a.offsets[i] < a.offsets[j])
    && (forall i, j | 0 <= i < j < |a.kinds| && j == i + 1 :: a.kinds[i] != Normal || a.kinds[j] != Normal)
  }

  // ----- building -----

  /** md_build_attr_append_substr, and what is copied behind it. */
  function AddPiece(a: Attribute, kind: PieceKind, s: string): Attribute {
    Attribute(a.text + s, a.kinds + [kind], a.offsets + [|a.text| + |s|])
  }

  function MoreText(a: Attribute, s: string): Attribute
    requires a.offsets != []
  {
    Attribute(a.text + s, a.kinds, a.offsets[|a.offsets| - 1 := |a.text| + |s|])
  }

  predicate EndsNormal(a: Attribute) {
    a.kinds != [] && a.kinds[|a.kinds| - 1] == Normal
  }

  lemma {:induction false} AddPieceKeeps(a: Attribute, kind: PieceKind, s: string)
    requires Wellformed(a) && s != "" && (kind == Normal ==> !EndsNormal(a))
    ensures Wellformed(AddPiece(a, kind, s))
  {
  }

  lemma {:induction false} AddPieceReads(a: Attribute, kind: PieceKind, s: string)
    requires Shaped(a) && Shaped(AddPiece(a, kind, s))
    ensures Read(AddPiece(a, kind, s), |a.kinds| + 1) == Read(a, |a.kinds|) + PieceTokens(kind, s)
  {
    var b, n := AddPiece(a, kind, s), |a.kinds|;
    assert b.kinds[..n] == a.kinds[..n] && b.offsets[..n + 1] == a.offsets[..n + 1];
    assert b.text[..|a.text|] == a.text[..|a.text|];
    ReadSame(a, b, n);
    assert b.text[b.offsets[n]..b.offsets[n + 1]] == s;
  }

  lemma {:induction false} ReadSame(a: Attribute, b: Attribute, n: nat)
    requires Shaped(a) && Shaped(b) && n <= |a.kinds| && n <= |b.kinds|
    requires a.kinds[..n] == b.kinds[..n] && a.offsets[..n + 1] == b.offsets[..n + 1]
    requires a.offsets[n] <= |a.text| && a.offsets[n] <= |b.text| && a.text[..a.offsets[n]] == b.text[..a.offsets[n]]
    ensures Read(a, n) == Read(b, n)
  {
    if n > 0 {
      var m := n - 1;
      assert a.kinds[..n][m] == b.kinds[..n][m] && a.kinds[..n][..m] == b.kinds[..n][..m];
      assert a.offsets[..n + 1][m] == b.offsets[..n + 1][m] && a.offsets[..n + 1][n] == b.offsets[..n + 1][n];
      assert a.offsets[..n + 1][..n] == a.offsets[..n] && b.offsets[..n + 1][..n] == b.offsets[..n];
      var lo, hi := a.offsets[m], a.offsets[n];
      assert a.text[..hi][..lo] == a.text[..lo] && b.text[..hi][..lo] == b.text[..lo];
      assert a.text[lo..hi] == a.text[..hi][lo..] && b.text[lo..hi] == b.text[..hi][lo..];
      ReadSame(a, b, m);
    }
  }

  lemma {:induction false} MoreTextKeeps(a: Attribute, c: char)
    requires Wellformed(a) && EndsNormal(a)
    ensures Wellformed(MoreText(a, [c]))
  {
  }

  lemma {:induction false} MoreTextReads(a: Attribute, c: char)
    requires Shaped(a) && EndsNormal(a) && Shaped(MoreText(a, [c]))
    ensures Read(MoreText(a, [c]), |a.kinds|) == Read(a, |a.kinds|) + [Plain(c)]
  {
    hide PlainText, Read;
    var b, n := MoreText(a, [c]), |a.kinds|;
    assert a.offsets[..n] == b.offsets[..n];
    var lo := a.offsets[n - 1];
    assert a.text[..lo] == b.text[..lo];
    ReadSame(a, b, n - 1);
    ReadLast(a, n);
    ReadLast(b, n);
    PlainTextLast(a.text[lo..a.offsets[n]], c);
    assert b.text[lo..b.offsets[n]] == a.text[lo..a.offsets[n]] + [c];
  }

  lemma {:induction false} ReadLast(a: Attribute, n: nat)
    requires Shaped(a) && 0 < n <= |a.kinds|
    ensures Read(a, n) == Read(a, n - 1) + PieceTokens(a.kinds[n - 1], a.text[a.offsets[n - 1]..a.offsets[n]])
  {
  }

  lemma {:induction false} PlainTextLast(s: string, c: char)
    ensures PlainText(s + [c]) == PlainText(s) + [Plain(c)]
  {
    assert (s + [c])[..|s|] == s;
  }

  function Nothing(): Attribute {
    Attribute("", [], [0])
  }

  /** All the pieces say what the raw text says up to `i`. */
  ghost predicate SaysUpTo(a: Attribute, end: EntityEnd, escapes: bool, raw: string, i: nat) {
    && i <= |raw| && Wellformed(a) && |a.text| <= i
    && Read(a, |a.kinds|) + Tokens(end, escapes, raw, i) == Tokens(end, escapes, raw, 0)
  }

  /** One more token. */
  lemma {:induction false} NextSays(a: Attribute, b: Attribute, end: EntityEnd, escapes: bool, raw: string, i: nat, j: nat, t: Token)
    requires SaysUpTo(a, end, escapes, raw, i) && Wellformed(b) && j <= |raw| && |b.text| <= j
    requires Tokens(end, escapes, raw, i) == [t] + Tokens(end, escapes, raw, j)
    requires Read(b, |b.kinds|) == Read(a, |a.kinds|) + [t]
    ensures SaysUpTo(b, end, escapes, raw, j)
  {
    hide Tokens, Read;
    var before, rest := Read(a, |a.kinds|), Tokens(end, escapes, raw, j);
    assert before + [t] + rest == before + ([t] + rest);
  }

  /** md_build_attribute, where there is a backslash, an ampersand or a NUL character. */
  method BuildGeneral(end: EntityEnd, escapes: bool, raw: string) returns (a: Attribute)
    ensures Says(a, end, escapes, raw) && |a.text| <= |raw|
  {
    a := Nothing();
    var i: nat := 0;
    while i < |raw|
      invariant SaysUpTo(a, end, escapes, raw, i)
      decreases |raw| - i
    {
      a, i := NextPiece(end, escapes, raw, a, i);
    }
  }

  method NextPiece(end: EntityEnd, escapes: bool, raw: string, a: Attribute, i: nat) returns (b: Attribute, j: nat)
    requires SaysUpTo(a, end, escapes, raw, i) && i < |raw|
    ensures i < j && SaysUpTo(b, end, escapes, raw, j)
  {
    if raw[i] == '\0' {
      j := i + 1;
      b := AddPiece(a, NullChar, raw[i..j]);
      SaysPiece(a, end, escapes, raw, i, j, NullChar, Nul);
    } else if EntityAt(end, raw, i) {
      j := end(raw, i);
      b := AddPiece(a, Entity, raw[i..j]);
      SaysPiece(a, end, escapes, raw, i, j, Entity, EntityText(raw[i..j]));
    } else {
      b, j := NextChar(end, escapes, raw, a, i);
    }
  }

  method NextChar(end: EntityEnd, escapes: bool, raw: string, a: Attribute, i: nat) returns (b: Attribute, j: nat)
    requires SaysUpTo(a, end, escapes, raw, i) && i < |raw| && raw[i] != '\0' && !EntityAt(end, raw, i)
    ensures i < j && SaysUpTo(b, end, escapes, raw, j)
  {
    hide PlainText, Read, Tokens;
    var at: nat := if EscapeAt(raw, i, escapes) then i + 1 else i;
    j := at + 1;
    b := AddChar(a, raw[at]);
    PlainToken(end, escapes, raw, i);
    NextSays(a, b, end, escapes, raw, i, j, Plain(raw[at]));
  }

  lemma {:induction false} PlainToken(end: EntityEnd, escapes: bool, raw: string, i: nat)
    requires i < |raw| && raw[i] != '\0' && !EntityAt(end, raw, i)
    ensures
      var at := if EscapeAt(raw, i, escapes) then i + 1 else i;
      at < |raw| && Tokens(end, escapes, raw, i) == [Plain(raw[at])] + Tokens(end, escapes, raw, at + 1)
  {
  }

  lemma {:induction false} SaysPiece(a: Attribute, end: EntityEnd, escapes: bool, raw: string, i: nat, j: nat, kind: PieceKind, t: Token)
    requires SaysUpTo(a, end, escapes, raw, i) && i < j <= |raw| && kind != Normal && PieceTokens(kind, raw[i..j]) == [t]
    requires Tokens(end, escapes, raw, i) == [t] + Tokens(end, escapes, raw, j)
    ensures SaysUpTo(AddPiece(a, kind, raw[i..j]), end, escapes, raw, j)
  {
    AddPieceKeeps(a, kind, raw[i..j]);
    AddPieceReads(a, kind, raw[i..j]);
    NextSays(a, AddPiece(a, kind, raw[i..j]), end, escapes, raw, i, j, t);
  }

  /** A character comes to the last piece of plain text, or begins one. */
  method AddChar(a: Attribute, c: char) returns (b: Attribute)
    requires Wellformed(a)
    ensures Wellformed(b) && Read(b, |b.kinds|) == Read(a, |a.kinds|) + [Plain(c)] && |b.text| == |a.text| + 1
  {
    if EndsNormal(a) {
      b := MoreText(a, [c]);
      MoreTextKeeps(a, c);
      MoreTextReads(a, c);
    } else {
      b := AddPiece(a, Normal, [c]);
      AddPieceKeeps(a, Normal, [c]);
      AddPieceReads(a, Normal, [c]);
      assert PlainText([c]) == [Plain(c)] by {
        assert [c][..0] == "";
      }
    }
  }

  /** md_build_attribute: raw text without special characters is a single piece, even if it is empty. */
  method Build(end: EntityEnd, escapes: bool, raw: string) returns (a: Attribute)
    ensures if raw != "" then Says(a, end, escapes, raw) else a == Attribute("", [Normal], [0, 0])
    ensures |a.text| <= |raw|
    ensures forall i | 0 <= i < |raw| && (forall k | 0 <= k < i :: !IsSpecial(raw[k])) && EntityAt(end, raw, i) ::
      Shaped(a) && HasPiece(a, Entity, raw[i..end(raw, i)])
  {
    var i := 0;
    while i < |raw| && !IsSpecial(raw[i])
      invariant i <= |raw| && forall k | 0 <= k < i :: !IsSpecial(raw[k])
    {
      i := i + 1;
    }
    if i == |raw| {
      a := Attribute(raw, [Normal], [0, |raw|]);
      PlainTokens(end, escapes, raw, 0);
      assert raw[0..] == raw == raw[0..|raw|];
      assert Read(a, 0) + PlainText(raw) == PlainText(raw);
    } else {
      a := BuildGeneral(end, escapes, raw);
    }
    if raw != "" {
      forall i | 0 <= i < |raw| && (forall k | 0 <= k < i :: !IsSpecial(raw[k])) && EntityAt(end, raw, i)
        ensures HasPiece(a, Entity, raw[i..end(raw, i)])
      {
        EntityIsPiece(a, end, escapes, raw, i);
      }
    }
  }

  lemma {:induction false} PlainTextMore(s: string, t: string)
    ensures PlainText(s + t) == PlainText(s) + PlainText(t)
  {
    if t == "" {
      assert s + t == s;
    } else {
      assert (s + t)[..|s + t| - 1] == s + t[..|t| - 1];
      PlainTextMore(s, t[..|t| - 1]);
    }
  }

  lemma {:induction false} PlainTextOne(c: char)
    ensures PlainText([c]) == [Plain(c)]
  {
    assert [c][..0] == "";
  }

  /** Text without special characters stands for itself. */
  lemma {:induction false} PlainTokens(end: EntityEnd, escapes: bool, raw: string, i: nat)
    requires i <= |raw| && forall k | i <= k < |raw| :: !IsSpecial(raw[k])
    ensures Tokens(end, escapes, raw, i) == PlainText(raw[i..])
    decreases |raw| - i
  {
    if i < |raw| {
      PlainTokens(end, escapes, raw, i + 1);
      assert raw[i..] == [raw[i]] + raw[i + 1..];
      PlainTextMore([raw[i]], raw[i + 1..]);
      PlainTextOne(raw[i]);
    }
  }

  // ----- the pieces behind plain text -----

  /** Text without special characters in front stands for itself. */
  lemma {:induction false} PlainFront(end: EntityEnd, escapes: bool, raw: string, i: nat, j: nat)
    requires i <= j <= |raw| && forall k | i <= k < j :: !IsSpecial(raw[k])
    ensures Tokens(end, escapes, raw, i) == PlainText(raw[i..j]) + Tokens(end, escapes, raw, j)
    decreases j - i
  {
    if i < j {
      PlainFront(end, escapes, raw, i + 1, j);
      assert raw[i..j] == [raw[i]] + raw[i + 1..j];
      PlainTextMore([raw[i]], raw[i + 1..j]);
      PlainTextOne(raw[i]);
      Assoc([Plain(raw[i])], PlainText(raw[i + 1..j]), Tokens(end, escapes, raw, j));
    }
  }

  /** The attribute has a piece of this kind with exactly these characters. */
  predicate HasPiece(a: Attribute, kind: PieceKind, s: string)
    requires Shaped(a)
  {
    exists k | 0 <= k < |a.kinds| :: a.kinds[k] == kind && a.text[a.offsets[k]..a.offsets[k + 1]] == s
  }

  lemma {:induction false} ReadFrom(a: Attribute, n: nat, t: Token)
    requires Shaped(a) && n <= |a.kinds| && t in Read(a, n) && !t.Plain?
    ensures t.EntityText? ==> HasPiece(a, Entity, t.s)
    ensures t.Nul? ==> exists k | 0 <= k < |a.kinds| :: a.kinds[k] == NullChar
  {
    hide PieceTokens, HasPiece;
    var lo, hi := a.offsets[n - 1], a.offsets[n];
    if t in PieceTokens(a.kinds[n - 1], a.text[lo..hi]) {
      OwnToken(a.kinds[n - 1], a.text[lo..hi], t);
      ThatPiece(a, n - 1);
    } else {
      ReadFrom(a, n - 1, t);
    }
  }

  lemma {:induction false} OwnToken(kind: PieceKind, s: string, t: Token)
    requires t in PieceTokens(kind, s) && !t.Plain?
    ensures t.EntityText? ==> kind == Entity && s == t.s
    ensures t.Nul? ==> kind == NullChar
  {
    PlainTextAt(s);
  }

  lemma {:induction false} ThatPiece(a: Attribute, k: nat)
    requires Shaped(a) && k < |a.kinds|
    ensures HasPiece(a, a.kinds[k], a.text[a.offsets[k]..a.offsets[k + 1]])
  {
  }

  /** An entity behind plain text is a piece of its own, with exactly its characters; so is a NUL character. */
  lemma {:induction false} EntityIsPiece(a: Attribute, end: EntityEnd, escapes: bool, raw: string, i: nat)
    requires Says(a, end, escapes, raw) && i < |raw| && forall k | 0 <= k < i :: !IsSpecial(raw[k])
    ensures EntityAt(end, raw, i) ==> HasPiece(a, Entity, raw[i..end(raw, i)])
    ensures raw[i] == '\0' ==> exists k | 0 <= k < |a.kinds| :: a.kinds[k] == NullChar
  {
    PlainFront(end, escapes, raw, 0, i);
    if EntityAt(end, raw, i) {
      ReadFrom(a, |a.kinds|, EntityText(raw[i..end(raw, i)]));
    } else if raw[i] == '\0' {
      ReadFrom(a, |a.kinds|, Nul);
    }
  }

  // ----- the fast form and the general one, and escaping -----

  /** A well-formed attribute is known from what it says: its pieces can be cut in one way alone. */
  lemma {:induction false} OnePiece(a: Attribute, s: string)
    requires Wellformed(a) && s != "" && Read(a, |a.kinds|) == PlainText(s)
    ensures a == Attribute(s, [Normal], [0, |s|])
  {
    AllNormal(a, s, |a.kinds|);
  }

  lemma {:induction false} PlainTextAt(s: string)
    ensures |PlainText(s)| == |s| && forall i | 0 <= i < |s| :: PlainText(s)[i] == Plain(s[i])
  {
    if s != "" {
      PlainTextAt(s[..|s| - 1]);
    }
  }

  lemma {:induction false} AllNormal(a: Attribute, s: string, n: nat)
    requires Wellformed(a) && n <= |a.kinds| && Read(a, n) == PlainText(s)
    ensures forall i | 0 <= i < n :: a.kinds[i] == Normal
    ensures a.text[..a.offsets[n]] == s
    decreases n
  {
    PlainTextAt(s);
    if n > 0 {
      var lo, hi := a.offsets[n - 1], a.offsets[n];
      var before := Read(a, n - 1);
      var more := PieceTokens(a.kinds[n - 1], a.text[lo..hi]);
      LastIsNormal(before, a.kinds[n - 1], a.text[lo..hi], s);
      AllNormal(a, s[..|before|], n - 1);
      assert a.text[..hi] == a.text[..lo] + a.text[lo..hi];
    }
  }

  /** The last piece of plain text is a piece of plain text. */
  lemma {:induction false} LastIsNormal(before: seq<Token>, kind: PieceKind, piece: string, s: string)
    requires before + PieceTokens(kind, piece) == PlainText(s)
    ensures kind == Normal && |before| <= |s|
    ensures before == PlainText(s[..|before|]) && s == s[..|before|] + piece
  {
    hide PlainText;
    var more := PieceTokens(kind, piece);
    assert kind != Normal ==> |more| == 1 && !more[0].Plain?;
    PlainTextAt(s);
    PlainTextAt(piece);
    assert forall i | 0 <= i < |more| :: more[i] == PlainText(s)[|before| + i];
    assert forall i | 0 <= i < |more| :: more[i].Plain?;
    PlainTextAt(s[..|before|]);
    assert forall i | 0 <= i < |before| :: before[i] == PlainText(s)[i];
    assert forall i | 0 <= i < |piece| :: piece[i] == s[|before| + i];
  }

  /** The attribute is well formed, and says what the raw text says. */
  ghost predicate Says(a: Attribute, end: EntityEnd, escapes: bool, raw: string) {
    Wellformed(a) && Read(a, |a.kinds|) == Tokens(end, escapes, raw, 0)
  }

  /** The general form makes what the fast one makes of every text that is not empty and has no special character. */
  lemma {:induction false} GeneralIsFast(a: Attribute, end: EntityEnd, escapes: bool, raw: string)
    requires Says(a, end, escapes, raw) && raw != "" && forall k | 0 <= k < |raw| :: !IsSpecial(raw[k])
    ensures a == Attribute(raw, [Normal], [0, |raw|])
  {
    PlainTokens(end, escapes, raw, 0);
    assert raw[0..] == raw;
    OnePiece(a, raw);
  }

  function EscapeAll(s: string): string {
    if s == "" then "" else EscapeChar(s[0]) + EscapeAll(s[1..])
  }

  function EscapeChar(c: char): string {
    if IsPunct(c) then ['\\', c] else [c]
  }

  /** Where every punctuation character has a backslash in front, nothing has a meaning of its own. */
  lemma {:induction false} EscapedTokens(end: EntityEnd, raw: string, i: nat, s: string)
    requires i <= |raw| && raw[i..] == EscapeAll(s) && '\0' !in s
    ensures Tokens(end, true, raw, i) == PlainText(s)
    decreases |s|
  {
    if s != "" {
      var c, rest := s[0], s[1..];
      var e := EscapeChar(c);
      FrontOf(raw, i, e, EscapeAll(rest));
      EscapedTokens(end, raw, i + |e|, rest);
      EscapedToken(end, raw, i, c);
      assert s == [c] + rest;
      PlainTextMore([c], rest);
      PlainTextOne(c);
    }
  }

  lemma {:induction false} FrontOf(raw: string, i: nat, e: string, rest: string)
    requires i <= |raw| && raw[i..] == e + rest
    ensures i + |e| <= |raw| && raw[i + |e|..] == rest && forall k | 0 <= k < |e| :: raw[i + k] == e[k]
  {
    assert forall k | 0 <= k < |e| :: raw[i..][k] == e[k];
    assert raw[i + |e|..] == raw[i..][|e|..];
  }

  lemma {:induction false} EscapedToken(end: EntityEnd, raw: string, i: nat, c: char)
    requires i + |EscapeChar(c)| <= |raw| && c != '\0'
    requires forall k | 0 <= k < |EscapeChar(c)| :: raw[i + k] == EscapeChar(c)[k]
    ensures Tokens(end, true, raw, i) == [Plain(c)] + Tokens(end, true, raw, i + |EscapeChar(c)|)
  {
    assert raw[i + 0] == EscapeChar(c)[0];
    if IsPunct(c) {
      assert raw[i + 1] == EscapeChar(c)[1];
    }
  }

  /** A text without NUL comes back from its escaped form, as plain text in one piece. */
  lemma {:induction false} EscapeRoundTrip(a: Attribute, end: EntityEnd, s: string)
    requires Says(a, end, true, EscapeAll(s)) && '\0' !in s && s != ""
    ensures a == Attribute(s, [Normal], [0, |s|])
  {
    var raw := EscapeAll(s);
    assert raw[0..] == raw;
    EscapedTokens(end, raw, 0, s);
    OnePiece(a, s);
  }
}
