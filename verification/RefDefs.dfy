/**
 * The dictionary of link reference definitions: a hash table whose buckets are sorted once, against the rule that
 * the first definition with a matching label counts.
 */
module RefDefs {
  import opened Wrappers
  import Fnv
  import opened Labels

  /** What a definition is found by: the hash and the folded code points of its label. */
  datatype Key = Key(hash: nat, text: seq<Code>)

  function KeyOf(u: Unicode, text: Label): Key {
    var norm := Norm(u, text);
    Key(HashOf(u, BASE, norm), norm)
  }

  /** The hash of a label is the FNV-1a hash of the bytes of all its folded code points. */
  lemma {:induction false} HashIsOfBytes(u: Unicode, h: nat, codes: seq<Code>)
    requires forall g, c :: u.mix(g, c) == Fnv.HashCode(g, c)
    ensures HashOf(u, h, codes) == Fnv.HashBytes(h, Fnv.AllBytes(codes))
    decreases |codes|
  {
    if codes != [] {
      Fnv.HashPieces(h, Fnv.BytesOf(codes[0]), Fnv.AllBytes(codes[1..]));
      HashIsOfBytes(u, u.mix(h, codes[0]), codes[1..]);
    }
  }

  /** Labels that are folded to texts with one character different, a single byte in both, have different hashes. */
  lemma {:induction false} OneCharacterApart(u: Unicode, h: nat, a: seq<Code>, x: Code, y: Code, b: seq<Code>)
    requires forall g, c :: u.mix(g, c) == Fnv.HashCode(g, c)
    requires h < Fnv.WIDTH && x < 256 && y < 256
    ensures HashOf(u, h, a + ([x] + b)) == HashOf(u, h, a + ([y] + b)) <==> x == y
  {
    HashIsOfBytes(u, h, a + ([x] + b));
    HashIsOfBytes(u, h, a + ([y] + b));
    Fnv.OneCodeApart(h, a, x, y, b);
  }

  ghost function KeysOf(u: Unicode, texts: seq<Label>): (keys: seq<Key>)
    ensures |keys| == |texts| && forall i | 0 <= i < |texts| :: keys[i] == KeyOf(u, texts[i])
  {
    seq(|texts|, i requires 0 <= i < |texts| => KeyOf(u, texts[i]))
  }

  /** The rule: the first definition, of those from `i` on, whose label matches. */
  function FirstMatch(keys: seq<Key>, text: seq<Code>, i: nat): (r: Option<nat>)
    requires i <= |keys|
    ensures r.Some? ==> i <= r.value < |keys|
    decreases |keys| - i
  {
    if i == |keys| then None
    else if PadCmp(keys[i].text, text) == 0 then Some(i)
    else FirstMatch(keys, text, i + 1)
  }

  ghost predicate IsFirst(keys: seq<Key>, text: seq<Code>, f: nat) {
    f < |keys| && PadCmp(keys[f].text, text) == 0 && forall i | 0 <= i < f :: PadCmp(keys[i].text, text) != 0
  }

  /** A key that says just this matches, and the first one that matches says the same. */
  lemma {:induction false} FirstSame(u: Unicode, keys: seq<Key>, text: seq<Code>, k: nat)
    requires Proper(u, keys) && k < |keys| && keys[k].text == text
    ensures FirstMatch(keys, text, 0).Some? && FirstMatch(keys, text, 0).value <= k
    ensures keys[FirstMatch(keys, text, 0).value] == keys[k]
  {
    FirstMatchIsFirst(keys, text, 0);
    PadSelf(text);
    var f := FirstMatch(keys, text, 0).value;
    PadZero(keys[f].text, text);
  }

  lemma {:induction false} FirstMatchIsFirst(keys: seq<Key>, text: seq<Code>, i: nat)
    requires i <= |keys| && forall k | 0 <= k < i :: PadCmp(keys[k].text, text) != 0
    ensures
      match FirstMatch(keys, text, i)
      case None => forall k | 0 <= k < |keys| :: PadCmp(keys[k].text, text) != 0
      case Some(f) => IsFirst(keys, text, f)
    decreases |keys| - i
  {
    if i < |keys| && PadCmp(keys[i].text, text) != 0 {
      FirstMatchIsFirst(keys, text, i + 1);
    }
  }

  // ----- the order of the definitions in a bucket -----

  /** md_ref_def_cmp */
  function KeyCmp(a: Key, b: Key): int {
    if a.hash < b.hash then -1 else if a.hash > b.hash then 1 else PadCmp(a.text, b.text)
  }

  lemma {:induction false} KeySym(a: Key, b: Key)
    ensures KeyCmp(a, b) == -KeyCmp(b, a)
  {
    PadSym(a.text, b.text);
  }

  lemma {:induction false} KeyTrans(a: Key, b: Key, c: Key)
    requires KeyCmp(a, b) <= 0 && KeyCmp(b, c) <= 0
    ensures KeyCmp(a, c) <= 0
    ensures KeyCmp(a, c) == 0 ==> KeyCmp(a, b) == 0 && KeyCmp(b, c) == 0
  {
    if a.hash == b.hash == c.hash {
      PadTrans(a.text, b.text, c.text);
    }
  }

  predicate Same(a: Key, b: Key) {
    KeyCmp(a, b) == 0
  }

  lemma {:induction false} SameTrans(a: Key, b: Key, c: Key)
    requires Same(a, b) && (Same(b, c) || Same(c, b))
    ensures Same(a, c) && Same(c, a)
  {
    KeySym(a, b);
    KeySym(b, c);
    KeyTrans(a, b, c);
    KeyTrans(c, b, a);
    KeySym(a, c);
  }

  lemma {:induction false} At(defs: seq<nat>, d: nat) returns (j: nat)
    requires d in defs
    ensures j < |defs| && defs[j] == d
  {
    j :| 0 <= j < |defs| && defs[j] == d;
  }

  /** The order of md_ref_def_cmp_for_sort: of equal keys the definition that came first. */
  predicate Before(keys: seq<Key>, i: nat, j: nat)
    requires i < |keys| && j < |keys|
  {
    var cmp := KeyCmp(keys[i], keys[j]);
    cmp < 0 || (cmp == 0 && i < j)
  }

  lemma {:induction false} BeforeTrans(keys: seq<Key>, i: nat, j: nat, k: nat)
    requires i < |keys| && j < |keys| && k < |keys| && Before(keys, i, j) && Before(keys, j, k)
    ensures Before(keys, i, k)
  {
    KeyTrans(keys[i], keys[j], keys[k]);
  }

  lemma {:induction false} BeforeTotal(keys: seq<Key>, i: nat, j: nat)
    requires i < |keys| && j < |keys| && i != j && !Before(keys, i, j)
    ensures Before(keys, j, i)
  {
    KeySym(keys[i], keys[j]);
  }

  predicate Within(keys: seq<Key>, defs: seq<nat>) {
    forall k | 0 <= k < |defs| :: defs[k] < |keys|
  }

  ghost predicate Ordered(keys: seq<Key>, defs: seq<nat>)
    requires Within(keys, defs)
  {
    forall i, j | 0 <= i < j < |defs| :: Before(keys, defs[i], defs[j])
  }

  /** As Ordered, when some entries may be the same definition. */
  ghost predicate Searchable(keys: seq<Key>, defs: seq<nat>)
    requires Within(keys, defs)
  {
    forall i, j | 0 <= i < j < |defs| :: KeyCmp(keys[defs[i]], keys[defs[j]]) <= 0
  }

  ghost predicate Distinct(defs: seq<nat>) {
    forall i, j | 0 <= i < j < |defs| :: defs[i] != defs[j]
  }

  /** Definition `d` goes to place `p` of a bucket. */
  function Inserted(defs: seq<nat>, p: nat, d: nat): (r: seq<nat>)
    requires p <= |defs|
    ensures |r| == |defs| + 1 && r[p] == d
    ensures forall k | 0 <= k < |r| && k != p :: r[k] == defs[if k < p then k else k - 1]
  {
    defs[..p] + [d] + defs[p..]
  }

  lemma {:induction false} InsertKeepsAll(defs: seq<nat>, p: nat, d: nat)
    requires p <= |defs|
    ensures multiset(Inserted(defs, p, d)) == multiset(defs) + multiset{d}
  {
    assert defs == defs[..p] + defs[p..];
  }

  lemma {:induction false} InsertKeepsOrder(keys: seq<Key>, defs: seq<nat>, p: nat, d: nat)
    requires Within(keys, defs) && Ordered(keys, defs) && p <= |defs| && d < |keys|
    requires p > 0 ==> Before(keys, defs[p - 1], d)
    requires forall q | p <= q < |defs| :: Before(keys, d, defs[q])
    ensures Within(keys, Inserted(defs, p, d)) && Ordered(keys, Inserted(defs, p, d))
  {
    var more := Inserted(defs, p, d);
    forall q | 0 <= q < p ensures Before(keys, defs[q], d) {
      if q < p - 1 {
        BeforeTrans(keys, defs[q], defs[p - 1], d);
      }
    }
    forall i, j | 0 <= i < j < |more| ensures Before(keys, more[i], more[j]) {
      var a, b := if i < p then i else i - 1, if j < p then j else j - 1;
      assert i != p && j != p ==> 0 <= a < b < |defs|;
    }
  }

  // ----- the table -----

  datatype Bucket = Empty | One(def: nat) | Many(defs: seq<nat>)

  function Listed(b: Bucket): seq<nat> {
    match b
    case Empty => []
    case One(d) => [d]
    case Many(defs) => defs
  }

  /** The slot of a definition depends on its hash alone. */
  ghost predicate SlotsFit(keys: seq<Key>, slots: seq<nat>) {
    |slots| == |keys| && forall i, j | 0 <= i < |keys| && 0 <= j < |keys| :: FitAt(keys, slots, i, j)
  }

  ghost predicate FitAt(keys: seq<Key>, slots: seq<nat>, i: nat, j: nat)
    requires |slots| == |keys| && i < |keys| && j < |keys|
  {
    keys[i].hash == keys[j].hash ==> slots[i] == slots[j]
  }

  /** The bucket holds an equal definition that is not later. */
  ghost predicate Stands(keys: seq<Key>, defs: seq<nat>, i: nat)
    requires i < |keys|
  {
    exists d | d in defs :: d <= i && Same(keys[d], keys[i])
  }

  ghost predicate InSlot(keys: seq<Key>, n: nat, slot: nat, slots: seq<nat>, defs: seq<nat>)
    requires n <= |keys| && |slots| == |keys|
  {
    forall k | 0 <= k < |defs| :: defs[k] < n && slots[defs[k]] == slot
  }

  ghost predicate AllStand(keys: seq<Key>, n: nat, slot: nat, slots: seq<nat>, defs: seq<nat>)
    requires n <= |keys| && |slots| == |keys|
  {
    forall i | 0 <= i < n && slots[i] == slot :: Stands(keys, defs, i)
  }

  /** Of the first `n` definitions, those of this slot are in the bucket, but for later ones with the same label. */
  ghost predicate Holds(keys: seq<Key>, n: nat, slot: nat, slots: seq<nat>, defs: seq<nat>)
    requires n <= |keys| && |slots| == |keys|
  {
    InSlot(keys, n, slot, slots, defs) && AllStand(keys, n, slot, slots, defs) && Distinct(defs)
  }

  /** Each entry is the first of its kind. */
  ghost predicate Firsts(keys: seq<Key>, defs: seq<nat>)
    requires Within(keys, defs)
  {
    forall k, i | 0 <= k < |defs| && 0 <= i < |keys| && Same(keys[defs[k]], keys[i]) :: defs[k] <= i
  }

  /** Moreover the bucket can be searched, and each entry is the first of its kind. */
  ghost predicate Sorted(keys: seq<Key>, slot: nat, slots: seq<nat>, defs: seq<nat>)
    requires |slots| == |keys|
  {
    && InSlot(keys, |keys|, slot, slots, defs) && AllStand(keys, |keys|, slot, slots, defs)
    && Searchable(keys, defs) && Firsts(keys, defs)
  }

  predicate Full(b: Bucket) {
    b.Many? ==> |b.defs| >= 2
  }

  /** A bucket while the table is filled, and when it is finished. */
  ghost predicate Partial(keys: seq<Key>, slots: seq<nat>, n: nat, slot: nat, b: Bucket) {
    n <= |keys| && |slots| == |keys| && Holds(keys, n, slot, slots, Listed(b)) && Full(b)
  }

  ghost predicate Finished(keys: seq<Key>, slots: seq<nat>, slot: nat, b: Bucket) {
    |slots| == |keys| && Sorted(keys, slot, slots, Listed(b)) && Full(b)
  }

  /** The buckets before `b` are finished, and the first `n` definitions are in the other ones. */
  ghost predicate Buckets(keys: seq<Key>, slots: seq<nat>, n: nat, b: nat, buckets: seq<Bucket>) {
    forall c | 0 <= c < |buckets| ::
      if c < b then Finished(keys, slots, c, buckets[c]) else Partial(keys, slots, n, c, buckets[c])
  }

  lemma {:induction false} NoDefinitions(keys: seq<Key>, slots: seq<nat>, buckets: seq<Bucket>, b: nat)
    requires |slots| == |keys| && forall c | 0 <= c < |buckets| :: buckets[c] == Empty
    requires b == 0
    ensures Buckets(keys, slots, 0, b, buckets)
  {
  }

  lemma {:induction false} MoreDefinitions(keys: seq<Key>, slots: seq<nat>, n: nat, b: nat, buckets: seq<Bucket>, slot: nat, more: Bucket)
    requires Buckets(keys, slots, n, b, buckets) && b == 0 && n < |keys| && slot < |buckets| && |slots| == |keys| && slots[n] == slot
    requires Partial(keys, slots, n + 1, slot, more)
    ensures Buckets(keys, slots, n + 1, b, buckets[slot := more])
  {
    forall c | 0 <= c < |buckets| && c != slot ensures Partial(keys, slots, n + 1, c, buckets[c]) {
      HoldsElsewhere(keys, n, c, slots, Listed(buckets[c]));
    }
  }

  lemma {:induction false} MoreFinished(keys: seq<Key>, slots: seq<nat>, n: nat, b: nat, buckets: seq<Bucket>, more: Bucket)
    requires Buckets(keys, slots, n, b, buckets) && b < |buckets| && Finished(keys, slots, b, more)
    ensures Buckets(keys, slots, n, b + 1, buckets[b := more])
  {
  }

  /** Entry `j` of `firsts` is the first definition that is equal to entry `j` of `defs`. */
  ghost predicate FirstOfKind(keys: seq<Key>, defs: seq<nat>, first: nat, d: nat)
    requires Within(keys, defs) && d in defs
  {
    && first in defs && Same(keys[first], keys[d])
    && forall k | 0 <= k < |defs| && Same(keys[defs[k]], keys[d]) :: first <= defs[k]
  }

  /** A neighbour that is different begins a new kind. */
  lemma {:induction false} NewKind(keys: seq<Key>, defs: seq<nat>, j: nat, first: nat)
    requires Within(keys, defs) && Ordered(keys, defs) && 0 < j < |defs|
    requires FirstOfKind(keys, defs, first, defs[j - 1]) && !Same(keys[first], keys[defs[j]])
    ensures FirstOfKind(keys, defs, defs[j], defs[j])
  {
    PadSelf(keys[defs[j]].text);
    forall m | 0 <= m < |defs| && Same(keys[defs[m]], keys[defs[j]]) ensures defs[j] <= defs[m] {
      var x := defs[m];
      if m < j {
        assert m < j - 1 ==> Before(keys, defs[m], defs[j - 1]);
        assert Before(keys, defs[j - 1], defs[j]);
        if m == j - 1 {
          SameTrans(keys[first], keys[x], keys[defs[j]]);
        } else {
          KeyTrans(keys[x], keys[defs[j - 1]], keys[defs[j]]);
          SameTrans(keys[first], keys[defs[j - 1]], keys[defs[j]]);
        }
      } else if m > j {
        KeySym(keys[x], keys[defs[j]]);
        assert Before(keys, defs[j], defs[m]);
      }
    }
  }

  lemma {:induction false} OldKind(keys: seq<Key>, defs: seq<nat>, j: nat, first: nat)
    requires Within(keys, defs) && 0 < j < |defs|
    requires FirstOfKind(keys, defs, first, defs[j - 1]) && Same(keys[first], keys[defs[j]])
    ensures FirstOfKind(keys, defs, first, defs[j])
  {
    forall m | 0 <= m < |defs| && Same(keys[defs[m]], keys[defs[j]]) ensures first <= defs[m] {
      var x := defs[m];
      SameTrans(keys[x], keys[defs[j]], keys[first]);
      SameTrans(keys[x], keys[first], keys[defs[j - 1]]);
    }
  }

  /** `firsts` is `defs`, in order, with each entry replaced by the first of its kind. */
  ghost predicate Replaced(keys: seq<Key>, defs: seq<nat>, firsts: seq<nat>)
    requires Within(keys, defs)
  {
    |firsts| == |defs| && forall j | 0 <= j < |defs| :: FirstOfKind(keys, defs, firsts[j], defs[j])
  }

  lemma {:induction false} FirstsAreListed(keys: seq<Key>, defs: seq<nat>, firsts: seq<nat>, d: nat)
    requires Within(keys, defs) && Replaced(keys, defs, firsts) && d in firsts
    ensures d in defs && d < |keys|
    ensures forall k | 0 <= k < |defs| && Same(keys[defs[k]], keys[d]) :: d <= defs[k]
  {
    var j := At(firsts, d);
    assert FirstOfKind(keys, defs, firsts[j], defs[j]);
    forall k | 0 <= k < |defs| && Same(keys[defs[k]], keys[d]) ensures d <= defs[k] {
      SameTrans(keys[defs[k]], keys[d], keys[defs[j]]);
    }
  }

  lemma {:induction false} FirstsStand(keys: seq<Key>, defs: seq<nat>, firsts: seq<nat>, i: nat)
    requires Within(keys, defs) && Replaced(keys, defs, firsts) && i < |keys| && Stands(keys, defs, i)
    ensures Stands(keys, firsts, i)
  {
    var d :| d in defs && d <= i && Same(keys[d], keys[i]);
    var j := At(defs, d);
    assert FirstOfKind(keys, defs, firsts[j], d);
    SelfFirst(keys, defs, firsts[j], d, j);
    SameTrans(keys[firsts[j]], keys[d], keys[i]);
    StandsBy(keys, firsts, j, i);
  }

  lemma {:induction false} SelfFirst(keys: seq<Key>, defs: seq<nat>, first: nat, d: nat, j: nat)
    requires Within(keys, defs) && j < |defs| && defs[j] == d && FirstOfKind(keys, defs, first, d)
    ensures first <= d
  {
    PadSelf(keys[d].text);
  }

  lemma {:induction false} StandsBy(keys: seq<Key>, defs: seq<nat>, k: nat, i: nat)
    requires i < |keys| && k < |defs| && defs[k] <= i && Same(keys[defs[k]], keys[i])
    ensures Stands(keys, defs, i)
  {
  }

  lemma {:induction false} FirstsAreSearchable(keys: seq<Key>, defs: seq<nat>, firsts: seq<nat>)
    requires Within(keys, defs) && Ordered(keys, defs) && Replaced(keys, defs, firsts)
    ensures Within(keys, firsts) && Searchable(keys, firsts)
  {
    forall j | 0 <= j < |firsts| ensures firsts[j] < |keys| {
      assert FirstOfKind(keys, defs, firsts[j], defs[j]);
    }
    forall i, j | 0 <= i < j < |firsts| ensures KeyCmp(keys[firsts[i]], keys[firsts[j]]) <= 0 {
      assert FirstOfKind(keys, defs, firsts[i], defs[i]) && FirstOfKind(keys, defs, firsts[j], defs[j]);
      assert Before(keys, defs[i], defs[j]);
      KeyTrans(keys[firsts[i]], keys[defs[i]], keys[defs[j]]);
      KeySym(keys[firsts[j]], keys[defs[j]]);
      KeyTrans(keys[firsts[i]], keys[defs[j]], keys[firsts[j]]);
    }
  }

  lemma {:induction false} FirstsInSlot(keys: seq<Key>, slot: nat, slots: seq<nat>, defs: seq<nat>, firsts: seq<nat>)
    requires |slots| == |keys| && InSlot(keys, |keys|, slot, slots, defs) && Within(keys, defs) && Replaced(keys, defs, firsts)
    ensures InSlot(keys, |keys|, slot, slots, firsts)
  {
    forall k | 0 <= k < |firsts| ensures firsts[k] < |keys| && slots[firsts[k]] == slot {
      FirstsAreListed(keys, defs, firsts, firsts[k]);
      var j := At(defs, firsts[k]);
    }
  }

  lemma {:induction false} FirstsAreFirst(keys: seq<Key>, slot: nat, slots: seq<nat>, defs: seq<nat>, firsts: seq<nat>, k: nat, i: nat)
    requires SlotsFit(keys, slots) && AllStand(keys, |keys|, slot, slots, defs) && Within(keys, defs) && Replaced(keys, defs, firsts)
    requires InSlot(keys, |keys|, slot, slots, firsts) && k < |firsts| && i < |keys| && Same(keys[firsts[k]], keys[i])
    ensures firsts[k] <= i
  {
    FirstsAreListed(keys, defs, firsts, firsts[k]);
    assert FitAt(keys, slots, i, firsts[k]);
    assert Stands(keys, defs, i);
    var x :| x in defs && x <= i && Same(keys[x], keys[i]);
    SameTrans(keys[x], keys[i], keys[firsts[k]]);
    var j := At(defs, x);
  }

  /** What sorting and replacing duplicates makes of a bucket. */
  lemma {:induction false} BucketIsSorted(keys: seq<Key>, slot: nat, slots: seq<nat>, defs: seq<nat>, firsts: seq<nat>)
    requires SlotsFit(keys, slots) && Holds(keys, |keys|, slot, slots, defs)
    requires Within(keys, defs) && Ordered(keys, defs) && Replaced(keys, defs, firsts)
    ensures Sorted(keys, slot, slots, firsts)
  {
    FirstsAreSearchable(keys, defs, firsts);
    FirstsInSlot(keys, slot, slots, defs, firsts);
    forall i | 0 <= i < |keys| && slots[i] == slot ensures Stands(keys, firsts, i) {
      FirstsStand(keys, defs, firsts, i);
    }
    forall k, i | 0 <= k < |firsts| && 0 <= i < |keys| && Same(keys[firsts[k]], keys[i]) ensures firsts[k] <= i {
      FirstsAreFirst(keys, slot, slots, defs, firsts, k, i);
    }
  }

  /** Sorting changes the order alone. */
  lemma {:induction false} HoldsPermuted(keys: seq<Key>, slot: nat, slots: seq<nat>, before: seq<nat>, defs: seq<nat>)
    requires |slots| == |keys| && Holds(keys, |keys|, slot, slots, before) && multiset(defs) == multiset(before)
    requires Distinct(defs)
    ensures Holds(keys, |keys|, slot, slots, defs)
  {
    forall k | 0 <= k < |defs| ensures defs[k] < |keys| && slots[defs[k]] == slot {
      assert defs[k] in multiset(before);
      var j := At(before, defs[k]);
    }
    forall i | 0 <= i < |keys| && slots[i] == slot ensures Stands(keys, defs, i) {
      assert Stands(keys, before, i);
      var d :| d in before && d <= i && Same(keys[d], keys[i]);
      assert d in multiset(defs);
    }
  }

  /** Definition `n` comes to a bucket. */
  lemma {:induction false} HoldsMore(keys: seq<Key>, n: nat, slot: nat, slots: seq<nat>, defs: seq<nat>)
    requires n < |keys| && |slots| == |keys| && Holds(keys, n, slot, slots, defs) && slots[n] == slot
    ensures Holds(keys, n + 1, slot, slots, defs + [n])
  {
    PadSelf(keys[n].text);
    forall i | 0 <= i < n + 1 && slots[i] == slot ensures Stands(keys, defs + [n], i) {
      if i < n {
        assert Stands(keys, defs, i);
        var d :| d in defs && d <= i && Same(keys[d], keys[i]);
        assert d in defs + [n];
      } else {
        assert n in defs + [n] && Same(keys[n], keys[n]);
      }
    }
  }

  lemma {:induction false} HoldsOne(keys: seq<Key>, n: nat, slot: nat, slots: seq<nat>)
    requires n < |keys| == |slots| && Partial(keys, slots, n, slot, Empty) && slots[n] == slot
    ensures Partial(keys, slots, n + 1, slot, One(n))
  {
    HoldsMore(keys, n, slot, slots, []);
    assert [] + [n] == [n];
  }

  lemma {:induction false} HoldsTwo(keys: seq<Key>, n: nat, slot: nat, slots: seq<nat>, d: nat)
    requires n < |keys| == |slots| && Partial(keys, slots, n, slot, One(d)) && slots[n] == slot
    ensures Partial(keys, slots, n + 1, slot, Many([d, n]))
  {
    HoldsMore(keys, n, slot, slots, [d]);
    assert [d] + [n] == [d, n];
  }

  /** Definition `n` is left out, as there is an equal one. */
  lemma {:induction false} HoldsDuplicate(keys: seq<Key>, n: nat, slot: nat, slots: seq<nat>, defs: seq<nat>, d: nat)
    requires n < |keys| && |slots| == |keys| && Holds(keys, n, slot, slots, defs)
    requires d in defs && d < n && Same(keys[d], keys[n])
    ensures Holds(keys, n + 1, slot, slots, defs)
  {
    forall i | 0 <= i < n + 1 && slots[i] == slot ensures Stands(keys, defs, i) {
      if i < n {
        assert Stands(keys, defs, i);
      }
    }
  }

  lemma {:induction false} HoldsElsewhere(keys: seq<Key>, n: nat, slot: nat, slots: seq<nat>, defs: seq<nat>)
    requires n < |keys| && |slots| == |keys| && Holds(keys, n, slot, slots, defs) && slots[n] != slot
    ensures Holds(keys, n + 1, slot, slots, defs)
  {
  }

  /** A bucket with at most one entry needs no sorting. */
  lemma {:induction false} SmallIsSorted(keys: seq<Key>, slot: nat, slots: seq<nat>, defs: seq<nat>)
    requires SlotsFit(keys, slots) && Holds(keys, |keys|, slot, slots, defs) && |defs| <= 1
    ensures Sorted(keys, slot, slots, defs)
  {
    forall k, i | 0 <= k < |defs| && 0 <= i < |keys| && Same(keys[defs[k]], keys[i]) ensures defs[k] <= i {
      assert FitAt(keys, slots, i, defs[k]);
      assert Stands(keys, defs, i);
    }
  }

  ghost function SlotsOf(keys: seq<Key>, size: nat): (slots: seq<nat>)
    requires size > 0
    ensures SlotsFit(keys, slots) && forall i | 0 <= i < |keys| :: slots[i] == keys[i].hash % size
  {
    seq(|keys|, i requires 0 <= i < |keys| => keys[i].hash % size)
  }

  // ----- what a lookup can find -----

  /** Labels that match the same label have the same key. */
  lemma {:induction false} MatchesAreSame(u: Unicode, a: Key, b: Key, text: seq<Code>)
    requires Solid(a.text) && Solid(b.text) && PadCmp(a.text, text) == 0 && PadCmp(b.text, text) == 0
    requires a.hash == HashOf(u, BASE, a.text) && b.hash == HashOf(u, BASE, b.text)
    ensures a == b && Same(a, b)
  {
    MatchBoth(a.text, b.text, text);
    PadSelf(a.text);
  }

  /** The definitions of a document: no label ends with white space. */
  ghost predicate Proper(u: Unicode, keys: seq<Key>) {
    forall i | 0 <= i < |keys| :: Solid(keys[i].text) && keys[i].hash == HashOf(u, BASE, keys[i].text)
  }

  /** The first match is in its own bucket, and is the only entry of that bucket that matches. */
  lemma {:induction false} FirstIsListed(u: Unicode, keys: seq<Key>, slot: nat, slots: seq<nat>, defs: seq<nat>, text: seq<Code>, f: nat)
    requires |slots| == |keys| && Proper(u, keys) && Sorted(keys, slot, slots, defs) && IsFirst(keys, text, f)
    requires slots[f] == slot
    ensures f in defs && forall k | 0 <= k < |defs| && PadCmp(keys[defs[k]].text, text) == 0 :: defs[k] == f
  {
    assert Stands(keys, defs, f);
    var x :| x in defs && x <= f && Same(keys[x], keys[f]);
    PadZero(keys[x].text, keys[f].text);
    assert x == f;
    forall k | 0 <= k < |defs| && PadCmp(keys[defs[k]].text, text) == 0 ensures defs[k] == f {
      MatchesAreSame(u, keys[defs[k]], keys[f], text);
    }
  }

  lemma {:induction false} NotListedElsewhere(u: Unicode, keys: seq<Key>, slot: nat, slots: seq<nat>, defs: seq<nat>, text: seq<Code>, f: nat)
    requires SlotsFit(keys, slots) && Proper(u, keys) && Sorted(keys, slot, slots, defs) && IsFirst(keys, text, f)
    requires slots[f] != slot
    ensures forall d | d in defs && d < |keys| :: PadCmp(keys[d].text, text) != 0
  {
    forall d | d in defs && d < |keys| ensures PadCmp(keys[d].text, text) != 0 {
      var k := At(defs, d);
      assert FitAt(keys, slots, d, f);
      if PadCmp(keys[d].text, text) == 0 {
        MatchesAreSame(u, keys[d], keys[f], text);
      }
    }
  }

  /** What is found in a bucket. */
  ghost predicate Answer(keys: seq<Key>, b: Bucket, key: Key, r: Option<nat>) {
    && (r.Some? ==> r.value < |keys| && r.value in Listed(b) && PadCmp(keys[r.value].text, key.text) == 0)
    && match b
       case Empty => r.None?
       case One(d) => r.None? ==> d < |keys| && PadCmp(keys[d].text, key.text) != 0
       case Many(defs) =>
         && (r.Some? ==> Same(key, keys[r.value]))
         && (r.None? ==> forall k | 0 <= k < |defs| :: defs[k] < |keys| && !Same(key, keys[defs[k]]))
  }

  /** Where the first match is in another bucket, nothing is found. */
  lemma {:induction false} AnswerElsewhere(u: Unicode, keys: seq<Key>, slots: seq<nat>, slot: nat, b: Bucket, key: Key, f: nat, r: Option<nat>)
    requires SlotsFit(keys, slots) && Proper(u, keys) && Finished(keys, slots, slot, b) && Answer(keys, b, key, r)
    requires IsFirst(keys, key.text, f) && slots[f] != slot
    ensures r == None
  {
    NotListedElsewhere(u, keys, slot, slots, Listed(b), key.text, f);
  }

  /** In its own bucket the first match is found, unless there are several entries, and its hash is another one. */
  lemma {:induction false} AnswerHere(u: Unicode, keys: seq<Key>, slots: seq<nat>, slot: nat, b: Bucket, key: Key, f: nat, r: Option<nat>)
    requires SlotsFit(keys, slots) && Proper(u, keys) && Finished(keys, slots, slot, b) && Answer(keys, b, key, r)
    requires IsFirst(keys, key.text, f) && slots[f] == slot
    ensures r == if b.One? || key.hash == keys[f].hash then Some(f) else None
  {
    FirstIsListed(u, keys, slot, slots, Listed(b), key.text, f);
    var at := At(Listed(b), f);
    if r.Some? {
      var k := At(Listed(b), r.value);
    } else if b.Many? && key.hash == keys[f].hash {
      PadSym(key.text, keys[f].text);
    }
  }

  class Dictionary {
    const u: Unicode
    const texts: seq<Label>        // the labels of the definitions, in the order of the document
    var hashes: seq<nat>           // of the labels that have been hashed
    var table: array<Bucket>
    ghost const keys: seq<Key>
    ghost var slots: seq<nat>      // the bucket of each definition

    constructor (u: Unicode, texts: seq<Label>)
      requires Sane(u) && forall i | 0 <= i < |texts| :: Trimmed(u, texts[i])
      ensures this.u == u && this.texts == texts && Hashed(0)
    {
      this.u, this.texts, hashes := u, texts, [];
      table := new Bucket[0];
      keys, slots := KeysOf(u, texts), [];
    }

    /** The labels are those of a document; the first `n` of them have been hashed. */
    ghost predicate Hashed(n: nat)
      reads this
    {
      && Sane(u) && n <= |texts| == |keys| && |hashes| == n
      && (forall i | 0 <= i < |texts| :: Trimmed(u, texts[i]) && keys[i] == KeyOf(u, texts[i]))
      && (forall i | 0 <= i < n :: hashes[i] == keys[i].hash)
    }

    ghost predicate Slotted()
      reads this
    {
      && table.Length > 0 && SlotsFit(keys, slots)
      && forall i | 0 <= i < |keys| :: slots[i] == keys[i].hash % table.Length
    }

    /** The table can be used. */
    ghost predicate Built()
      reads this, table
    {
      && Hashed(|texts|) && table.Length == |texts| * 5 / 4
      && (texts != [] ==> Slotted() && Buckets(keys, slots, |keys|, table.Length, table[..]))
    }

    /** The first `n` definitions are in the table. */
    ghost predicate Filled(n: nat)
      reads this, table
    {
      Hashed(n) && Slotted() && Buckets(keys, slots, n, 0, table[..])
    }

    lemma {:induction false} KeysAreProper(n: nat)
      requires Hashed(n)
      ensures Proper(u, keys)
    {
      forall i | 0 <= i < |keys| ensures Solid(keys[i].text) {
        TrimmedIsSolid(u, texts[i]);
      }
    }

    /** Two definitions in the same bucket, with different labels, do not stand for each other. */
    lemma {:induction false} Both()
      requires Built() && |texts| == 2 && keys[0].hash % 2 == keys[1].hash % 2
      ensures table.Length == 2 && (table[keys[0].hash % 2].One? ==> Same(keys[0], keys[1]))
    {
      var slot := keys[0].hash % 2;
      assert table[..][slot] == table[slot];
      assert slots[0] == slot && slots[1] == slot;
      assert Stands(keys, Listed(table[slot]), 0) && Stands(keys, Listed(table[slot]), 1);
      if table[slot].One? {
        StandsForBoth(keys, table[slot].def, 0, 1);
      }
    }

    /** md_ref_def_cmp, of two definitions */
    method DefCmp(a: nat, b: nat) returns (cmp: int)
      requires Hashed(|texts|) && a < |texts| && b < |texts|
      ensures cmp == KeyCmp(keys[a], keys[b])
    {
      if hashes[a] < hashes[b] {
        return -1;
      } else if hashes[a] > hashes[b] {
        return 1;
      }
      cmp := LabelCmp(u, texts[a], texts[b]);
    }

    /** qsort with md_ref_def_cmp_for_sort: the definitions of a bucket in order. */
    method Sort(defs: seq<nat>) returns (r: seq<nat>)
      requires Hashed(|texts|) && Within(keys, defs) && Distinct(defs)
      ensures Within(keys, r) && Ordered(keys, r) && multiset(r) == multiset(defs) && Distinct(r)
    {
      r := [];
      for i := 0 to |defs|
        invariant Within(keys, r) && Ordered(keys, r) && multiset(r) == multiset(defs[..i])
      {
        assert defs[..i + 1] == defs[..i] + [defs[i]];
        NotYet(defs, i, r);
        r := Insert(r, defs[i]);
      }
      assert defs[..|defs|] == defs;
      OrderedIsDistinct(keys, r);
    }

    static lemma {:induction false} NotYet(defs: seq<nat>, i: nat, r: seq<nat>)
      requires Distinct(defs) && i < |defs| && multiset(r) == multiset(defs[..i])
      ensures defs[i] !in r
    {
      assert forall k | 0 <= k < i :: defs[..i][k] != defs[i];
      assert defs[i] in r <==> defs[i] in multiset(r);
    }

    static lemma {:induction false} OrderedIsDistinct(keys: seq<Key>, r: seq<nat>)
      requires Within(keys, r) && Ordered(keys, r)
      ensures Distinct(r)
    {
      forall i, j | 0 <= i < j < |r| ensures r[i] != r[j] {
        assert Before(keys, r[i], r[j]);
        KeySym(keys[r[i]], keys[r[i]]);
      }
    }

    method Insert(defs: seq<nat>, d: nat) returns (r: seq<nat>)
      requires Hashed(|texts|) && Within(keys, defs) && Ordered(keys, defs) && d < |texts| && d !in defs
      ensures Within(keys, r) && Ordered(keys, r) && multiset(r) == multiset(defs) + multiset{d}
    {
      var p: nat := |defs|;
      while p > 0
        invariant p <= |defs| && forall q | p <= q < |defs| :: Before(keys, d, defs[q])
      {
        var cmp := DefCmp(defs[p - 1], d);
        if cmp < 0 || (cmp == 0 && defs[p - 1] < d) {
          break;
        }
        BeforeTotal(keys, defs[p - 1], d);
        p := p - 1;
      }
      InsertKeepsAll(defs, p, d);
      InsertKeepsOrder(keys, defs, p, d);
      r := Inserted(defs, p, d);
    }

    /** Every entry gives way to the first of its kind. */
    method ReplaceDuplicates(defs: seq<nat>) returns (r: seq<nat>)
      requires Hashed(|texts|) && Within(keys, defs) && Ordered(keys, defs) && defs != []
      ensures Replaced(keys, defs, r)
    {
      r := defs;
      FirstIsNew(keys, defs);
      for j := 1 to |defs|
        invariant |r| == |defs| && forall k | j <= k < |defs| :: r[k] == defs[k]
        invariant forall k | 0 <= k < j :: FirstOfKind(keys, defs, r[k], defs[k])
      {
        assert FirstOfKind(keys, defs, r[j - 1], defs[j - 1]);
        var f := At(defs, r[j - 1]);
        var cmp := DefCmp(r[j - 1], r[j]);
        if cmp == 0 {
          OldKind(keys, defs, j, r[j - 1]);
          r := r[j := r[j - 1]];
        } else {
          NewKind(keys, defs, j, r[j - 1]);
        }
      }
    }

    static lemma {:induction false} FirstIsNew(keys: seq<Key>, defs: seq<nat>)
      requires Within(keys, defs) && Ordered(keys, defs) && defs != []
      ensures FirstOfKind(keys, defs, defs[0], defs[0])
    {
      PadSelf(keys[defs[0]].text);
      forall k | 0 <= k < |defs| && Same(keys[defs[k]], keys[defs[0]]) ensures defs[0] <= defs[k] {
        if k > 0 {
          assert Before(keys, defs[0], defs[k]);
          KeySym(keys[defs[0]], keys[defs[k]]);
        }
      }
    }

    /** md_build_ref_def_hashtable */
    method Build()
      requires Hashed(0)
      modifies this
      ensures Built() && fresh(table)
    {
      if |texts| == 0 {
        table := new Bucket[0];
        return;
      }
      Allocate(|texts| * 5 / 4);
      FillTable();
      SortBuckets();
    }

    method Allocate(size: nat)
      requires Hashed(0) && size > 0
      modifies this`table, this`slots
      ensures Filled(0) && fresh(table) && table.Length == size
    {
      table := new Bucket[size](_ => Empty);
      slots := SlotsOf(keys, size);
      NoDefinitions(keys, slots, table[..], 0);
    }

    method FillTable()
      requires Filled(0)
      modifies this`hashes, table
      ensures Filled(|texts|) && table == old(table)
    {
      for i := 0 to |texts|
        invariant Filled(i)
      {
        Add(i);
      }
    }

    method SortBuckets()
      requires Filled(|texts|) && table.Length == |texts| * 5 / 4
      modifies table
      ensures Built()
    {
      for b := 0 to table.Length
        invariant Slotted() && Hashed(|texts|) && Buckets(keys, slots, |keys|, b, table[..])
      {
        assert table[..][b] == table[b];
        var more := SortBucket(b, table[b]);
        MoreFinished(keys, slots, |keys|, b, table[..], more);
        ghost var before := table[..];
        table[b] := more;
        assert table[..] == before[b := more];
      }
    }

    /** Definition `i` is hashed and goes to its bucket. */
    method Add(i: nat)
      requires Filled(i) && i < |texts|
      modifies this`hashes, table
      ensures Filled(i + 1)
    {
      var hash := LabelHash(u, texts[i]);
      hashes := hashes + [hash];
      var slot := hash % table.Length;
      assert table[..][slot] == table[slot];
      var more := Put(i, slot, table[slot]);
      ghost var before := table[..];
      MoreDefinitions(keys, slots, i, 0, before, slot, more);
      table[slot] := more;
      assert table[..] == before[slot := more];
    }

    method Put(i: nat, slot: nat, b: Bucket) returns (more: Bucket)
      requires Hashed(i + 1) && Slotted() && slots[i] == slot && Partial(keys, slots, i, slot, b)
      ensures Partial(keys, slots, i + 1, slot, more)
    {
      match b {
        case Empty =>
          HoldsOne(keys, i, slot, slots);
          more := One(i);
        case One(d) =>
          assert Listed(b)[0] == d;
          var cmp := LabelCmp(u, texts[i], texts[d]);
          if cmp == 0 {
            SameLabel(d, i);
            HoldsDuplicate(keys, i, slot, slots, [d], d);
            more := b;
          } else {
            HoldsTwo(keys, i, slot, slots, d);
            more := Many([d, i]);
          }
        case Many(defs) =>
          HoldsMore(keys, i, slot, slots, defs);
          more := Many(defs + [i]);
      }
    }

    /** Labels of definitions match only if their hashes are the same, too. */
    lemma {:induction false} SameLabel(d: nat, i: nat)
      requires Hashed(|hashes|) && d < |keys| && i < |keys|
      requires PadCmp(keys[i].text, keys[d].text) == 0
      ensures Same(keys[d], keys[i])
    {
      TrimmedIsSolid(u, texts[d]);
      TrimmedIsSolid(u, texts[i]);
      PadZero(keys[i].text, keys[d].text);
    }

    method SortBucket(ghost slot: nat, b: Bucket) returns (more: Bucket)
      requires Hashed(|texts|) && Slotted() && Partial(keys, slots, |keys|, slot, b)
      ensures Finished(keys, slots, slot, more)
    {
      if !b.Many? {
        SmallIsSorted(keys, slot, slots, Listed(b));
        return b;
      }
      InSlotIsWithin(keys, slot, slots, b.defs);
      var defs := Sort(b.defs);
      HoldsPermuted(keys, slot, slots, b.defs, defs);
      SameLength(b.defs, defs);
      var firsts := ReplaceDuplicates(defs);
      BucketIsSorted(keys, slot, slots, defs, firsts);
      more := Many(firsts);
    }

    static lemma {:induction false} InSlotIsWithin(keys: seq<Key>, slot: nat, slots: seq<nat>, defs: seq<nat>)
      requires |slots| == |keys| && InSlot(keys, |keys|, slot, slots, defs)
      ensures Within(keys, defs)
    {
    }

    static lemma {:induction false} SameLength(a: seq<nat>, b: seq<nat>)
      requires multiset(a) == multiset(b)
      ensures |a| == |b|
    {
      assert |multiset(a)| == |multiset(b)|;
    }

    /**
     * md_lookup_ref_def: what it finds is the first definition with a matching label, whatever label it is asked
     * for. It finds it exactly if that is in the bucket the label is hashed to, alone there or with the same hash,
     * and always if the label has no white space at its end.
     */
    method Lookup(text: Label) returns (r: Option<nat>)
      requires Built()
      ensures r == Found(text)
      ensures Trimmed(u, text) ==> r == FirstMatch(keys, Norm(u, text), 0)
      ensures forall k | 0 <= k < |texts| && Alike(u, texts[k], text) :: r.Some? && r.value <= k
    {
      hide Alike, Built, FirstMatch, Reaches, Norm;
      r := FindMatch(text);
      forall k | 0 <= k < |texts| && Alike(u, texts[k], text) ensures r.Some? && r.value <= k {
        AlikeFound(k, text);
      }
    }

    /** The first definition that matches, if it can be reached. */
    ghost function Found(text: Label): Option<nat>
      reads this, table
    {
      var first := FirstMatch(keys, Norm(u, text), 0);
      if first.Some? && Reaches(KeyOf(u, text), first.value) then first else None
    }

    /** A label that differs from that of a definition in white space before or between characters, or in case, finds one. */
    lemma {:induction false} AlikeFound(k: nat, text: Label)
      requires Built() && k < |texts| && Alike(u, texts[k], text)
      ensures Found(text).Some? && Found(text).value <= k
    {
      hide Alike, Buckets, FirstMatch, Norm;
      KeysAreProper(|texts|);
      AlikeMeansSame(u, texts[k], text);
      FirstSame(u, keys, Norm(u, text), k);
    }

    /** Labels that differ so find the same. */
    lemma {:induction false} AlikeFindSame(x: Label, y: Label)
      requires Built() && Alike(u, x, y)
      ensures Found(x) == Found(y)
    {
      hide Alike, Norm;
      AlikeMeansSame(u, x, y);
    }

    method FindMatch(text: Label) returns (r: Option<nat>)
      requires Built()
      ensures r == Found(text)
      ensures Trimmed(u, text) ==> r == FirstMatch(keys, Norm(u, text), 0)
    {
      KeysAreProper(|texts|);
      FirstMatchIsFirst(keys, Norm(u, text), 0);
      if table.Length == 0 {
        return None;
      }
      var hash := LabelHash(u, text);
      ghost var key := KeyOf(u, text);
      var slot := hash % table.Length;
      assert table[..][slot] == table[slot];
      r := LookIn(table[slot], hash, text);
      if FirstMatch(keys, key.text, 0).Some? {
        ghost var f := FirstMatch(keys, key.text, 0).value;
        TrimmedReaches(text, f);
        if slots[f] == slot {
          AnswerHere(u, keys, slots, slot, table[slot], key, f, r);
        } else {
          AnswerElsewhere(u, keys, slots, slot, table[slot], key, f, r);
        }
      }
    }

    /** The definition is in the bucket that is looked up, alone or with the hash that is looked up. */
    ghost predicate Reaches(key: Key, f: nat)
      requires f < |keys|
      reads this, table
    {
      table.Length > 0 && key.hash % table.Length == keys[f].hash % table.Length
      && (table[key.hash % table.Length].One? || key.hash == keys[f].hash)
    }

    lemma {:induction false} TrimmedReaches(text: Label, f: nat)
      requires Built() && Proper(u, keys) && IsFirst(keys, Norm(u, text), f)
      ensures Trimmed(u, text) ==> Reaches(KeyOf(u, text), f)
    {
      if Trimmed(u, text) {
        TrimmedIsSolid(u, text);
        PadZero(keys[f].text, Norm(u, text));
      }
    }

    method LookIn(b: Bucket, hash: nat, text: Label) returns (r: Option<nat>)
      requires Hashed(|texts|) && hash == KeyOf(u, text).hash
      requires forall k | 0 <= k < |Listed(b)| :: Listed(b)[k] < |keys|
      requires Searchable(keys, Listed(b))
      ensures Answer(keys, b, KeyOf(u, text), r)
    {
      match b {
        case Empty =>
          r := None;
        case One(d) =>
          assert Listed(b)[0] == d;
          var cmp := LabelCmp(u, texts[d], text);
          r := if cmp == 0 then Some(d) else None;
        case Many(defs) =>
          r := Search(hash, text, defs);
          if r.Some? {
            PadSym(KeyOf(u, text).text, keys[r.value].text);
          }
      }
    }

    /** bsearch with md_ref_def_cmp */
    method Search(hash: nat, text: Label, defs: seq<nat>) returns (r: Option<nat>)
      requires Hashed(|texts|) && Within(keys, defs) && Searchable(keys, defs) && hash == KeyOf(u, text).hash
      ensures r.Some? ==> r.value in defs && r.value < |texts| && Same(KeyOf(u, text), keys[r.value])
      ensures r.None? ==> forall k | 0 <= k < |defs| :: !Same(KeyOf(u, text), keys[defs[k]])
    {
      var lo, hi := 0, |defs|;
      ghost var key := KeyOf(u, text);
      while lo < hi
        invariant 0 <= lo <= hi <= |defs|
        invariant forall k | 0 <= k < lo :: !Same(key, keys[defs[k]])
        invariant forall k | hi <= k < |defs| :: !Same(key, keys[defs[k]])
      {
        var m := (lo + hi) / 2;
        var cmp := SearchCmp(hash, text, defs[m]);
        if cmp == 0 {
          return Some(defs[m]);
        } else if cmp < 0 {
          NotAfter(key, defs, m);
          hi := m;
        } else {
          NotBefore(key, defs, m);
          lo := m + 1;
        }
      }
      return None;
    }

    method SearchCmp(hash: nat, text: Label, d: nat) returns (cmp: int)
      requires Hashed(|texts|) && d < |texts| && hash == KeyOf(u, text).hash
      ensures cmp == KeyCmp(KeyOf(u, text), keys[d])
    {
      if hash < hashes[d] {
        return -1;
      } else if hash > hashes[d] {
        return 1;
      }
      cmp := LabelCmp(u, text, texts[d]);
    }

    lemma {:induction false} NotAfter(key: Key, defs: seq<nat>, m: nat)
      requires Within(keys, defs) && Searchable(keys, defs) && m < |defs| && KeyCmp(key, keys[defs[m]]) < 0
      ensures forall k | m <= k < |defs| :: !Same(key, keys[defs[k]])
    {
      forall k | m <= k < |defs| ensures !Same(key, keys[defs[k]]) {
        if k > m {
          KeyTrans(key, keys[defs[m]], keys[defs[k]]);
        }
      }
    }

    lemma {:induction false} NotBefore(key: Key, defs: seq<nat>, m: nat)
      requires Within(keys, defs) && Searchable(keys, defs) && m < |defs| && KeyCmp(key, keys[defs[m]]) > 0
      ensures forall k | 0 <= k <= m :: !Same(key, keys[defs[k]])
    {
      forall k | 0 <= k <= m ensures !Same(key, keys[defs[k]]) {
        KeySym(key, keys[defs[k]]);
        KeySym(key, keys[defs[m]]);
        if k < m {
          KeyTrans(keys[defs[k]], keys[defs[m]], key);
        }
      }
    }
  }

  // ----- white space at the end -----

  /** As if there were no white space but the space, and no upper case. */
  function Plain(mix: (nat, Code) -> nat): (u: Unicode)
    ensures Sane(u)
  {
    Unicode(c => c == SPACE, c => [c], mix)
  }

  lemma {:induction false} PlainKey(mix: (nat, Code) -> nat, c: Code)
    requires c != SPACE
    ensures KeyOf(Plain(mix), [c]) == Key(mix(BASE, c), [c])
  {
    var u := Plain(mix);
    PlainRest(mix, [c], 0);
    assert [c][0..] == [c];
    HashOne(u, BASE, c);
  }

  lemma {:induction false} HashOne(u: Unicode, h: nat, c: Code)
    ensures HashOf(u, h, [c]) == u.mix(h, c)
  {
    assert [c][1..] == [];
    assert HashOf(u, u.mix(h, c), []) == u.mix(h, c);
  }

  /** Where there is at most one space on end, every code point stands for itself. */
  lemma {:induction false} PlainRest(mix: (nat, Code) -> nat, text: Label, off: nat)
    requires off <= |text| && forall i | off <= i < |text| - 1 :: text[i] != SPACE
    ensures Rest(Plain(mix), text, off) == text[off..]
    ensures off < |text| && text[off] != SPACE ==> Skip(Plain(mix), text, off) == off
    decreases |text| - off
  {
    if off < |text| {
      PlainRest(mix, text, off + 1);
      assert text[off..] == [text[off]] + text[off + 1..];
      if text[off] == SPACE {
        assert Skip(Plain(mix), text, off + 1) == |text|;
      }
    }
  }

  lemma {:induction false} PlainKeySpace(mix: (nat, Code) -> nat, c: Code)
    requires c != SPACE
    ensures KeyOf(Plain(mix), [c, SPACE]) == Key(mix(mix(BASE, c), SPACE), [c, SPACE])
  {
    var u := Plain(mix);
    PlainRest(mix, [c, SPACE], 0);
    assert [c, SPACE][0..] == [c, SPACE] == [c] + [SPACE];
    HashOne(u, BASE, c);
    HashMore(u, BASE, [c], [SPACE]);
    HashOne(u, mix(BASE, c), SPACE);
  }

  lemma {:induction false} MatchesFirst(mix: (nat, Code) -> nat, keys: seq<Key>, a: Code, c: Code)
    requires |keys| == 2 && keys[0].text == [a] && keys[1].text == [c] && a != SPACE && c != SPACE && a != c
    ensures PadCmp([a], [a, SPACE]) == 0 && FirstMatch(keys, [a, SPACE], 0) == Some(0)
    ensures PadCmp([a], [c]) != 0
  {
    assert [a][1..] == [] && [a, SPACE][1..] == [SPACE] && [SPACE][1..] == [];
    assert PadCmp([], [SPACE]) == PadCmp([], []);
  }

  /** An entry that stands for two definitions. */
  lemma {:induction false} StandsForBoth(keys: seq<Key>, d: nat, i: nat, j: nat)
    requires i < |keys| && j < |keys| && Stands(keys, [d], i) && Stands(keys, [d], j)
    ensures Same(keys[i], keys[j])
  {
    KeySym(keys[d], keys[i]);
    SameTrans(keys[i], keys[d], keys[j]);
  }

  /** Two definitions share a bucket: the first one is not found by its label with a space at the end. */
  method MissedAtSpace(mix: (nat, Code) -> nat, a: Code, c: Code) returns (found: Option<nat>)
    requires a != SPACE && c != SPACE && a != c
    requires mix(BASE, a) % 2 == mix(BASE, c) % 2 == mix(mix(BASE, a), SPACE) % 2
    requires mix(BASE, a) != mix(mix(BASE, a), SPACE)
    ensures FirstMatch(KeysOf(Plain(mix), [[a], [c]]), Norm(Plain(mix), [a, SPACE]), 0) == Some(0)
    ensures found == None
  {
    var dictionary := new Dictionary(Plain(mix), [[a], [c]]);
    dictionary.Build();
    PlainKey(mix, a);
    PlainKey(mix, c);
    PlainKeySpace(mix, a);
    MatchesFirst(mix, dictionary.keys, a, c);
    dictionary.Both();
    found := dictionary.Lookup([a, SPACE]);
  }

  /** With the real hash the labels `a` and `c` will do. */
  lemma {:induction false} SpacesMatter() returns (a: Code, c: Code)
    ensures
      var mix := Fnv.HashCode;
      && a != SPACE && c != SPACE && a != c
      && mix(BASE, a) % 2 == mix(BASE, c) % 2 == mix(mix(BASE, a), SPACE) % 2
      && mix(BASE, a) != mix(mix(BASE, a), SPACE)
  {
    a, c := Fnv.Letters();
    Fnv.Hashes(BASE, a, c, SPACE);
  }
}
