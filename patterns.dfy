/**
 * Two small sequence helpers: `applyPats`, an index-wise "apply the function
 * if there is one" map, and the first-occurrence filter inside `getPalette`.
 * Patterns are opaque values here; the pattern machinery itself is not modelled.
 */
module Patterns {

  import opened Wrappers

  /**
   * One element of `applyPats`: `f?.(p) ?? p`. An absent function and a
   * function that returns nothing both leave `p` as it is.
   */
  function ApplyOne<P>(f: Option<P -> Option<P>>, p: P): P {
    if f.Some? then f.value(p).GetOr(p) else p
  }

  /** The function slot at index `i` of `fs`: absent past the end of the list. */
  function Slot<P>(fs: seq<Option<P -> Option<P>>>, i: nat): Option<P -> Option<P>> {
    if i < |fs| then fs[i] else None
  }

  /**
   * `applyPats(pats, fs)`: `pats.map((p, i) => fs[i]?.(p) ?? p)`. The result
   * is as long as `pats`; element `i` is `fs[i](pats[i])` when that function
   * exists and returns something, and `pats[i]` otherwise.
   */
  function ApplyPats<P>(pats: seq<P>, fs: seq<Option<P -> Option<P>>>): (r: seq<P>)
    ensures |r| == |pats|
    ensures forall i :: 0 <= i < |pats| ==>
      r[i] == (if i < |fs| && fs[i].Some? && fs[i].value(pats[i]).Some?
               then fs[i].value(pats[i]).value else pats[i])
  {
    seq(|pats|, i requires 0 <= i < |pats| => ApplyOne(Slot(fs, i), pats[i]))
  }

  /** With no function in any slot, `applyPats` returns the patterns unchanged. */
  lemma ApplyPatsNoFunctions<P>(pats: seq<P>, fs: seq<Option<P -> Option<P>>>)
    requires forall i :: 0 <= i < |fs| ==> fs[i].None?
    ensures ApplyPats(pats, fs) == pats
  {
    var r := ApplyPats(pats, fs);
    forall i | 0 <= i < |pats|
      ensures r[i] == pats[i]
    {
    }
  }

  /** Functions beyond the last pattern are never looked at. */
  lemma ApplyPatsIgnoresSurplus<P>(pats: seq<P>, fs: seq<Option<P -> Option<P>>>, more: seq<Option<P -> Option<P>>>)
    requires |pats| <= |fs|
    ensures ApplyPats(pats, fs + more) == ApplyPats(pats, fs)
  {
    var r := ApplyPats(pats, fs + more);
    forall i | 0 <= i < |pats|
      ensures r[i] == ApplyPats(pats, fs)[i]
    {
      assert (fs + more)[i] == fs[i];
    }
  }

  /**
   * `applyPats` works element by element: splitting the patterns splits the
   * result, the second half using the functions from the split point on.
   */
  lemma ApplyPatsAppend<P>(p1: seq<P>, p2: seq<P>, fs: seq<Option<P -> Option<P>>>)
    requires |p1| <= |fs|
    ensures ApplyPats(p1 + p2, fs) == ApplyPats(p1, fs) + ApplyPats(p2, fs[|p1|..])
  {
    var lhs := ApplyPats(p1 + p2, fs);
    var left := ApplyPats(p1, fs);
    var right := ApplyPats(p2, fs[|p1|..]);
    forall i | 0 <= i < |lhs|
      ensures lhs[i] == (left + right)[i]
    {
      if i < |p1| {
        assert (p1 + p2)[i] == p1[i];
      } else {
        var k := i - |p1|;
        assert (p1 + p2)[i] == p2[k];
        assert Slot(fs[|p1|..], k) == Slot(fs, i);
        assert (left + right)[i] == right[k];
      }
    }
  }

  /**
   * `t.indexOf(x)`: the index of the first element strictly equal to `x`, or
   * -1 when there is none.
   */
  function IndexOf<T(==)>(t: seq<T>, x: T): (i: int)
    ensures -1 <= i < |t|
    ensures i == -1 <==> x !in t
    ensures i >= 0 ==> t[i] == x
    ensures forall j :: 0 <= j < i ==> t[j] != x
  {
    if t == [] then -1
    else if t[0] == x then 0
    else
      var j := IndexOf(t[1..], x);
      if j == -1 then -1 else j + 1
  }

  /**
   * The palette filter from index `k` on: element `i` of `t` is kept when it
   * is a colour string and `t.indexOf(t[i]) == i`; anything that is not a
   * string is `None`. Strings compare by value under `===`, so the colour
   * type is any type with equality.
   */
  function FirstStringsFrom<C(==)>(t: seq<Option<C>>, k: nat): seq<C>
    requires k <= |t|
    decreases |t| - k
  {
    if k == |t| then []
    else
      var rest := FirstStringsFrom(t, k + 1);
      if t[k].Some? && IndexOf(t, t[k]) == k then [t[k].value] + rest else rest
  }

  /** `t.indexOf(c)` for a colour `c`, as a named term. */
  function FirstAt<C(==)>(t: seq<Option<C>>, c: C): int {
    IndexOf(t, Some(c))
  }

  /** The filter from `k` on keeps `c` exactly when `c` occurs in `t` and first occurs at or after `k`. */
  lemma {:induction false} FirstStringsFromMember<C>(t: seq<Option<C>>, k: nat, c: C)
    requires k <= |t|
    ensures c in FirstStringsFrom(t, k) <==> Some(c) in t && FirstAt(t, c) >= k
    decreases |t| - k
  {
    if k < |t| {
      FirstStringsFromMember(t, k + 1, c);
      var rest := FirstStringsFrom(t, k + 1);
      var firstHere := FirstAt(t, c) == k;
      assert firstHere ==> t[k] == Some(c);
      if t[k].Some? && IndexOf(t, t[k]) == k {
        assert FirstStringsFrom(t, k) == [t[k].value] + rest;
      } else {
        assert FirstStringsFrom(t, k) == rest;
      }
    }
  }

  /** The filter from `k` on lists what it keeps in the order of their first occurrences. */
  lemma {:induction false} FirstStringsFromOrdered<C>(t: seq<Option<C>>, k: nat, i: nat, j: nat)
    requires k <= |t|
    requires i < j < |FirstStringsFrom(t, k)|
    ensures FirstAt(t, FirstStringsFrom(t, k)[i]) < FirstAt(t, FirstStringsFrom(t, k)[j])
    decreases |t| - k
  {
    var rest := FirstStringsFrom(t, k + 1);
    var r := FirstStringsFrom(t, k);
    if t[k].Some? && IndexOf(t, t[k]) == k {
      assert r == [t[k].value] + rest;
      if i == 0 {
        assert r[j] == rest[j - 1];
        FirstStringsFromMember(t, k + 1, r[j]);
        assert Some(r[0]) == t[k];
      } else {
        assert r[i] == rest[i - 1] && r[j] == rest[j - 1];
        FirstStringsFromOrdered(t, k + 1, i - 1, j - 1);
      }
    } else {
      assert r == rest;
      FirstStringsFromOrdered(t, k + 1, i, j);
    }
  }

  /** The palette filter applied to the whole colour list. */
  lemma PaletteSpec<C>(t: seq<Option<C>>)
    ensures forall c :: c in FirstStringsFrom(t, 0) <==> Some(c) in t
    ensures forall i, j :: 0 <= i < j < |FirstStringsFrom(t, 0)| ==>
      FirstAt(t, FirstStringsFrom(t, 0)[i]) < FirstAt(t, FirstStringsFrom(t, 0)[j])
  {
    var r := FirstStringsFrom(t, 0);
    forall c
      ensures c in r <==> Some(c) in t
    {
      FirstStringsFromMember(t, 0, c);
    }
    forall i, j | 0 <= i < j < |r|
      ensures FirstAt(t, r[i]) < FirstAt(t, r[j])
    {
      FirstStringsFromOrdered(t, 0, i, j);
    }
  }

  /**
   * `getPalette`'s filter applied to the colours of a theme: the distinct
   * strings, each once, in the order they first appear.
   */
  function Palette<C(==, !new)>(t: seq<Option<C>>): (r: seq<C>)
    ensures forall c :: c in r <==> Some(c) in t
    ensures forall i, j :: 0 <= i < j < |r| ==> FirstAt(t, r[i]) < FirstAt(t, r[j])
    ensures forall i, j :: 0 <= i < j < |r| ==> r[i] != r[j]
  {
    PaletteSpec(t);
    FirstStringsFrom(t, 0)
  }

  /** Every element of `cs` as a colour string. */
  function Strings<C>(cs: seq<C>): (t: seq<Option<C>>)
    ensures |t| == |cs|
    ensures forall i :: 0 <= i < |cs| ==> t[i] == Some(cs[i])
  {
    seq(|cs|, i requires 0 <= i < |cs| => Some(cs[i]))
  }

  /** In a list of distinct colours, each colour is first found at its own index. */
  lemma IndexOfDistinct<C>(cs: seq<C>, i: nat)
    requires forall a, b :: 0 <= a < b < |cs| ==> cs[a] != cs[b]
    requires i < |cs|
    ensures IndexOf(Strings(cs), Some(cs[i])) == i
  {
    var t := Strings(cs);
    assert t[i] == Some(cs[i]);
  }

  /** From index `k` on, the filter keeps the rest of a list of distinct colours. */
  lemma {:induction false} FirstStringsOfDistinct<C>(cs: seq<C>, k: nat)
    requires forall a, b :: 0 <= a < b < |cs| ==> cs[a] != cs[b]
    requires k <= |cs|
    ensures FirstStringsFrom(Strings(cs), k) == cs[k..]
    decreases |cs| - k
  {
    var t := Strings(cs);
    if k < |cs| {
      IndexOfDistinct(cs, k);
      FirstStringsOfDistinct(cs, k + 1);
      assert FirstStringsFrom(t, k) == [cs[k]] + cs[k + 1..];
      assert cs[k..] == [cs[k]] + cs[k + 1..];
    }
  }

  /** A palette without repeats and non-strings passes through the filter unchanged. */
  lemma PaletteOfDistinct<C(!new)>(cs: seq<C>)
    requires forall i, j :: 0 <= i < j < |cs| ==> cs[i] != cs[j]
    ensures Palette(Strings(cs)) == cs
  {
    FirstStringsOfDistinct(cs, 0);
  }

  /** Filtering a palette a second time changes nothing. */
  lemma PaletteIdempotent<C(!new)>(t: seq<Option<C>>)
    ensures Palette(Strings(Palette(t))) == Palette(t)
  {
    PaletteOfDistinct(Palette(t));
  }
}
