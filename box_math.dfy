/**
 * The integer arithmetic of the box layout engine: size clamping, the largest
 * child extent, running cursors along the packing axis, the split of the
 * children around a spacer, and the alignment offsets.
 */
module BoxMath {

  /** The five alignment constants, AlignTop .. AlignCenter. */
  datatype Align = AlignTop | AlignBottom | AlignLeft | AlignRight | AlignCenter

  function Min(a: int, b: int): int { if a <= b then a else b }

  function Max(a: int, b: int): int { if a >= b then a else b }

  /**
   * What a size setter stores for a request `v`: first raised to `lo`,
   * then lowered to `hi` (so `hi` wins when the bounds are crossed).
   */
  function Clamp(v: int, lo: int, hi: int): (r: int)
    ensures r <= hi
    ensures lo <= hi ==> lo <= r
    ensures lo <= v <= hi ==> r == v
    ensures lo <= hi && v < lo ==> r == lo
    ensures hi < lo ==> r == hi
  {
    Min(hi, Max(lo, v))
  }

  /** The largest element, or 0 for no elements (getMaxChildrenWidth/Height). */
  function MaxOf(s: seq<int>): (m: int)
    ensures s == [] ==> m == 0
    ensures forall i :: 0 <= i < |s| ==> s[i] <= m
    ensures s != [] ==> exists i :: 0 <= i < |s| && s[i] == m
  {
    if |s| == 0 then 0
    else if |s| == 1 then s[0]
    else Max(MaxOf(s[..|s| - 1]), s[|s| - 1])
  }

  function Sum(s: seq<int>): int
  {
    if s == [] then 0 else Sum(s[..|s| - 1]) + s[|s| - 1]
  }

  /** The cursor steps of the packing axis: every extent followed by the padding. */
  function Padded(extents: seq<int>, padding: int): (d: seq<int>)
  {
    seq(|extents|, i requires 0 <= i < |extents| => extents[i] + padding)
  }

  /** The leading coordinates produced by a cursor that starts at `start` and advances by `deltas`. */
  function Positions(start: int, deltas: seq<int>): (p: seq<int>)
    ensures |p| == |deltas|
  {
    if deltas == [] then []
    else
      var init := deltas[..|deltas| - 1];
      Positions(start, init) + [start + Sum(init)]
  }

  /** `n` copies of `v`: the cross-axis coordinate shared by all children. */
  function Repeat(v: int, n: nat): (r: seq<int>)
  {
    seq(n, _ => v)
  }

  /** The split point of `children[:k]` / `children[k:]` for a list of length n (Python slicing). */
  function SliceIndex(k: int, n: nat): (r: nat)
    ensures r <= n
    ensures 0 <= k <= n ==> r == k
    ensures k > n ==> r == n
    ensures k < 0 ==> r == Max(0, n + k)
  {
    if k < 0 then (if n + k < 0 then 0 else n + k)
    else if k > n then n
    else k
  }

  /**
   * The leading coordinates after spacer expansion: the first k children are
   * packed from `lead` (border plus margin) and the rest are packed so that the
   * cursor ends at `size - lead`.
   */
  function SpacerPositions(size: int, lead: int, deltas: seq<int>, k: nat): (p: seq<int>)
    requires k <= |deltas|
  {
    Positions(lead, deltas[..k]) + Positions(size - Sum(deltas[k..]) - lead, deltas[k..])
  }

  /**
   * Where `_adjustHeight` / `_adjustWidth` restart the children when the alignment
   * is not the leading one: at the trailing offset, or half of it for anything else.
   */
  function AlignedStart(trailing: bool, size: int, childarea: int, border: int, margin: int): (r: int)
    ensures trailing ==> r == size - childarea - border - margin
    ensures !trailing ==> 2 * r <= size - childarea - border - margin < 2 * r + 2
  {
    var offset := size - childarea - border - margin;
    if trailing then offset else offset / 2
  }

  // ---------------------------------------------------------------------
  // Lemmas

  /** A sum splits at any index. */
  lemma {:induction false} SumSplit(s: seq<int>, k: nat)
    requires k <= |s|
    ensures Sum(s[..k]) + Sum(s[k..]) == Sum(s)
    decreases |s|
  {
    if k < |s| {
      var t := s[..|s| - 1];
      SumSplit(t, k);
      assert t[..k] == s[..k];
      assert s[k..][..|s[k..]| - 1] == t[k..];
    } else {
      assert s[..k] == s;
      assert s[k..] == [];
    }
  }

  /** The packing extent of n children: their extents plus n paddings. */
  lemma {:induction false} SumPadded(extents: seq<int>, padding: int)
    ensures Sum(Padded(extents, padding)) == Sum(extents) + |extents| * padding
    decreases |extents|
  {
    if extents != [] {
      var t := extents[..|extents| - 1];
      SumPadded(t, padding);
      assert Padded(extents, padding)[..|extents| - 1] == Padded(t, padding);
      assert |extents| * padding == |t| * padding + padding;
    }
  }

  /** Child i starts after the deltas of the children before it. */
  lemma {:induction false} PositionsAt(start: int, deltas: seq<int>, i: nat)
    requires i < |deltas|
    ensures Positions(start, deltas)[i] == start + Sum(deltas[..i])
    decreases |deltas|
  {
    var init := deltas[..|deltas| - 1];
    if i < |init| {
      PositionsAt(start, init, i);
      assert init[..i] == deltas[..i];
    }
  }

  /** Consecutive children are one step apart: the cursor advances by each child's delta. */
  lemma PositionsStep(start: int, deltas: seq<int>, i: nat)
    requires i + 1 < |deltas|
    ensures Positions(start, deltas)[i + 1] == Positions(start, deltas)[i] + deltas[i]
  {
    PositionsAt(start, deltas, i);
    PositionsAt(start, deltas, i + 1);
    assert deltas[..i + 1][..i] == deltas[..i];
  }

  /** The first position is the start, and the cursor after the last child is start plus all deltas. */
  lemma PositionsEnds(start: int, deltas: seq<int>)
    requires deltas != []
    ensures Positions(start, deltas)[0] == start
    ensures Positions(start, deltas)[|deltas| - 1] + deltas[|deltas| - 1] == start + Sum(deltas)
  {
    PositionsAt(start, deltas, 0);
    PositionsAt(start, deltas, |deltas| - 1);
    assert deltas[..|deltas|] == deltas;
  }

  /** Children before the spacer index keep the leading packing of the first pass. */
  lemma SpacerKeepsLeading(size: int, lead: int, deltas: seq<int>, k: nat, i: nat)
    requires k <= |deltas| && i < k
    ensures SpacerPositions(size, lead, deltas, k)[i] == Positions(lead, deltas)[i]
  {
    PositionsAt(lead, deltas[..k], i);
    PositionsAt(lead, deltas, i);
    assert deltas[..k][..i] == deltas[..i];
  }

  /**
   * Children from the spacer index on are packed back from the trailing edge:
   * child i starts where the deltas of children i.. still fit before `size - lead`.
   */
  lemma {:induction false} SpacerTrailing(size: int, lead: int, deltas: seq<int>, k: nat, i: nat)
    requires k <= i < |deltas|
    ensures SpacerPositions(size, lead, deltas, k)[i] == size - lead - Sum(deltas[i..])
  {
    var tail := deltas[k..];
    PositionsAt(size - Sum(tail) - lead, tail, i - k);
    assert SpacerPositions(size, lead, deltas, k)[i]
        == size - Sum(tail) - lead + Sum(tail[..i - k]);
    SumSplit(tail, i - k);
    assert tail[i - k..] == deltas[i..];
  }

  /** The cursor after the last child ends exactly at the trailing edge `size - lead`. */
  lemma SpacerEndsAtTrailingEdge(size: int, lead: int, deltas: seq<int>, k: nat)
    requires k < |deltas|
    ensures var last := |deltas| - 1;
            SpacerPositions(size, lead, deltas, k)[last] + deltas[last] == size - lead
  {
    var last := |deltas| - 1;
    SpacerTrailing(size, lead, deltas, k, last);
    assert deltas[last..] == [deltas[last]];
  }

  /**
   * The leading group ends no later than the trailing group starts exactly when
   * the box is at least as large as both groups plus the border and margin on each side.
   */
  lemma {:induction false} SpacerGroupsDisjoint(size: int, lead: int, deltas: seq<int>, k: nat)
    requires k <= |deltas|
    ensures (lead + Sum(deltas[..k]) <= size - Sum(deltas[k..]) - lead)
        <==> size >= Sum(deltas) + 2 * lead
  {
    SumSplit(deltas, k);
  }

  /**
   * A box whose size is what the first pass asks for with a spacer
   * (deltas, then the margin, the border once, and the margin again) gets its
   * trailing group one border width before where the first pass put it: the
   * first pass counts the leading border, the expansion subtracts a trailing one.
   */
  lemma SpacerOnExactFit(size: int, border: int, margin: int, deltas: seq<int>, k: nat, i: nat)
    requires size == Sum(deltas) + 2 * margin + border
    requires k <= |deltas| && i < |deltas|
    ensures SpacerPositions(size, border + margin, deltas, k)[i]
              == Positions(border + margin, deltas)[i] - (if i >= k then border else 0)
  {
    var lead := border + margin;
    var packed := Positions(lead, deltas)[i];
    PositionsAt(lead, deltas, i);
    assert packed == lead + Sum(deltas[..i]);
    if i < k {
      SpacerKeepsLeading(size, lead, deltas, k, i);
    } else {
      SpacerTrailing(size, lead, deltas, k, i);
      SumSplit(deltas, i);
      var before, after := Sum(deltas[..i]), Sum(deltas[i..]);
      assert before + after == Sum(deltas);
      assert SpacerPositions(size, lead, deltas, k)[i] == size - lead - after;
    }
  }

  /** With the spacer after all children, expansion reproduces the leading packing. */
  lemma SpacerAtEnd(size: int, lead: int, deltas: seq<int>)
    ensures SpacerPositions(size, lead, deltas, |deltas|) == Positions(lead, deltas)
  {
    assert deltas[..|deltas|] == deltas;
    assert deltas[|deltas|..] == [];
  }

  /** One more step of the cursor appends one position and advances by one delta. */
  lemma PositionsSnoc(start: int, deltas: seq<int>, j: nat)
    requires j < |deltas|
    ensures Positions(start, deltas[..j + 1]) == Positions(start, deltas[..j]) + [start + Sum(deltas[..j])]
    ensures Sum(deltas[..j + 1]) == Sum(deltas[..j]) + deltas[j]
  {
    assert deltas[..j + 1][..j] == deltas[..j];
  }

  /** Cursor steps that are all zero leave every child at the start. */
  lemma {:induction false} SumZeros(n: nat)
    ensures Sum(Repeat(0, n)) == 0
  {
    if n > 0 {
      assert Repeat(0, n)[..n - 1] == Repeat(0, n - 1);
      SumZeros(n - 1);
    }
  }

  /** On the cross axis the delta is 0, so every child gets the same coordinate. */
  lemma PositionsOfZeros(start: int, n: nat)
    ensures Positions(start, Repeat(0, n)) == Repeat(start, n)
  {
    forall i | 0 <= i < n
      ensures Positions(start, Repeat(0, n))[i] == start
    {
      PositionsAt(start, Repeat(0, n), i);
      assert Repeat(0, n)[..i] == Repeat(0, i);
      SumZeros(i);
    }
  }
}
