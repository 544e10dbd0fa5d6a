/** The font-size control of the code panel (the "A-" and "A+" buttons). */
module CodeControls {

  const DefaultFontSize := 14
  const MinFontSize := 10
  const MaxFontSize := 24

  /** `Math.max(10, Math.min(24, size))`. */
  function ClampFontSize(size: int): (r: int)
    ensures MinFontSize <= r <= MaxFontSize
    ensures MinFontSize <= size <= MaxFontSize ==> r == size
    ensures size < MinFontSize ==> r == MinFontSize
    ensures size > MaxFontSize ==> r == MaxFontSize
  {
    Max(MinFontSize, Min(MaxFontSize, size))
  }

  function Max(a: int, b: int): int { if a < b then b else a }
  function Min(a: int, b: int): int { if a < b then a else b }

  /** The font size after pressing the buttons with the given deltas, in
      order, starting from the default. */
  function FontSizeAfter(deltas: seq<int>): int
  {
    if deltas == [] then DefaultFontSize
    else ClampFontSize(FontSizeAfter(deltas[..|deltas| - 1]) + deltas[|deltas| - 1])
  }

  /** Every reachable font size lies within the bounds. */
  lemma FontSizeReachableInBounds(deltas: seq<int>)
    ensures MinFontSize <= FontSizeAfter(deltas) <= MaxFontSize
  {
  }

  /** A step that does not cross a bound is undone by the opposite step. */
  lemma AdjustUndo(size: int, delta: int)
    requires MinFontSize <= size <= MaxFontSize
    requires MinFontSize <= size + delta <= MaxFontSize
    ensures ClampFontSize(ClampFontSize(size + delta) - delta) == size
  {
  }

  /** Pushing past a bound leaves the size at that bound. */
  lemma AtBoundStays(delta: int)
    ensures delta >= 0 ==> ClampFontSize(MaxFontSize + delta) == MaxFontSize
    ensures delta <= 0 ==> ClampFontSize(MinFontSize + delta) == MinFontSize
  {
  }

  /** The module-level `currentFontSize` of the page. */
  class CodeView {
    var fontSize: int

    ghost predicate Valid()
      reads this
    {
      MinFontSize <= fontSize <= MaxFontSize
    }

    constructor ()
      ensures Valid() && fontSize == DefaultFontSize
    {
      fontSize := DefaultFontSize;
    }

    /** adjustFontSize(delta): moves the size by `delta`, saturating at the
        bounds; a size already at a bound stays there when pushed past it. */
    method AdjustFontSize(delta: int)
      requires Valid()
      modifies this
      ensures Valid()
      ensures fontSize == ClampFontSize(old(fontSize) + delta)
      ensures old(fontSize) == MaxFontSize && delta >= 0 ==> fontSize == MaxFontSize
      ensures old(fontSize) == MinFontSize && delta <= 0 ==> fontSize == MinFontSize
    {
      fontSize := ClampFontSize(fontSize + delta);
    }
  }
}
