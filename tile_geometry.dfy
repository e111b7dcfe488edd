/**
 * Tile-geometry arithmetic of the image enhancer: rounding image dimensions
 * up to whole tiles, and choosing how many tiles to cut an image into so that
 * each tile stays within a pixel budget.
 *
 * Integers are mathematical: the 32-bit overflow of the source is not modelled.
 */
module TileGeometry {
  import Wrappers

  /** The exception C# integer division and remainder throw on a zero divisor. */
  datatype ArithmeticError = DivideByZero

  function Abs(a: int): nat {
    if a < 0 then -a else a
  }

  /** A positive multiple of a positive number is at least that number. */
  lemma MulAtLeast(x: int, d: int)
    ensures x > 0 && d >= 1 ==> x * d >= x
  {
  }

  /** Euclidean division of a natural by a positive number. */
  lemma NatDiv(a: int, b: int)
    requires a >= 0 && b > 0
    ensures a == b * (a / b) + a % b && 0 <= a % b < b
    ensures a / b >= 0
    ensures a / b == 0 <==> a < b
  {
  }

  /** `a == x * q + r` with `0 <= r < x` pins down `a / x` and `a % x`. */
  lemma DivModUnique(a: int, x: int, q: int, r: int)
    requires x > 0 && a == x * q + r && 0 <= r < x
    ensures a / x == q && a % x == r
  {
    var d := q - a / x;
    assert x * d == a % x - r by {
      assert a == x * (a / x) + a % x;
      assert x * q - x * (a / x) == x * d;
    }
    MulAtLeast(x, d);
    MulAtLeast(x, -d);
    assert x * (-d) == -(x * d);
  }

  /** C#'s `a / b`: integer division truncating toward zero. */
  function CsDiv(a: int, b: int): (q: int)
    requires b != 0
    ensures Abs(q) == Abs(a) / Abs(b)
    ensures q == 0 || ((q > 0) <==> ((a > 0) == (b > 0)))
    ensures a >= 0 && b > 0 ==> q == a / b
  {
    NatDiv(Abs(a), Abs(b));
    var n := Abs(a) / Abs(b);
    if (a >= 0) == (b > 0) then n else -n
  }

  /** C#'s `a % b`: the remainder of truncating division, with the sign of `a`. */
  function CsRem(a: int, b: int): (r: int)
    requires b != 0
    ensures a == b * CsDiv(a, b) + r
    ensures Abs(r) == Abs(a) % Abs(b) && Abs(r) < Abs(b)
    ensures a >= 0 ==> r >= 0
    ensures a <= 0 ==> r <= 0
    ensures a >= 0 && b > 0 ==> r == a % b
  {
    NatDiv(Abs(a), Abs(b));
    var n, m := Abs(a) / Abs(b), Abs(a) % Abs(b);
    if a >= 0 && b > 0 then
      m
    else if a >= 0 then
      assert b * -n == (-b) * n;
      m
    else if b > 0 then
      assert b * -n == -(b * n);
      -m
    else
      assert b * n == -((-b) * n);
      -m
  }

  /** A multiple of b leaves no C# remainder. */
  lemma CsRemOfMultiple(b: int, k: int)
    requires b != 0
    ensures CsRem(b * k, b) == 0
  {
    assert Abs(b * k) == Abs(b) * Abs(k) by {
      if b < 0 && k < 0 { assert b * k == (-b) * (-k); }
      else if b < 0 { assert b * k == -((-b) * k); }
      else if k < 0 { assert b * k == -(b * (-k)); }
    }
    DivModUnique(Abs(b * k), Abs(b), Abs(k), 0);
  }

  /**
   * One dimension of GetGoodDimensions: when v leaves a C# remainder modulo
   * t, add t minus that remainder. The result has no remainder modulo t, equals v
   * exactly when v had none, and for v >= 0, t > 0 is the least multiple of t
   * that is at least v. For a negative v the C# remainder is negative, and
   * the result jumps past the next multiple.
   */
  function RoundUp(v: int, t: int): (r: int)
    requires t != 0
    ensures CsRem(r, t) == 0
    ensures r == v <==> CsRem(v, t) == 0
    ensures v >= 0 && t > 0 ==> v <= r < v + t
    ensures v < 0 && t > 0 && CsRem(v, t) != 0 ==> v + t < r < v + 2 * t
  {
    var rem := CsRem(v, t);
    if rem != 0 then
      assert v + (t - rem) == t * (CsDiv(v, t) + 1);
      CsRemOfMultiple(t, CsDiv(v, t) + 1);
      v + (t - rem)
    else v
  }

  /**
   * GetGoodDimensions: round width up to a multiple of x and height up to a
   * multiple of y. A zero x or y makes the first remainder by it throw.
   */
  function GoodDimensions(width: int, height: int, x: int, y: int): (r: Wrappers.Result<(int, int), ArithmeticError>)
    ensures r.Failure? <==> x == 0 || y == 0
    ensures r.Failure? ==> r.error == DivideByZero
    ensures r.Success? ==> CsRem(r.value.0, x) == 0 && CsRem(r.value.1, y) == 0
    ensures r.Success? ==> (r.value.0 == width <==> CsRem(width, x) == 0)
    ensures r.Success? ==> (r.value.1 == height <==> CsRem(height, y) == 0)
    ensures r.Success? && width >= 0 && x > 0 ==> width <= r.value.0 < width + x
    ensures r.Success? && height >= 0 && y > 0 ==> height <= r.value.1 < height + y
  {
    if x == 0 || y == 0 then Wrappers.Failure(DivideByZero)
    else Wrappers.Success((RoundUp(width, x), RoundUp(height, y)))
  }

  // ---------------------------------------------------------------------------
  // GetTilesSize(width, height, maxTileResolution)
  // ---------------------------------------------------------------------------

  predicate Divides(k: int, n: int) {
    k != 0 && n % k == 0
  }

  /**
   * The inner `for` loop: increment `count` up to `budget` times, stopping
   * right after the first value that divides `total`. With budget 5 it always
   * increments at least once, so the fallback after the loop, which adds one
   * when the count did not move, never fires.
   */
  function Advance(total: nat, count: nat, budget: nat): (r: nat)
    requires count >= 1
    ensures budget == 0 ==> r == count
    ensures budget > 0 ==> count < r <= count + budget
    ensures r == count + budget || Divides(r, total)
    ensures forall k :: count < k < r ==> !Divides(k, total)
    decreases budget
  {
    if budget == 0 then count
    else if total % (count + 1) == 0 then count + 1
    else Advance(total, count + 1, budget - 1)
  }

  /** The extent of one tile along a dimension (`height / tilesHeight`). */
  function Extent(size: nat, tiles: nat): nat
    requires tiles >= 1
  {
    size / tiles
  }

  /** One pass of the `while` body: returns (tilesWidth, tilesHeight). */
  function Step(width: nat, height: nat, tilesWidth: nat, tilesHeight: nat): (r: (nat, nat))
    requires tilesWidth >= 1 && tilesHeight >= 1
    ensures Extent(height, tilesHeight) >= Extent(width, tilesWidth) ==>
      r.0 == tilesWidth && tilesHeight < r.1 <= tilesHeight + 5
    ensures Extent(height, tilesHeight) < Extent(width, tilesWidth) ==>
      r.1 == tilesHeight && tilesWidth < r.0 <= tilesWidth + 5
  {
    if Extent(height, tilesHeight) >= Extent(width, tilesWidth) then
      var t := Advance(height, tilesHeight, 5);
      (tilesWidth, if t == tilesHeight then t + 1 else t)
    else
      var t := Advance(width, tilesWidth, 5);
      (if t == tilesWidth then t + 1 else t, tilesHeight)
  }

  /** Whether one tile of the current split holds more pixels than the limit (the loop guard). */
  predicate TooLarge(width: nat, height: nat, maxTileResolution: int, tilesWidth: nat, tilesHeight: nat)
    requires tilesWidth >= 1 && tilesHeight >= 1
  {
    Extent(height, tilesHeight) * Extent(width, tilesWidth) > maxTileResolution
  }

  /** A tile that is still too large under a non-negative limit is at least one pixel each way. */
  lemma TooLargeBounds(width: nat, height: nat, maxTileResolution: int, tilesWidth: nat, tilesHeight: nat)
    requires maxTileResolution >= 0 && tilesWidth >= 1 && tilesHeight >= 1
    requires TooLarge(width, height, maxTileResolution, tilesWidth, tilesHeight)
    ensures tilesWidth <= width && tilesHeight <= height
  {
    NatDiv(height, tilesHeight);
    NatDiv(width, tilesWidth);
    var eh: int, ew: int := Extent(height, tilesHeight), Extent(width, tilesWidth);
    assert eh == 0 || ew == 0 ==> eh * ew == 0;
  }

  /**
   * The split the loop settles on when started from (tilesWidth, tilesHeight):
   * the first state along the steps whose tiles fit within the limit.
   */
  function Tiles(width: nat, height: nat, maxTileResolution: int, tilesWidth: nat, tilesHeight: nat): (r: (nat, nat))
    requires maxTileResolution >= 0
    requires 1 <= tilesWidth <= width + 5 && 1 <= tilesHeight <= height + 5
    ensures r.0 >= tilesWidth && r.1 >= tilesHeight
    ensures r.0 <= width + 5 && r.1 <= height + 5
    ensures !TooLarge(width, height, maxTileResolution, r.0, r.1)
    ensures !TooLarge(width, height, maxTileResolution, tilesWidth, tilesHeight) ==>
      r == (tilesWidth, tilesHeight)
    decreases width + height + 10 - tilesWidth - tilesHeight
  {
    if !TooLarge(width, height, maxTileResolution, tilesWidth, tilesHeight) then
      (tilesWidth, tilesHeight)
    else
      TooLargeBounds(width, height, maxTileResolution, tilesWidth, tilesHeight);
      var next := Step(width, height, tilesWidth, tilesHeight);
      Tiles(width, height, maxTileResolution, next.0, next.1)
  }

  /**
   * GetTilesSize(width, height, maxTileResolution): keep splitting the
   * dimension whose tiles are longer until one tile holds at most
   * maxTileResolution pixels; returns (tilesWidth, tilesHeight).
   */
  method GetTilesSize(width: nat, height: nat, maxTileResolution: int) returns (tilesWidth: int, tilesHeight: int)
    requires maxTileResolution >= 0
    ensures (tilesWidth, tilesHeight) == Tiles(width, height, maxTileResolution, 1, 1)
    ensures tilesWidth >= 1 && tilesHeight >= 1
    ensures !TooLarge(width, height, maxTileResolution, tilesWidth, tilesHeight)
    ensures !TooLarge(width, height, maxTileResolution, 1, 1) ==> tilesWidth == 1 && tilesHeight == 1
  {
    tilesHeight, tilesWidth := 1, 1;
    while TooLarge(width, height, maxTileResolution, tilesWidth, tilesHeight)
      invariant 1 <= tilesWidth <= width + 5 && 1 <= tilesHeight <= height + 5
      invariant Tiles(width, height, maxTileResolution, tilesWidth, tilesHeight)
             == Tiles(width, height, maxTileResolution, 1, 1)
      decreases width + height + 10 - tilesWidth - tilesHeight
    {
      TooLargeBounds(width, height, maxTileResolution, tilesWidth, tilesHeight);
      var oldTilesHeight, oldTilesWidth := tilesHeight, tilesWidth;
      if Extent(height, tilesHeight) >= Extent(width, tilesWidth) {
        for i := 0 to 5
          invariant tilesHeight == oldTilesHeight + i
          invariant Advance(height, tilesHeight, 5 - i) == Advance(height, oldTilesHeight, 5)
        {
          tilesHeight := tilesHeight + 1;
          if height % tilesHeight == 0 {
            break;
          }
        }
        if tilesHeight == oldTilesHeight {
          tilesHeight := tilesHeight + 1;
        }
      } else {
        for i := 0 to 5
          invariant tilesWidth == oldTilesWidth + i
          invariant Advance(width, tilesWidth, 5 - i) == Advance(width, oldTilesWidth, 5)
        {
          tilesWidth := tilesWidth + 1;
          if width % tilesWidth == 0 {
            break;
          }
        }
        if tilesWidth == oldTilesWidth {
          tilesWidth := tilesWidth + 1;
        }
      }
      assert (tilesWidth, tilesHeight) == Step(width, height, oldTilesWidth, oldTilesHeight);
    }
  }

  /**
   * The loop's exit in the source's own arithmetic: both counts are at least
   * one, one tile holds at most maxTileResolution pixels, and an image that
   * already fits is left in one piece.
   */
  lemma TilesFitLimit(width: nat, height: nat, maxTileResolution: int)
    requires maxTileResolution >= 0
    ensures var r := Tiles(width, height, maxTileResolution, 1, 1);
      && r.0 >= 1 && r.1 >= 1
      && (height / r.1) * (width / r.0) <= maxTileResolution
      && (height * width <= maxTileResolution ==> r == (1, 1))
  {
  }

  // ---------------------------------------------------------------------------
  // GetTilesSize(width, height, tileWidth, tileHeight)
  // ---------------------------------------------------------------------------

  /**
   * The four-argument GetTilesSize as written: both counts divide by
   * tileHeight, and tileWidth is never read, so only a zero tileHeight
   * throws. For non-negative sizes and a positive tileHeight, each count is
   * how many whole tileHeight-long tiles fit.
   */
  function TilesSizeByTile(width: int, height: int, tileWidth: int, tileHeight: int): (r: Wrappers.Result<(int, int), ArithmeticError>)
    ensures r.Failure? <==> tileHeight == 0
    ensures r.Failure? ==> r.error == DivideByZero
    ensures r.Success? && width >= 0 && tileHeight > 0 ==>
      r.value.0 * tileHeight <= width < (r.value.0 + 1) * tileHeight
    ensures r.Success? && height >= 0 && tileHeight > 0 ==>
      r.value.1 * tileHeight <= height < (r.value.1 + 1) * tileHeight
  {
    if tileHeight == 0 then Wrappers.Failure(DivideByZero)
    else Wrappers.Success((CsDiv(width, tileHeight), CsDiv(height, tileHeight)))
  }

  /**
   * The overload as evidently intended: the width count divides by
   * tileWidth, so a zero tileWidth or tileHeight throws.
   */
  function TilesSizeByTileIntended(width: int, height: int, tileWidth: int, tileHeight: int): (r: Wrappers.Result<(int, int), ArithmeticError>)
    ensures r.Failure? <==> tileWidth == 0 || tileHeight == 0
    ensures r.Failure? ==> r.error == DivideByZero
    ensures r.Success? && width >= 0 && tileWidth > 0 ==>
      r.value.0 * tileWidth <= width < (r.value.0 + 1) * tileWidth
    ensures r.Success? && height >= 0 && tileHeight > 0 ==>
      r.value.1 * tileHeight <= height < (r.value.1 + 1) * tileHeight
  {
    if tileWidth == 0 || tileHeight == 0 then Wrappers.Failure(DivideByZero)
    else Wrappers.Success((CsDiv(width, tileWidth), CsDiv(height, tileHeight)))
  }

  /** The result does not depend on tileWidth. */
  lemma TileWidthNeverRead(width: int, height: int, tileWidth1: int, tileWidth2: int, tileHeight: int)
    ensures TilesSizeByTile(width, height, tileWidth1, tileHeight) == TilesSizeByTile(width, height, tileWidth2, tileHeight)
  {
  }

  /**
   * A 100x100 image cut into 50x25 tiles: the code reports 4 columns, where 2
   * are meant; and a zero tileWidth, which the intended division would reject,
   * goes through.
   */
  lemma TileWidthIgnored()
    ensures TilesSizeByTile(100, 100, 50, 25) == Wrappers.Success((4, 4))
    ensures TilesSizeByTileIntended(100, 100, 50, 25) == Wrappers.Success((2, 4))
    ensures TilesSizeByTile(100, 100, 0, 25) == Wrappers.Success((4, 4))
    ensures TilesSizeByTileIntended(100, 100, 0, 25) == Wrappers.Failure(DivideByZero)
  {
  }
}
