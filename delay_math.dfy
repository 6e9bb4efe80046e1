/** Integer helpers of the delay calculation (delay.h and delay.cpp).
    The source computes on int64_t with C++ operators: `/` truncates toward
    zero and `%` takes the sign of the dividend, and a `bool` used in
    arithmetic is 0 or 1. These are written out below; Dafny's own `/` and
    `%` (Euclidean) are used only as the independent reference. */
module DelayMath {

  /** C++ `x / y`: the quotient truncated toward zero. */
  function Quot(x: int, y: int): (q: int)
    requires y != 0
    ensures x >= 0 && y > 0 ==> q == x / y
    ensures x < 0 && y > 0 ==> q == -((-x) / y)
  {
    var a := if x < 0 then -x else x;
    var b := if y < 0 then -y else y;
    if (x < 0) == (y < 0) then a / b else -(a / b)
  }

  /** C++ `x % y`: what is left after the truncated quotient. */
  function Rem(x: int, y: int): (r: int)
    requires y != 0
    ensures x == Quot(x, y) * y + r
    ensures x >= 0 ==> 0 <= r
    ensures x <= 0 ==> r <= 0
    ensures r < y || r < -y
    ensures -y < r || y < r
  {
    x - Quot(x, y) * y
  }

  /** A C++ `bool` promoted to an integer. */
  function B2I(b: bool): (n: int)
    ensures 0 <= n <= 1
    ensures n == 1 <==> b
  {
    if b then 1 else 0
  }

  /** C++ `%` is zero exactly when y divides x. */
  lemma RemZeroIffDivides(x: int, y: int)
    requires y > 0
    ensures Rem(x, y) == 0 <==> x % y == 0
  {
    if Rem(x, y) == 0 {
      DividesMod(x, y, Quot(x, y));
    } else if x % y == 0 {
      QuotOfMultiple(x / y, y);
    }
  }

  /** Euclidean division is determined by its defining equation. */
  lemma EuclidUnique(x: int, y: int, q: int, r: int)
    requires y > 0 && x == q * y + r && 0 <= r < y
    ensures q == x / y && r == x % y
  {
    var q0, r0 := x / y, x % y;
    assert (q - q0) * y == r0 - r;
    if q > q0 { MulMono(1, q - q0, y); assert false; }
    if q < q0 { MulMono(1, q0 - q, y); assert false; }
  }

  lemma DividesMod(x: int, y: int, k: int)
    requires y > 0 && x == k * y
    ensures x % y == 0 && x / y == k
  {
    EuclidUnique(x, y, k, 0);
  }

  lemma QuotOfMultiple(k: int, y: int)
    requires y > 0
    ensures Quot(k * y, y) == k
  {
    if k >= 0 {
      DividesMod(k * y, y, k);
    } else {
      assert -(k * y) == (-k) * y;
      DividesMod(-(k * y), y, -k);
    }
  }

  /** `floordiv` (delay.h:7-9, delay.cpp:28-30): truncating division. */
  function FloorDiv(x: int, y: int): (q: int)
    requires y != 0
    ensures x >= 0 && y > 0 ==> 0 <= q <= x
  {
    DivBound(x, y);
    Quot(x, y)
  }

  /** A non-negative number divided by a positive one is non-negative and
      no larger. */
  lemma DivBound(x: int, y: int)
    requires y != 0
    ensures x >= 0 && y > 0 ==> 0 <= x / y <= x
  {
    if x >= 0 && y > 0 {
      var q := x / y;
      assert x == q * y + x % y;
      if q < 0 { MulMono(q, -1, y); assert false; }
      if q > 0 { MulMono(1, y, q); }
    }
  }

  /** For a non-negative dividend and a positive divisor the truncated
      quotient is the floor: the largest q with q * y <= x. */
  lemma FloorDivIsFloor(x: int, y: int)
    requires x >= 0 && y > 0
    ensures FloorDiv(x, y) * y <= x < (FloorDiv(x, y) + 1) * y
    ensures FloorDiv(x, y) >= 0
  {
    var q := x / y;
    assert x == q * y + x % y;
    assert (q + 1) * y == q * y + y;
    if q < 0 { MulMono(q, -1, y); assert false; }
  }

  /** `ceildiv` (delay.h:12-14, delay.cpp:33-35). */
  function CeilDiv(x: int, y: int): (q: int)
    requires y != 0
    ensures x >= 0 && y > 0 ==> 0 <= q && (q == 0 <==> x == 0)
  {
    Quot(x, y) + B2I(Rem(x, y) != 0)
  }

  /** For x >= 0 and y > 0, ceildiv(x, y) is the least q with q * y >= x. */
  lemma CeilDivIsLeast(x: int, y: int)
    requires x >= 0 && y > 0
    ensures CeilDiv(x, y) * y >= x
    ensures (CeilDiv(x, y) - 1) * y < x || x == 0
    ensures CeilDiv(x, y) >= 0
    ensures x == 0 ==> CeilDiv(x, y) == 0
  {
    FloorDivIsFloor(x, y);
    var q := Quot(x, y);
    var r := Rem(x, y);
    assert x == q * y + r && 0 <= r < y;
    if r != 0 {
      assert CeilDiv(x, y) * y == q * y + y;
    }
  }

  /** Any q with q * y >= x is at least ceildiv(x, y). */
  lemma CeilDivBelowEveryCover(x: int, y: int, q: int)
    requires x >= 0 && y > 0 && q * y >= x
    ensures CeilDiv(x, y) <= q
  {
    CeilDivIsLeast(x, y);
    var c := CeilDiv(x, y);
    if c > q {
      if x == 0 {
        MulMono(q, -1, y);
      } else {
        MulMono(q, c - 1, y);
      }
      assert false;
    }
  }

  lemma MulMono(a: int, b: int, y: int)
    requires a <= b && y > 0
    ensures a * y <= b * y
  {
  }

  /** `ceildiv_up` (delay.h:17-19, delay.cpp:38-40). */
  function CeilDivUp(x: int, y: int): (q: int)
    requires y != 0
    ensures x >= 0 && y > 0 ==> q >= 1
  {
    DivBound(x, y);
    Quot(x, y) + 1
  }

  /** ceildiv_up exceeds ceildiv by one exactly when y divides x, and equals
      it otherwise; this holds for every dividend, not only x >= 0. */
  lemma CeilDivUpVersusCeilDiv(x: int, y: int)
    requires y > 0
    ensures x % y == 0 ==> CeilDivUp(x, y) == CeilDiv(x, y) + 1
    ensures x % y != 0 ==> CeilDivUp(x, y) == CeilDiv(x, y)
  {
    RemZeroIffDivides(x, y);
  }

  /** `numPackets` (delay.h:21-23, delay.cpp:57-59). */
  function NumPackets(interval: int, bag: int, jit: int): (r: int)
    requires bag != 0
    ensures bag > 0 && interval + jit >= 0 ==> 0 <= r && (r == 0 <==> interval + jit == 0)
  {
    CeilDiv(interval + jit, bag)
  }

  /** `numPacketsUp` (delay.h:26-28, delay.cpp:62-64). */
  function NumPacketsUp(interval: int, bag: int, jit: int): (r: int)
    requires bag != 0
    ensures bag > 0 && interval + jit >= 0 ==> r >= 1
  {
    CeilDivUp(interval + jit, bag)
  }

  /** More interval or more jitter never means fewer packets (for a
      non-negative window and a positive bag). */
  lemma NumPacketsMonotone(interval: int, interval': int, bag: int, jit: int, jit': int)
    requires bag > 0 && 0 <= interval + jit
    requires interval <= interval' && jit <= jit'
    ensures NumPackets(interval, bag, jit) <= NumPackets(interval', bag, jit')
  {
    var x, x' := interval + jit, interval' + jit';
    CeilDivIsLeast(x', bag);
    CeilDivBelowEveryCover(x, bag, CeilDiv(x', bag));
  }

  /** Within a bag, numPackets counts every packet that starts in the window
      [0, interval + jit): k packets cover the window exactly when k * bag
      reaches its length. */
  lemma NumPacketsCoversWindow(interval: int, bag: int, jit: int)
    requires bag > 0 && 0 <= interval + jit
    ensures NumPackets(interval, bag, jit) * bag >= interval + jit
    ensures forall k: int {:trigger k * bag} :: k * bag >= interval + jit ==> NumPackets(interval, bag, jit) <= k
  {
    CeilDivIsLeast(interval + jit, bag);
    forall k: int | k * bag >= interval + jit
      ensures NumPackets(interval, bag, jit) <= k
    {
      CeilDivBelowEveryCover(interval + jit, bag, k);
    }
  }

  /** The "limit from above" never undercounts. */
  lemma NumPacketsUpAtLeast(interval: int, bag: int, jit: int)
    requires bag > 0
    ensures NumPacketsUp(interval, bag, jit) >= NumPackets(interval, bag, jit)
    ensures NumPacketsUp(interval, bag, jit) <= NumPackets(interval, bag, jit) + 1
  {
    CeilDivUpVersusCeilDiv(interval + jit, bag);
  }

  /** `roundToMultiple` (delay.h:31-33). */
  function RoundToMultiple(x: int, k: int): (r: int)
    requires k != 0
    ensures k > 0 ==> x <= r
  {
    x + k * B2I(Rem(x, k) != 0) - Rem(x, k)
  }

  /** For x >= 0 and k > 0 the result is the smallest multiple of k that is
      at least x; in particular it is x itself when k divides x. */
  lemma RoundToMultipleIsNextMultiple(x: int, k: int)
    requires x >= 0 && k > 0
    ensures RoundToMultiple(x, k) % k == 0
    ensures x <= RoundToMultiple(x, k) < x + k
    ensures x % k == 0 ==> RoundToMultiple(x, k) == x
  {
    var q, r := Quot(x, k), Rem(x, k);
    RemZeroIffDivides(x, k);
    var m := RoundToMultiple(x, k);
    if r == 0 {
      assert m == q * k;
      DividesMod(m, k, q);
    } else {
      assert m == (q + 1) * k;
      DividesMod(m, k, q + 1);
    }
  }

  /** `ramp` (delay.cpp:42-45). */
  function Ramp(n: int): (r: int)
    ensures r >= 0 && r >= n
  {
    n * B2I(n >= 0)
  }

  lemma RampIsMaxZero(n: int)
    ensures Ramp(n) == (if n >= 0 then n else 0)
    ensures Ramp(n) >= 0 && Ramp(n) >= n
  {
  }

  /** `sizeRound(size, cellSize)` (delay.cpp:47-50), with C++ `%`. */
  function SizeRound(size: int, cellSize: int): (r: int)
    requires cellSize != 0
    ensures cellSize > 0 && size >= 0 ==> size - cellSize < r <= size
  {
    size + Rem(-size, cellSize)
  }

  /** `sizeRound(size, cellSize, round)` (delay.cpp:52-55). */
  function SizeRoundIf(size: int, cellSize: int, round: bool): (r: int)
    requires cellSize != 0
    ensures cellSize > 0 && size >= 0 ==> size - cellSize < r <= size
  {
    size + B2I(round) * Rem(-size, cellSize)
  }

  /** With C++'s `%`, `-size % c` is `-(size % c)`, so for size >= 0 the
      result is size - size % c: a multiple of c, at most size and more than
      size - c. The size is rounded DOWN to whole cells. */
  lemma SizeRoundRoundsDown(size: int, c: int)
    requires size >= 0 && c > 0
    ensures SizeRound(size, c) == size - Rem(size, c)
    ensures SizeRound(size, c) % c == 0
    ensures size - c < SizeRound(size, c) <= size
  {
    NegQuot(size, c);
    var q := Quot(size, c);
    assert SizeRound(size, c) == q * c;
    DividesMod(q * c, c, q);
  }

  lemma NegQuot(x: int, y: int)
    requires y != 0
    ensures Quot(-x, y) == -Quot(x, y)
    ensures Rem(-x, y) == -Rem(x, y)
  {
    var q := Quot(x, y);
    var a := if x < 0 then -x else x;
    var b := if y < 0 then -y else y;
    assert Quot(-x, y) == -q by {
      if x == 0 {
        assert a / b == 0;
      }
    }
    assert (-q) * y == -(q * y);
  }

  /** A one-byte packet with 64-byte cells is rounded to zero bytes. */
  lemma SizeRoundDropsPartialCell()
    ensures SizeRound(1, 64) == 0
    ensures SizeRound(65, 64) == 64
  {
    assert Quot(-1, 64) == 0;
    assert Quot(-65, 64) == -1;
  }

  /** What the comment "round size of packet to whole number of cells" and
      the Python idiom `size + (-size % c)` (floored `%`) evidently intend:
      round UP to whole cells. */
  function SizeRoundUp(size: int, cellSize: int): (r: int)
    requires cellSize > 0
  {
    size + (-size) % cellSize
  }

  /** The corrected rounding is the smallest multiple of the cell size that
      holds the whole packet, i.e. it agrees with `roundToMultiple`. */
  lemma SizeRoundUpIsNextMultiple(size: int, c: int)
    requires size >= 0 && c > 0
    ensures SizeRoundUp(size, c) == RoundToMultiple(size, c)
    ensures SizeRoundUp(size, c) % c == 0
    ensures size <= SizeRoundUp(size, c) < size + c
  {
    RoundToMultipleIsNextMultiple(size, c);
    var m := RoundToMultiple(size, c);
    var k := m / c;
    assert m == k * c;
    // -size == (-k) * c + (m - size), with 0 <= m - size < c
    assert -size == (-k) * c + (m - size);
    EuclidUnique(-size, c, -k, m - size);
  }

  /** The three-argument overload is the identity when not rounding and the
      two-argument overload when rounding. */
  lemma SizeRoundIfAgrees(size: int, c: int)
    requires c != 0
    ensures SizeRoundIf(size, c, false) == size
    ensures SizeRoundIf(size, c, true) == SizeRound(size, c)
  {
  }

  /** `numCells` (delay.cpp:66-70). */
  function NumCells(intvl: int, bag: int, jit: int, nCells: int, cellSize: int): (r: int)
    requires bag != 0 && cellSize != 0
    ensures bag > 0 && cellSize > 0 && nCells >= 0 && intvl >= 0 && jit >= 0 ==> r >= 0
  {
    var w := intvl + jit;
    nCells * Quot(w, bag)
      + Min(nCells, CeilDiv(Rem(w, bag) - jit * B2I(Quot(w, bag) == 0), cellSize))
  }

  /** `numCellsUp` (delay.cpp:73-77): its body repeats numCells' body. */
  function NumCellsUp(intvl: int, bag: int, jit: int, nCells: int, cellSize: int): (r: int)
    requires bag != 0 && cellSize != 0
    ensures r == NumCells(intvl, bag, jit, nCells, cellSize)
  {
    var w := intvl + jit;
    nCells * Quot(w, bag)
      + Min(nCells, CeilDiv(Rem(w, bag) - jit * B2I(Quot(w, bag) == 0), cellSize))
  }

  function Min(a: int, b: int): int {
    if a <= b then a else b
  }

  /** The two cell counts agree everywhere, and each is bounded by nCells
      cells per whole bag plus one more packet's nCells. */
  lemma NumCellsBounds(intvl: int, bag: int, jit: int, nCells: int, cellSize: int)
    requires bag != 0 && cellSize != 0
    ensures NumCellsUp(intvl, bag, jit, nCells, cellSize) == NumCells(intvl, bag, jit, nCells, cellSize)
    ensures NumCells(intvl, bag, jit, nCells, cellSize) <= nCells * Quot(intvl + jit, bag) + nCells
  {
  }

  /** When the window is shorter than one bag, the partial term is the
      interval itself, rounded up to cells. */
  lemma NumCellsShortWindow(intvl: int, bag: int, jit: int, nCells: int, cellSize: int)
    requires bag > 0 && cellSize > 0 && 0 <= intvl && 0 <= jit && intvl + jit < bag
    ensures NumCells(intvl, bag, jit, nCells, cellSize) == Min(nCells, CeilDiv(intvl, cellSize))
  {
    assert Quot(intvl + jit, bag) == 0;
  }
}
