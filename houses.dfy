/** The house outlines of `_buildHouses`: walls of `Block`-sized blocks
    around each house rectangle, with a door gap in the bottom wall of a
    house whose door faces south, and three inner fence blocks. A wall is
    given by the top-left corner of its block (`_placeWall` centres the
    block there plus half a block). */
module Houses {
  import opened Config

  datatype Side = North | South | East | West
  datatype House = House(x: int, y: int, w: int, h: int, door: Side)

  /** The five houses of the map. */
  const Town: seq<House> := [
    House(420, 360, 520, 360, South),
    House(1250, 260, 520, 420, East),
    House(980, 980, 620, 420, West),
    House(250, 1050, 520, 420, North),
    House(1750, 980, 520, 420, South)
  ]

  /** `Math.floor(v / Block) * Block` (Dafny's `/` floors for a positive
      divisor). */
  function Snap(v: int): (r: int)
    ensures r % Block == 0 && r <= v < r + Block
  {
    (v / Block) * Block
  }

  /** The block-aligned rectangle the walls of a house follow, and whether
      its bottom wall has the door. */
  datatype Box = Box(left: int, top: int, right: int, bottom: int, southDoor: bool)

  predicate Aligned(v: int) { v % Block == 0 }

  function BoxOf(h: House): (b: Box)
    ensures Aligned(b.left) && Aligned(b.top) && Aligned(b.right) && Aligned(b.bottom)
    ensures b.left <= h.x < b.left + Block && b.right <= h.x + h.w < b.right + Block
    ensures b.top <= h.y < b.top + Block && b.bottom <= h.y + h.h < b.bottom + Block
    ensures b.southDoor <==> h.door == South
  {
    Box(Snap(h.x), Snap(h.y), Snap(h.x + h.w), Snap(h.y + h.h), h.door == South)
  }

  /** Length of the door gap: two blocks. */
  const Gap: int := Block * 2

  /** Start of the door gap: `left + floor((right - left - gap) / 2)`. */
  function DoorX0(b: Box): (x0: int) {
    b.left + (b.right - b.left - Gap) / 2
  }

  /** The bottom-wall block at `x` is skipped: only for a south door, and
      both ends of the gap are included. */
  predicate InDoorGap(b: Box, x: int) {
    b.southDoor && DoorX0(b) <= x <= DoorX0(b) + Gap
  }

  /** No block-aligned coordinate lies strictly between two neighbours. */
  lemma AlignedBelow(x: int)
    requires Aligned(x)
    ensures forall a :: Aligned(a) && a < x + Block ==> a <= x
  {
    forall a | Aligned(a) && a < x + Block ensures a <= x {
      assert a == (a / Block) * Block && x == (x / Block) * Block;
      assert a / Block < x / Block + 1;
    }
  }

  predicate OnTopWall(b: Box, p: (int, int)) {
    p.1 == b.top && b.left <= p.0 <= b.right && Aligned(p.0)
  }

  predicate OnBottomWall(b: Box, p: (int, int)) {
    p.1 == b.bottom && b.left <= p.0 <= b.right && Aligned(p.0) && !InDoorGap(b, p.0)
  }

  predicate OnSideWall(b: Box, p: (int, int)) {
    (p.0 == b.left || p.0 == b.right) && b.top <= p.1 <= b.bottom && Aligned(p.1)
  }

  predicate IsFence(b: Box, p: (int, int)) {
    || p == (b.left + 2 * Block, b.top + 2 * Block)
    || p == (b.left + 3 * Block, b.top + 2 * Block)
    || p == (b.left + 2 * Block, b.top + 3 * Block)
  }

  predicate OnBoxOutline(b: Box, p: (int, int)) {
    OnTopWall(b, p) || OnBottomWall(b, p) || OnSideWall(b, p) || IsFence(b, p)
  }

  /** Every block the outline of a house places a wall on. */
  predicate OnOutline(h: House, p: (int, int)) {
    OnBoxOutline(BoxOf(h), p)
  }

  /** `walls` holds exactly the top and bottom wall blocks left of `x`. */
  ghost predicate RowsBefore(b: Box, walls: seq<(int, int)>, x: int) {
    forall p :: p in walls <==> (OnTopWall(b, p) || OnBottomWall(b, p)) && p.0 < x
  }

  /** `walls` holds the top and bottom walls and the side blocks above `y`. */
  ghost predicate SidesBefore(b: Box, walls: seq<(int, int)>, y: int) {
    forall p :: p in walls <==>
      OnTopWall(b, p) || OnBottomWall(b, p) || (OnSideWall(b, p) && p.1 < y)
  }

  lemma RowStep(b: Box, walls: seq<(int, int)>, x: int, placed: seq<(int, int)>)
    requires Aligned(x) && b.left <= x <= b.right && RowsBefore(b, walls, x)
    requires placed == [(x, b.top)] + (if InDoorGap(b, x) then [] else [(x, b.bottom)])
    ensures RowsBefore(b, walls + placed, x + Block)
  {
    AlignedBelow(x);
  }

  lemma SideStep(b: Box, walls: seq<(int, int)>, y: int)
    requires Aligned(y) && b.top <= y <= b.bottom && SidesBefore(b, walls, y)
    ensures SidesBefore(b, walls + [(b.left, y), (b.right, y)], y + Block)
  {
    AlignedBelow(y);
  }

  lemma NothingBefore(b: Box)
    ensures RowsBefore(b, [], b.left)
  {
  }

  lemma RowsDone(b: Box, walls: seq<(int, int)>, x: int)
    requires Aligned(b.right) && Aligned(x) && b.right < x && RowsBefore(b, walls, x)
    ensures SidesBefore(b, walls, b.top)
  {
  }

  lemma OutlineDone(b: Box, walls: seq<(int, int)>, y: int, fences: seq<(int, int)>)
    requires Aligned(b.bottom) && b.bottom < y && Aligned(y) && SidesBefore(b, walls, y)
    requires fences == [(b.left + Block * 2, b.top + Block * 2),
                        (b.left + Block * 3, b.top + Block * 2),
                        (b.left + Block * 2, b.top + Block * 3)]
    ensures forall p :: p in walls + fences <==> OnBoxOutline(b, p)
  {
  }

  /** The first loop of one house: the top wall, and the bottom wall with
      the door gap left out. */
  method PlaceRows(b: Box) returns (walls: seq<(int, int)>)
    requires Aligned(b.left) && Aligned(b.right)
    ensures SidesBefore(b, walls, b.top)
  {
    walls := [];
    var x := b.left;
    NothingBefore(b);
    while x <= b.right
      invariant Aligned(x) && b.left <= x && (x == b.left || x <= b.right + Block)
      invariant RowsBefore(b, walls, x)
    {
      var placed := [(x, b.top)];
      var doorX0 := b.left + (b.right - b.left - Gap) / 2;
      var inDoorGap := b.southDoor && x >= doorX0 && x <= doorX0 + Gap;
      if !inDoorGap {
        placed := placed + [(x, b.bottom)];
      }
      RowStep(b, walls, x, placed);
      walls := walls + placed;
      x := x + Block;
    }
    RowsDone(b, walls, x);
  }

  /** The second loop of one house: both side walls, top to bottom; `y` is
      where it stops. */
  method PlaceSides(b: Box, rows: seq<(int, int)>) returns (walls: seq<(int, int)>, y: int)
    requires Aligned(b.top) && SidesBefore(b, rows, b.top)
    ensures Aligned(y) && b.bottom < y && SidesBefore(b, walls, y)
  {
    walls := rows;
    y := b.top;
    while y <= b.bottom
      invariant Aligned(y) && b.top <= y && (y == b.top || y <= b.bottom + Block)
      invariant SidesBefore(b, walls, y)
    {
      SideStep(b, walls, y);
      walls := walls + [(b.left, y), (b.right, y)];
      y := y + Block;
    }
  }

  /** The walls `_buildHouses` places for one house, in placement order
      (corner blocks appear twice, as in the source). */
  method Outline(h: House) returns (walls: seq<(int, int)>)
    ensures forall p :: p in walls <==> OnOutline(h, p)
  {
    var b := BoxOf(h);
    var rows := PlaceRows(b);
    var y;
    walls, y := PlaceSides(b, rows);
    var fences := [(b.left + Block * 2, b.top + Block * 2),
                   (b.left + Block * 3, b.top + Block * 2),
                   (b.left + Block * 2, b.top + Block * 3)];
    OutlineDone(b, walls, y, fences);
    walls := walls + fences;
  }

  /** Width of the walled span of `h` in blocks. */
  function Span(h: House): (n: int) { (BoxOf(h).right - BoxOf(h).left) / Block }

  /** Which bottom-wall blocks the door gap removes: block `i` (counted
      from the left wall) is skipped exactly when `n - 2 <= 2i <= n + 2`,
      for a span of `n` blocks. Because both ends of the gap count, that is
      two blocks for an odd span and three for an even one. */
  lemma DoorGapBlocks(h: House, i: int)
    requires h.door == South
    ensures InDoorGap(BoxOf(h), BoxOf(h).left + Block * i) <==> Span(h) - 2 <= 2 * i <= Span(h) + 2
    ensures Span(h) % 2 == 1 ==>
              (InDoorGap(BoxOf(h), BoxOf(h).left + Block * i) <==> i == (Span(h) - 1) / 2 || i == (Span(h) + 1) / 2)
    ensures Span(h) % 2 == 0 ==>
              (InDoorGap(BoxOf(h), BoxOf(h).left + Block * i) <==> Span(h) / 2 - 1 <= i <= Span(h) / 2 + 1)
  {
    var n := Span(h);
    var b := BoxOf(h);
    assert b.right - b.left == Block * n;
    assert DoorX0(b) == b.left + 24 * n - Block;
  }

  /** Both south-facing houses of the map span eleven blocks, so their
      doors are two blocks wide: blocks 5 and 6 of the bottom wall. */
  lemma TownDoorsTwoBlocks(k: int, i: int)
    requires k == 0 || k == 4
    ensures Town[k].door == South && Span(Town[k]) == 11
    ensures InDoorGap(BoxOf(Town[k]), BoxOf(Town[k]).left + Block * i) <==> i == 5 || i == 6
  {
    assert BoxOf(Town[0]).left == 384 && BoxOf(Town[0]).right == 912;
    assert BoxOf(Town[4]).left == 1728 && BoxOf(Town[4]).right == 2256;
    DoorGapBlocks(Town[k], i);
  }

  /** `_buildHouses`' loop over the houses (without the random clutter). */
  method BuildOutlines(houses: seq<House>) returns (walls: seq<(int, int)>)
    ensures forall p :: p in walls <==> exists k :: 0 <= k < |houses| && OnOutline(houses[k], p)
  {
    walls := [];
    var i := 0;
    while i < |houses|
      invariant i <= |houses|
      invariant forall p :: p in walls <==> exists k :: 0 <= k < i && OnOutline(houses[k], p)
    {
      var w := Outline(houses[i]);
      walls := walls + w;
      i := i + 1;
    }
  }
}
