/** Corner flood fill: makes transparent exactly the background pixels that are connected to
    a corner of the image through background pixels. */
module FloodFill {
  import opened Bytes

  datatype Pixel = Pixel(x: int, y: int)

  // ----- what is to be cleared -----

  predicate InGrid(p: Pixel, w: nat, h: nat) { 0 <= p.x < w && 0 <= p.y < h }

  function Index(p: Pixel, w: nat): int { p.y * w + p.x }

  /** The pixel whose bytes (blue, green, red, alpha) start at 4 * i. */
  function Coord(i: nat, w: nat): Pixel
    requires w > 0
  {
    Pixel(i % w, i / w)
  }

  predicate Adjacent(p: Pixel, q: Pixel) {
    (p.x == q.x && (p.y == q.y + 1 || q.y == p.y + 1)) || (p.y == q.y && (p.x == q.x + 1 || q.x == p.x + 1))
  }

  predicate Corner(p: Pixel, w: nat, h: nat) { (p.x == 0 || p.x == w - 1) && (p.y == 0 || p.y == h - 1) }

  /** Four bytes of a not yet transparent pixel whose colours all reach the threshold. */
  predicate BgBytes(blue: Byte, green: Byte, red: Byte, alpha: Byte, threshold: int) {
    alpha != 0 && blue >= threshold && green >= threshold && red >= threshold
  }

  predicate Background(b: seq<Byte>, i: nat, threshold: int)
    requires 4 * i + 3 < |b|
  {
    BgBytes(b[4 * i], b[4 * i + 1], b[4 * i + 2], b[4 * i + 3], threshold)
  }

  /** An image: its bytes, its size and the threshold. */
  datatype Scene = Scene(bytes: seq<Byte>, w: nat, h: nat, threshold: int) {
    predicate Valid() { w > 0 && h > 0 && |bytes| == 4 * (w * h) }

    predicate IsBg(p: Pixel)
      requires Valid() && InGrid(p, w, h)
    {
      IndexInRange(p, w, h);
      Background(bytes, Index(p, w), threshold)
    }

    /** A walk from a corner over adjacent background pixels. */
    predicate Walk(ps: seq<Pixel>)
      requires Valid()
    {
      && ps != [] && Corner(ps[0], w, h)
      && (forall i :: 0 <= i < |ps| ==> InGrid(ps[i], w, h) && IsBg(ps[i]))
      && (forall i :: 0 <= i < |ps| - 1 ==> Adjacent(ps[i], ps[i + 1]))
    }

    ghost predicate Reached(p: Pixel)
      requires Valid()
    {
      exists ps :: Walk(ps) && ps[|ps| - 1] == p
    }

    /** The pixels to clear. */
    ghost function Region(): (r: set<Pixel>)
      requires Valid()
    {
      set p | p in Grid(w, h) && Reached(p)
    }

    /** The image with exactly these pixels made transparent. */
    function Clear(region: set<Pixel>): (s: Scene)
      requires Valid()
      ensures s.Valid() && s.w == w && s.h == h && s.threshold == threshold
    {
      Scene(seq(|bytes|, k requires 0 <= k < |bytes| => if k % 4 == 3 && Coord(k / 4, w) in region then 0 else bytes[k]),
            w, h, threshold)
    }
  }

  function Grid(w: nat, h: nat): (g: set<Pixel>)
    ensures forall p :: p in g <==> InGrid(p, w, h)
  {
    set x, y | 0 <= x < w && 0 <= y < h :: Pixel(x, y)
  }

  // ----- coordinates and indices -----

  lemma IndexInRange(p: Pixel, w: nat, h: nat)
    requires InGrid(p, w, h)
    ensures 0 <= Index(p, w) < w * h
  {
    assert p.y * w + w == (p.y + 1) * w;
    Scale(p.y + 1, h, w);
    Scale(0, p.y, w);
  }

  lemma Scale(a: int, b: int, w: nat)
    requires a <= b
    ensures a * w <= b * w
  {
    assert (b - a) * w >= 0;
  }

  lemma CoordOfIndex(p: Pixel, w: nat, h: nat)
    requires InGrid(p, w, h)
    ensures 0 <= Index(p, w) && Coord(Index(p, w), w) == p
  {
    IndexInRange(p, w, h);
    DivModUnique(p.y * w + p.x, w, p.y, p.x);
  }

  lemma DivModUnique(a: int, w: nat, q: int, r: int)
    requires w > 0 && 0 <= r < w && a == q * w + r
    ensures a / w == q && a % w == r
  {
    var d := a / w - q;
    assert d * w == r - a % w by {
      assert a == (a / w) * w + a % w;
      assert d * w == (a / w) * w - q * w;
    }
    if d > 0 {
      Scale(1, d, w);
    } else if d < 0 {
      Scale(d, -1, w);
    }
  }

  lemma IndexOfCoord(i: nat, w: nat, h: nat)
    requires w > 0 && i < w * h
    ensures InGrid(Coord(i, w), w, h) && Index(Coord(i, w), w) == i
  {
    assert i == (i / w) * w + i % w;
    if i / w >= h {
      Scale(h, i / w, w);
    }
  }

  lemma {:induction false} GridSize(w: nat, h: nat)
    ensures |Grid(w, h)| == w * h
  {
    hide Grid, Row;
    if h == 0 {
      assert Grid(w, h) == {};
    } else {
      GridSize(w, h - 1);
      RowSize(w, h - 1);
      GridSplit(w, h);
      DisjointSize(Grid(w, h - 1), Row(w, h - 1));
      OneMoreRow(w, h);
    }
  }

  lemma GridSplit(w: nat, h: nat)
    requires h > 0
    ensures Grid(w, h) == Grid(w, h - 1) + Row(w, h - 1) && Grid(w, h - 1) !! Row(w, h - 1)
  {
    hide Grid, Row;
    assert forall p :: InGrid(p, w, h) <==> InGrid(p, w, h - 1) || (0 <= p.x < w && p.y == h - 1);
  }

  lemma OneMoreRow(w: nat, h: nat)
    requires h > 0
    ensures w * (h - 1) + w == w * h
  {
  }

  lemma DisjointSize<T>(a: set<T>, b: set<T>)
    requires a !! b
    ensures |a + b| == |a| + |b|
  {
  }

  function Row(w: nat, y: int): (r: set<Pixel>)
    ensures forall p :: p in r <==> 0 <= p.x < w && p.y == y
  {
    set x | 0 <= x < w :: Pixel(x, y)
  }

  lemma {:induction false} RowSize(w: nat, y: int)
    ensures |Row(w, y)| == w
  {
    if w == 0 {
      assert Row(w, y) == {};
    } else {
      RowSize(w - 1, y);
      assert Row(w, y) == Row(w - 1, y) + {Pixel(w - 1, y)};
    }
  }

  lemma {:induction false} SubsetSize<T>(a: set<T>, b: set<T>)
    requires a <= b
    ensures |a| <= |b|
  {
    if a != {} {
      var x :| x in a;
      SubsetSize(a - {x}, b - {x});
    }
  }

  // ----- the region -----

  ghost predicate Closed(s: Scene, r: set<Pixel>)
    requires s.Valid()
  {
    && (forall p :: InGrid(p, s.w, s.h) && Corner(p, s.w, s.h) && s.IsBg(p) ==> p in r)
    && (forall p, q :: p in r && InGrid(q, s.w, s.h) && Adjacent(p, q) && s.IsBg(q) ==> q in r)
  }

  lemma CornerReached(s: Scene, p: Pixel)
    requires s.Valid() && InGrid(p, s.w, s.h) && Corner(p, s.w, s.h) && s.IsBg(p)
    ensures s.Reached(p)
  {
    assert s.Walk([p]);
  }

  lemma NeighbourReached(s: Scene, p: Pixel, q: Pixel)
    requires s.Valid() && InGrid(q, s.w, s.h) && Adjacent(p, q)
    ensures s.Reached(p) && s.IsBg(q) ==> s.Reached(q)
  {
    if ps :| s.Walk(ps) && ps[|ps| - 1] == p && s.IsBg(q) {
      assert s.Walk(ps + [q]);
      assert (ps + [q])[|ps|] == q;
    }
  }

  lemma {:induction false} WalkStaysInside(s: Scene, ps: seq<Pixel>, r: set<Pixel>)
    requires s.Valid() && s.Walk(ps) && Closed(s, r)
    ensures ps[|ps| - 1] in r
  {
    if |ps| > 1 {
      var front := ps[..|ps| - 1];
      assert s.Walk(front);
      WalkStaysInside(s, front, r);
      assert Adjacent(front[|front| - 1], ps[|ps| - 1]);
    }
  }

  /** The region is the least closed set: the least set that holds the background corners and,
      with a pixel, its background neighbours. */
  lemma RegionLeast(s: Scene)
    requires s.Valid()
    ensures Closed(s, s.Region())
    ensures forall r :: Closed(s, r) ==> s.Region() <= r
  {
    forall p | InGrid(p, s.w, s.h) && Corner(p, s.w, s.h) && s.IsBg(p) ensures p in s.Region() {
      CornerReached(s, p);
    }
    forall p, q | p in s.Region() && InGrid(q, s.w, s.h) && Adjacent(p, q) && s.IsBg(q) ensures q in s.Region() {
      NeighbourReached(s, p, q);
    }
    forall r, p | Closed(s, r) && p in s.Region() ensures p in r {
      var ps :| s.Walk(ps) && ps[|ps| - 1] == p;
      WalkStaysInside(s, ps, r);
    }
  }

  lemma ClearedBackground(s: Scene, p: Pixel, region: set<Pixel>)
    requires s.Valid() && InGrid(p, s.w, s.h)
    ensures s.Clear(region).IsBg(p) <==> s.IsBg(p) && p !in region
  {
    var i := Index(p, s.w);
    IndexInRange(p, s.w, s.h);
    CoordOfIndex(p, s.w, s.h);
    assert (4 * i + 3) / 4 == i && (4 * i + 3) % 4 == 3 && (4 * i) % 4 == 0 && (4 * i + 1) % 4 == 1 && (4 * i + 2) % 4 == 2;
  }

  /** A second run has nothing to clear. */
  lemma SecondRunClearsNothing(s: Scene)
    requires s.Valid()
    ensures s.Clear(s.Region()).Region() == {}
    ensures s.Clear(s.Region()).Clear({}) == s.Clear(s.Region())
  {
    var c := s.Clear(s.Region());
    forall p | InGrid(p, s.w, s.h) && Corner(p, s.w, s.h) ensures !c.IsBg(p) {
      ClearedBackground(s, p, s.Region());
      if s.IsBg(p) {
        CornerReached(s, p);
      }
    }
    assert Closed(c, {});
    RegionLeast(c);
  }

  /** A stricter threshold clears no more. */
  lemma StricterClearsLess(s: Scene, t: Scene)
    requires s.Valid() && t == s.(threshold := t.threshold) && s.threshold <= t.threshold
    ensures t.Region() <= s.Region()
  {
    RegionLeast(s);
    RegionLeast(t);
    forall p | InGrid(p, s.w, s.h) && t.IsBg(p) ensures s.IsBg(p) {
      IndexInRange(p, s.w, s.h);
    }
    assert Closed(t, s.Region());
  }

  // ----- the same on bytes -----

  /** The pixel whose bytes start at 4 * i is not transparent and reaches the threshold in all
      three colours. */
  predicate Bright(b: seq<Byte>, i: int, threshold: int)
    requires 0 <= i && 4 * i + 3 < |b|
  {
    b[4 * i] >= threshold && b[4 * i + 1] >= threshold && b[4 * i + 2] >= threshold && b[4 * i + 3] != 0
  }

  predicate CornerIndex(i: int, w: nat, h: nat) { i == 0 || i == w - 1 || i == (h - 1) * w || i == h * w - 1 }

  /** One row apart, or next to each other in one row. */
  predicate Touching(i: int, j: int, w: nat)
    requires w > 0
  {
    j == i + w || i == j + w || (i / w == j / w && (j == i + 1 || i == j + 1))
  }

  /** From a corner over touching bright pixels. */
  ghost predicate Trail(b: seq<Byte>, w: nat, h: nat, threshold: int, trail: seq<int>)
    requires w > 0 && |b| == 4 * (w * h)
  {
    && trail != [] && CornerIndex(trail[0], w, h)
    && (forall k :: 0 <= k < |trail| ==> 0 <= trail[k] < w * h && Bright(b, trail[k], threshold))
    && (forall k :: 0 <= k < |trail| - 1 ==> Touching(trail[k], trail[k + 1], w))
  }

  ghost predicate Joined(b: seq<Byte>, w: nat, h: nat, threshold: int, i: int)
    requires w > 0 && |b| == 4 * (w * h)
  {
    exists trail :: Trail(b, w, h, threshold, trail) && trail[|trail| - 1] == i
  }

  /** `c` is `b` with the alpha byte of exactly the joined pixels set to 0. */
  ghost predicate Flooded(b: seq<Byte>, c: seq<Byte>, w: nat, h: nat, threshold: int)
    requires w > 0 && |b| == 4 * (w * h)
  {
    && |c| == |b|
    && forall i :: 0 <= i < w * h ==>
         && c[4 * i] == b[4 * i] && c[4 * i + 1] == b[4 * i + 1] && c[4 * i + 2] == b[4 * i + 2]
         && c[4 * i + 3] == if Joined(b, w, h, threshold, i) then 0 else b[4 * i + 3]
  }

  lemma CornerIndices(p: Pixel, w: nat, h: nat)
    requires InGrid(p, w, h)
    ensures CornerIndex(Index(p, w), w, h) <==> Corner(p, w, h)
  {
    var i := Index(p, w);
    CoordOfIndex(p, w, h);
    assert h * w - 1 == (h - 1) * w + (w - 1);
    if i == (h - 1) * w {
      DivModUnique(i, w, h - 1, 0);
    } else if i == h * w - 1 {
      DivModUnique(i, w, h - 1, w - 1);
    } else if i == 0 {
      DivModUnique(i, w, 0, 0);
    } else if i == w - 1 {
      DivModUnique(i, w, 0, w - 1);
    }
  }

  lemma TouchingIndices(p: Pixel, q: Pixel, w: nat, h: nat)
    requires InGrid(p, w, h) && InGrid(q, w, h)
    ensures Touching(Index(p, w), Index(q, w), w) <==> Adjacent(p, q)
  {
    var i, j := Index(p, w), Index(q, w);
    CoordOfIndex(p, w, h);
    CoordOfIndex(q, w, h);
    assert (p.y + 1) * w == p.y * w + w && (q.y + 1) * w == q.y * w + w;
    if j == i + w {
      DivModUnique(j, w, p.y + 1, p.x);
    } else if i == j + w {
      DivModUnique(i, w, q.y + 1, q.x);
    }
  }

  lemma BrightIndices(s: Scene, p: Pixel)
    requires s.Valid() && InGrid(p, s.w, s.h)
    ensures 0 <= Index(p, s.w) < s.w * s.h
    ensures Bright(s.bytes, Index(p, s.w), s.threshold) <==> s.IsBg(p)
  {
    IndexInRange(p, s.w, s.h);
  }

  /** A trail ends in the region. */
  lemma {:induction false} TrailInRegion(s: Scene, trail: seq<int>)
    requires s.Valid() && Trail(s.bytes, s.w, s.h, s.threshold, trail)
    ensures Coord(trail[|trail| - 1], s.w) in s.Region()
  {
    hide Corner, Adjacent, CornerIndex, Touching, Bright, Scene.IsBg, Scene.Region;
    RegionLeast(s);
    var i := trail[|trail| - 1];
    var p := Coord(i, s.w);
    IndexOfCoord(i, s.w, s.h);
    BrightIndices(s, p);
    if |trail| == 1 {
      CornerIndices(p, s.w, s.h);
    } else {
      var front := trail[..|trail| - 1];
      TrailInRegion(s, front);
      var j := front[|front| - 1];
      IndexOfCoord(j, s.w, s.h);
      TouchingIndices(Coord(j, s.w), p, s.w, s.h);
    }
  }

  lemma CornerJoined(b: seq<Byte>, w: nat, h: nat, threshold: int, i: int)
    requires w > 0 && |b| == 4 * (w * h) && 0 <= i < w * h && CornerIndex(i, w, h) && Bright(b, i, threshold)
    ensures Joined(b, w, h, threshold, i)
  {
    assert Trail(b, w, h, threshold, [i]);
  }

  lemma TouchingJoined(b: seq<Byte>, w: nat, h: nat, threshold: int, i: int, j: int)
    requires w > 0 && |b| == 4 * (w * h) && 0 <= j < w * h && Bright(b, j, threshold)
    requires Joined(b, w, h, threshold, i) && Touching(i, j, w)
    ensures Joined(b, w, h, threshold, j)
  {
    var trail :| Trail(b, w, h, threshold, trail) && trail[|trail| - 1] == i;
    hide CornerIndex, Touching, Bright;
    var more := trail + [j];
    assert Trail(b, w, h, threshold, more);
    assert more[|more| - 1] == j;
  }

  ghost function JoinedPixels(s: Scene): set<Pixel>
    requires s.Valid()
  {
    set p | p in Grid(s.w, s.h) && Joined(s.bytes, s.w, s.h, s.threshold, Index(p, s.w))
  }

  lemma JoinedClosed(s: Scene)
    requires s.Valid()
    ensures Closed(s, JoinedPixels(s))
  {
    hide Corner, Adjacent, CornerIndex, Touching, Bright, Joined, Scene.IsBg;
    forall p | InGrid(p, s.w, s.h) && Corner(p, s.w, s.h) && s.IsBg(p) ensures p in JoinedPixels(s) {
      BrightIndices(s, p);
      CornerIndices(p, s.w, s.h);
      CornerJoined(s.bytes, s.w, s.h, s.threshold, Index(p, s.w));
    }
    forall p, q | p in JoinedPixels(s) && InGrid(q, s.w, s.h) && Adjacent(p, q) && s.IsBg(q) ensures q in JoinedPixels(s) {
      BrightIndices(s, q);
      TouchingIndices(p, q, s.w, s.h);
      TouchingJoined(s.bytes, s.w, s.h, s.threshold, Index(p, s.w), Index(q, s.w));
    }
  }

  lemma JoinedIsRegion(s: Scene, i: int)
    requires s.Valid() && 0 <= i < s.w * s.h
    ensures Joined(s.bytes, s.w, s.h, s.threshold, i) <==> Coord(i, s.w) in s.Region()
  {
    hide Scene.Region, Scene.IsBg, CornerIndex, Touching, Bright;
    IndexOfCoord(i, s.w, s.h);
    JoinedClosed(s);
    RegionLeast(s);
    if trail :| Trail(s.bytes, s.w, s.h, s.threshold, trail) && trail[|trail| - 1] == i {
      TrailInRegion(s, trail);
    }
  }

  /** Clearing the region is flooding the bytes. */
  lemma ClearIsFlood(s: Scene)
    requires s.Valid()
    ensures Flooded(s.bytes, s.Clear(s.Region()).bytes, s.w, s.h, s.threshold)
  {
    hide Scene.Region, Joined;
    var c := s.Clear(s.Region()).bytes;
    forall i | 0 <= i < s.w * s.h
      ensures c[4 * i] == s.bytes[4 * i] && c[4 * i + 1] == s.bytes[4 * i + 1] && c[4 * i + 2] == s.bytes[4 * i + 2]
      ensures c[4 * i + 3] == if Joined(s.bytes, s.w, s.h, s.threshold, i) then 0 else s.bytes[4 * i + 3]
    {
      JoinedIsRegion(s, i);
      QuarterIndex(i);
    }
  }

  lemma QuarterIndex(i: int)
    ensures (4 * i + 3) / 4 == i && (4 * i + 3) % 4 == 3 && (4 * i) % 4 == 0 && (4 * i + 1) % 4 == 1 && (4 * i + 2) % 4 == 2
  {
  }

  /** What a flood does to one pixel: with a colour byte below the threshold it keeps its four
      bytes; a bright corner loses its alpha, and so does every bright pixel that touches a
      bright one that lost it. */
  lemma FloodCases(b: seq<Byte>, c: seq<Byte>, w: nat, h: nat, threshold: int, i: int, j: int)
    requires w > 0 && |b| == 4 * (w * h) && Flooded(b, c, w, h, threshold) && 0 <= i < w * h && 0 <= j < w * h
    ensures b[4 * i] < threshold || b[4 * i + 1] < threshold || b[4 * i + 2] < threshold ==>
      c[4 * i..4 * i + 4] == b[4 * i..4 * i + 4]
    ensures Bright(b, i, threshold) && CornerIndex(i, w, h) ==> c[4 * i + 3] == 0
    ensures Bright(b, i, threshold) && Bright(b, j, threshold) && Touching(j, i, w) && c[4 * j + 3] == 0 ==> c[4 * i + 3] == 0
  {
    hide Joined, CornerIndex, Touching;
    if Bright(b, i, threshold) {
      if CornerIndex(i, w, h) {
        CornerJoined(b, w, h, threshold, i);
      }
      if Joined(b, w, h, threshold, j) && Touching(j, i, w) {
        TouchingJoined(b, w, h, threshold, j, i);
      }
    } else {
      NotBrightNotJoined(b, w, h, threshold, i);
    }
  }

  lemma NotBrightNotJoined(b: seq<Byte>, w: nat, h: nat, threshold: int, i: int)
    requires w > 0 && |b| == 4 * (w * h) && 0 <= i < w * h && !Bright(b, i, threshold)
    ensures !Joined(b, w, h, threshold, i)
  {
  }

  // ----- the algorithm -----

  /** A 32-bit image, four bytes a pixel. */
  class Image {
    const w: nat
    const h: nat
    const bits: array<Byte>

    ghost predicate Valid() { w > 0 && h > 0 && bits.Length == 4 * (w * h) }

    ghost function View(threshold: int): (s: Scene)
      requires Valid()
      reads bits
      ensures s.Valid()
    {
      Scene(bits[..], w, h, threshold)
    }

    /** The four bytes from i on are a background pixel. */
    predicate IsBg(i: nat, threshold: int)
      requires i + 3 < bits.Length
      reads bits
    {
      bits[i + 3] != 0 && bits[i] >= threshold && bits[i + 1] >= threshold && bits[i + 2] >= threshold
    }

    lemma IsBgMeans(p: nat, threshold: int)
      requires 4 * p + 3 < bits.Length
      ensures IsBg(4 * p, threshold) <==> Background(bits[..], p, threshold)
    {
    }

    constructor (width: nat, height: nat)
      requires width > 0 && height > 0
      ensures w == width && h == height && Valid() && fresh(bits)
    {
      w, h := width, height;
      assert 0 <= width * height;
      bits := new Byte[4 * (width * height)](_ => 0);
    }
  }

  /** `now` is the original `s` with the pixels of `done` cleared, and `marks` marks `seen`. */
  ghost predicate Progress(s: Scene, now: seq<Byte>, marks: seq<bool>, done: set<Pixel>, seen: set<Pixel>)
    requires s.Valid()
  {
    && now == s.Clear(done).bytes
    && |marks| == s.w * s.h && (forall i :: 0 <= i < |marks| ==> (marks[i] <==> Coord(i, s.w) in seen))
  }

  /** Every pixel found so far belongs to the region; the queue holds those not yet expanded,
      none twice. */
  ghost predicate Frontier(s: Scene, queue: seq<Pixel>, done: set<Pixel>, seen: set<Pixel>)
    requires s.Valid()
  {
    && seen <= s.Region()
    && (forall p :: p in seen <==> p in done || p in queue)
    && (forall p :: p in queue ==> p !in done)
    && (forall i, j :: 0 <= i < j < |queue| ==> queue[i] != queue[j])
  }

  method MarkVisited(visited: array<bool>, idx: int, p: Pixel, ghost s: Scene, ghost bits: seq<Byte>,
                     ghost done: set<Pixel>, ghost seen: set<Pixel>)
    requires s.Valid() && InGrid(p, s.w, s.h) && idx == Index(p, s.w) && Progress(s, bits, visited[..], done, seen)
    modifies visited
    ensures Progress(s, bits, visited[..], done, seen + {p})
  {
    hide Progress, Index;
    MarkOne(s, bits, visited[..], done, seen, p);
    ghost var was := visited[..];
    visited[idx] := true;
    assert visited[..] == was[idx := true];
  }

  /** Visit p unless it has been visited or is not background. */
  method Seed(img: Image, threshold: int, visited: array<bool>, queue: seq<Pixel>, p: Pixel,
              ghost s: Scene, ghost done: set<Pixel>, ghost seen: set<Pixel>)
    returns (q: seq<Pixel>, ghost now: set<Pixel>)
    requires img.Valid() && s.Valid() && s.w == img.w && s.h == img.h && s.threshold == threshold
    requires InGrid(p, s.w, s.h) && (s.IsBg(p) ==> p in s.Region())
    requires Progress(s, img.bits[..], visited[..], done, seen) && Frontier(s, queue, done, seen)
    modifies visited
    ensures Progress(s, img.bits[..], visited[..], done, now) && Frontier(s, q, done, now)
    ensures now == if s.IsBg(p) then seen + {p} else seen
  {
    q, now := queue, seen;
    var idx := p.y * img.w + p.x;
    assert idx == Index(p, s.w);
    hide Index;
    ProgressMarks(s, img.bits[..], visited[..], done, seen, p);
    if visited[idx] {
      SeenBackground(s, queue, done, seen, p);
      return;
    }
    var i := 4 * idx;
    ProgressBackground(s, img.bits[..], visited[..], done, seen, p);
    img.IsBgMeans(idx, threshold);
    hide Progress, Frontier, Scene.IsBg, Scene.Region, Background, Image.IsBg, InGrid;
    if img.IsBg(i, threshold) {
      MarkVisited(visited, idx, p, s, img.bits[..], done, seen);
      q := queue + [p];
      now := seen + {p};
      PushFrontier(s, queue, done, seen, p);
    } else {
      SkipFrontier(s, queue, done, seen, p);
    }
  }

  lemma ProgressBackground(s: Scene, now: seq<Byte>, marks: seq<bool>, done: set<Pixel>, seen: set<Pixel>, p: Pixel)
    requires s.Valid() && InGrid(p, s.w, s.h) && Progress(s, now, marks, done, seen)
    ensures 0 <= 4 * Index(p, s.w) && 4 * Index(p, s.w) + 3 < |now|
    ensures Background(now, Index(p, s.w), s.threshold) <==> s.IsBg(p) && p !in done
  {
    IndexInRange(p, s.w, s.h);
    ClearedBackground(s, p, done);
  }

  lemma ProgressMarks(s: Scene, now: seq<Byte>, marks: seq<bool>, done: set<Pixel>, seen: set<Pixel>, p: Pixel)
    requires s.Valid() && InGrid(p, s.w, s.h) && Progress(s, now, marks, done, seen)
    ensures 0 <= Index(p, s.w) < |marks| && (marks[Index(p, s.w)] <==> p in seen)
  {
    IndexInRange(p, s.w, s.h);
    CoordOfIndex(p, s.w, s.h);
  }

  lemma PushFrontier(s: Scene, queue: seq<Pixel>, done: set<Pixel>, seen: set<Pixel>, p: Pixel)
    requires s.Valid() && Frontier(s, queue, done, seen) && p !in seen && p in s.Region()
    ensures Frontier(s, queue + [p], done, seen + {p})
  {
    assert forall x :: x in queue + [p] <==> x in queue || x == p;
  }

  /** A pixel that need not be queued is done already or no background. */
  lemma SkipFrontier(s: Scene, queue: seq<Pixel>, done: set<Pixel>, seen: set<Pixel>, p: Pixel)
    requires s.Valid() && Frontier(s, queue, done, seen) && InGrid(p, s.w, s.h) && !(s.IsBg(p) && p !in done)
    ensures seen == if s.IsBg(p) then seen + {p} else seen
  {
  }

  lemma SeenBackground(s: Scene, queue: seq<Pixel>, done: set<Pixel>, seen: set<Pixel>, p: Pixel)
    requires s.Valid() && Frontier(s, queue, done, seen) && InGrid(p, s.w, s.h)
    ensures p in seen ==> seen == if s.IsBg(p) then seen + {p} else seen
  {
  }

  lemma MarkOne(s: Scene, now: seq<Byte>, marks: seq<bool>, done: set<Pixel>, seen: set<Pixel>, p: Pixel)
    requires s.Valid() && InGrid(p, s.w, s.h) && Progress(s, now, marks, done, seen)
    ensures 0 <= Index(p, s.w) < |marks| && Progress(s, now, marks[Index(p, s.w) := true], done, seen + {p})
  {
    IndexInRange(p, s.w, s.h);
    CoordOfIndex(p, s.w, s.h);
    forall i | 0 <= i < |marks| && Coord(i, s.w) == p ensures i == Index(p, s.w) {
      IndexOfCoord(i, s.w, s.h);
    }
  }

  lemma ClearOne(s: Scene, now: seq<Byte>, marks: seq<bool>, done: set<Pixel>, seen: set<Pixel>, p: Pixel)
    requires s.Valid() && InGrid(p, s.w, s.h) && Progress(s, now, marks, done, seen)
    ensures 0 <= 4 * Index(p, s.w) + 3 < |now|
    ensures Progress(s, now[4 * Index(p, s.w) + 3 := 0], marks, done + {p}, seen)
  {
    var i := Index(p, s.w);
    IndexInRange(p, s.w, s.h);
    CoordOfIndex(p, s.w, s.h);
    forall k | 0 <= k < |now| && k % 4 == 3 && Coord(k / 4, s.w) == p ensures k == 4 * i + 3 {
      IndexOfCoord(k / 4, s.w, s.h);
    }
    assert (4 * i + 3) / 4 == i && (4 * i + 3) % 4 == 3;
    assert now[4 * i + 3 := 0] == s.Clear(done + {p}).bytes;
  }

  lemma PopFrontier(s: Scene, queue: seq<Pixel>, done: set<Pixel>, seen: set<Pixel>)
    requires s.Valid() && queue != [] && Frontier(s, queue, done, seen)
    ensures Frontier(s, queue[1..], done + {queue[0]}, seen)
    ensures queue[0] in s.Region() && queue[0] !in done && InGrid(queue[0], s.w, s.h)
  {
    assert queue[0] in queue && queue[0] in seen;
    assert queue == [queue[0]] + queue[1..];
  }

  /** The background neighbours of every cleared pixel have been visited. */
  ghost predicate Expanded(s: Scene, done: set<Pixel>, seen: set<Pixel>)
    requires s.Valid()
  {
    forall p, q :: p in done && InGrid(q, s.w, s.h) && Adjacent(p, q) && s.IsBg(q) ==> q in seen
  }

  ghost predicate Seeded(s: Scene, seen: set<Pixel>)
    requires s.Valid()
  {
    forall p :: InGrid(p, s.w, s.h) && Corner(p, s.w, s.h) && s.IsBg(p) ==> p in seen
  }

  method SeedCorners(img: Image, threshold: int, visited: array<bool>, ghost s: Scene)
    returns (queue: seq<Pixel>, ghost seen: set<Pixel>)
    requires img.Valid() && s == img.View(threshold)
    requires visited.Length == img.w * img.h && forall i :: 0 <= i < visited.Length ==> !visited[i]
    modifies visited
    ensures Progress(s, img.bits[..], visited[..], {}, seen) && Frontier(s, queue, {}, seen) && Seeded(s, seen)
  {
    hide Progress, Frontier, Scene.IsBg, Scene.Region, Scene.Clear;
    queue, seen := [], {};
    CornersInRegion(s);
    assert Progress(s, img.bits[..], visited[..], {}, {}) && Frontier(s, [], {}, {}) by {
      StartProgress(s, visited[..]);
    }
    var corners := [Pixel(0, 0), Pixel(img.w - 1, 0), Pixel(0, img.h - 1), Pixel(img.w - 1, img.h - 1)];
    for c := 0 to 4
      invariant Progress(s, img.bits[..], visited[..], {}, seen) && Frontier(s, queue, {}, seen)
      invariant forall k :: 0 <= k < c && s.IsBg(corners[k]) ==> corners[k] in seen
    {
      queue, seen := Seed(img, threshold, visited, queue, corners[c], s, {}, seen);
    }
    assert forall p :: InGrid(p, s.w, s.h) && Corner(p, s.w, s.h) ==>
      p == corners[0] || p == corners[1] || p == corners[2] || p == corners[3];
  }

  lemma CornersInRegion(s: Scene)
    requires s.Valid()
    ensures forall p :: InGrid(p, s.w, s.h) && Corner(p, s.w, s.h) && s.IsBg(p) ==> p in s.Region()
  {
    RegionLeast(s);
  }

  lemma StartProgress(s: Scene, marks: seq<bool>)
    requires s.Valid() && |marks| == s.w * s.h && forall i :: 0 <= i < |marks| ==> !marks[i]
    ensures Progress(s, s.bytes, marks, {}, {}) && Frontier(s, [], {}, {})
  {
    assert s.Clear({}).bytes == s.bytes;
  }

  /** Visit the neighbours of p that lie in the image. */
  method SeedNeighbours(img: Image, threshold: int, visited: array<bool>, queue: seq<Pixel>, p: Pixel,
                        ghost s: Scene, ghost done: set<Pixel>, ghost seen: set<Pixel>)
    returns (q: seq<Pixel>, ghost now: set<Pixel>)
    requires img.Valid() && s.Valid() && s.w == img.w && s.h == img.h && s.threshold == threshold
    requires p in s.Region() && InGrid(p, s.w, s.h)
    requires Progress(s, img.bits[..], visited[..], done, seen) && Frontier(s, queue, done, seen)
    modifies visited
    ensures Progress(s, img.bits[..], visited[..], done, now) && Frontier(s, q, done, now)
    ensures seen <= now
    ensures forall n :: InGrid(n, s.w, s.h) && Adjacent(p, n) && s.IsBg(n) ==> n in now
  {
    hide Progress, Frontier, Scene.IsBg, Scene.Region;
    NeighboursInRegion(s, p);
    q, now := queue, seen;
    var x, y := p.x, p.y;
    if x > 0 {
      q, now := Seed(img, threshold, visited, q, Pixel(x - 1, y), s, done, now);
    }
    if x < img.w - 1 {
      q, now := Seed(img, threshold, visited, q, Pixel(x + 1, y), s, done, now);
    }
    if y > 0 {
      q, now := Seed(img, threshold, visited, q, Pixel(x, y - 1), s, done, now);
    }
    if y < img.h - 1 {
      q, now := Seed(img, threshold, visited, q, Pixel(x, y + 1), s, done, now);
    }
    assert forall n :: InGrid(n, s.w, s.h) && Adjacent(p, n) ==>
      n == Pixel(x - 1, y) || n == Pixel(x + 1, y) || n == Pixel(x, y - 1) || n == Pixel(x, y + 1);
  }

  lemma NeighboursInRegion(s: Scene, p: Pixel)
    requires s.Valid()
    ensures p in s.Region() ==> forall q :: InGrid(q, s.w, s.h) && Adjacent(p, q) && s.IsBg(q) ==> q in s.Region()
  {
    RegionLeast(s);
  }

  method ClearAlpha(img: Image, p: Pixel, ghost s: Scene, ghost marks: seq<bool>, ghost done: set<Pixel>, ghost seen: set<Pixel>)
    requires img.Valid() && s.Valid() && s.w == img.w && s.h == img.h && InGrid(p, s.w, s.h)
    requires Progress(s, img.bits[..], marks, done, seen)
    modifies img.bits
    ensures Progress(s, img.bits[..], marks, done + {p}, seen)
  {
    hide Progress;
    ClearOne(s, img.bits[..], marks, done, seen, p);
    var i := (p.y * img.w + p.x) * 4;
    ghost var was := img.bits[..];
    img.bits[i + 3] := 0;
    assert img.bits[..] == was[i + 3 := 0];
  }

  /** Clear the background connected to the corners; the number of cleared pixels. A file that
      does not load is `null`. */
  method ChromaKeyFlood(img: Image?, threshold: int) returns (keyed: nat)
    requires img != null ==> img.Valid()
    modifies if img == null then {} else {img.bits}
    ensures img == null ==> keyed == 0
    ensures img != null ==>
      var s := old(img.View(threshold));
      && img.View(threshold) == s.Clear(s.Region())
      && keyed == |s.Region()| <= s.w * s.h
      && Flooded(s.bytes, img.bits[..], s.w, s.h, threshold)
  {
    if img == null {
      return 0;
    }
    ghost var s := img.View(threshold);
    var visited := new bool[img.w * img.h](_ => false);
    var queue, seen := SeedCorners(img, threshold, visited, s);
    ghost var done: set<Pixel> := {};
    keyed := 0;
    hide Progress, Frontier, Scene.IsBg, Scene.Region, Scene.Clear, Expanded, Seeded, Grid;
    PixelsInGrid(s);
    assert Expanded(s, done, seen) by {
      NothingExpanded(s, seen);
    }
    while queue != []
      invariant Progress(s, img.bits[..], visited[..], done, seen) && Frontier(s, queue, done, seen)
      invariant Expanded(s, done, seen) && Seeded(s, seen)
      invariant keyed == |done| && done <= Grid(s.w, s.h)
      decreases Grid(s.w, s.h) - done
    {
      var p := queue[0];
      PopFrontier(s, queue, done, seen);
      queue := queue[1..];
      ClearAlpha(img, p, s, visited[..], done, seen);
      keyed := keyed + 1;
      ghost var before := done;
      done := done + {p};
      ghost var now;
      queue, now := SeedNeighbours(img, threshold, visited, queue, p, s, done, seen);
      ExpandOne(s, before, seen, now, p);
      seen := now;
    }
    DoneIsRegion(s, done, seen);
    DoneBytes(s, img.bits[..], visited[..], done, seen);
    GridSize(s.w, s.h);
    SubsetSize(done, Grid(s.w, s.h));
    hide Flooded;
    ClearIsFlood(s);
  }

  lemma PixelsInGrid(s: Scene)
    ensures forall p :: p in Grid(s.w, s.h) <==> InGrid(p, s.w, s.h)
  {
  }

  lemma NothingExpanded(s: Scene, seen: set<Pixel>)
    requires s.Valid()
    ensures Expanded(s, {}, seen)
  {
  }

  lemma ExpandOne(s: Scene, done: set<Pixel>, seen: set<Pixel>, now: set<Pixel>, p: Pixel)
    requires s.Valid() && Expanded(s, done, seen) && Seeded(s, seen) && seen <= now
    requires forall n :: InGrid(n, s.w, s.h) && Adjacent(p, n) && s.IsBg(n) ==> n in now
    ensures Expanded(s, done + {p}, now) && Seeded(s, now)
  {
  }

  lemma DoneIsRegion(s: Scene, done: set<Pixel>, seen: set<Pixel>)
    requires s.Valid() && Frontier(s, [], done, seen) && Expanded(s, done, seen) && Seeded(s, seen)
    ensures done == s.Region()
  {
    assert forall p :: p in seen <==> p in done;
    assert Closed(s, done);
    RegionLeast(s);
  }

  lemma DoneBytes(s: Scene, now: seq<Byte>, marks: seq<bool>, done: set<Pixel>, seen: set<Pixel>)
    requires s.Valid() && Progress(s, now, marks, done, seen)
    ensures now == s.Clear(done).bytes
  {
  }
}
