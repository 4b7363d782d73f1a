// Conversion of 4:2:0 frames to RGB (android/camera/Converters.cpp and Converters.h): one
// pass over the pixels with moving positions in the luma and the two chroma planes.
module Converters {
  import opened Bytes

  // ------------------------------------------------------------ one pixel

  function Clamp(x: int): (r: int)
    ensures 0 <= r <= 255
  {
    if x > 255 then 255 else if x < 0 then 0 else x
  }

  // The three colours of a pixel, each of eight bits.
  datatype Color = Color(r: Byte, g: Byte, b: Byte)

  // C, D and E of the macros; a right shift rounds down.
  function YUVToRGB32(y: Byte, u: Byte, v: Byte): Color {
    var c, d, e := y - 16, u - 128, v - 128;
    Color(Clamp((298 * c + 409 * e + 128) / 256),
          Clamp((298 * c - 100 * d - 208 * e + 128) / 256),
          Clamp((298 * c + 516 * d + 128) / 256))
  }

  // Five bits of red at the low end, six of green, five of blue.
  function YUVToRGB565(y: Byte, u: Byte, v: Byte): int {
    var c := YUVToRGB32(y, u, v);
    ((c.b / 8) % 32 * 64 + (c.g / 4) % 64) * 32 + (c.r / 8) % 32
  }

  lemma Packed(r: int, g: int, b: int)
    requires 0 <= r < 32 && 0 <= g < 64 && 0 <= b < 32
    ensures var w := (b * 64 + g) * 32 + r;
            0 <= w < 0x1_0000 && w % 32 == r && w / 32 % 64 == g && w / 2048 == b
  {
  }

  // A 565 word has exactly the upper bits of the 32-bit colours.
  lemma Same565(y: Byte, u: Byte, v: Byte)
    ensures var w, c := YUVToRGB565(y, u, v), YUVToRGB32(y, u, v);
            && 0 <= w < 0x1_0000
            && w % 32 == c.r / 8 && w / 32 % 64 == c.g / 4 && w / 2048 == c.b / 8
  {
    var c := YUVToRGB32(y, u, v);
    Upper(c.r, c.g, c.b);
    Packed(c.r / 8, c.g / 4, c.b / 8);
  }

  lemma Upper(r: Byte, g: Byte, b: Byte)
    ensures r / 8 % 32 == r / 8 && g / 4 % 64 == g / 4 && b / 8 % 32 == b / 8
  {
  }

  // ------------------------------------------------- the indexed reference

  datatype Sample = Sample(y: Byte, u: Byte, v: Byte)

  // Which chroma value belongs to pixel k of an image with rows of w pixels.
  function Chroma(w: int, k: int): int
    requires w > 0
  {
    (k / w / 2) * (w / 2) + (k % w) / 2
  }

  ghost predicate Readable(f: seq<Byte>, u: int, v: int, dUV: int, w: int, k: int) {
    && w > 0 && 0 <= k < |f|
    && 0 <= u + dUV * Chroma(w, k) < |f| && 0 <= v + dUV * Chroma(w, k) < |f|
  }

  // The planes are long enough for every pixel of the image.
  ghost predicate Covers(f: seq<Byte>, u: int, v: int, dUV: int, w: int, height: int) {
    forall k :: 0 <= k < w * height ==> Readable(f, u, v, dUV, w, k)
  }

  ghost function SampleAt(f: seq<Byte>, u: int, v: int, dUV: int, w: int, k: int): Sample
    requires Readable(f, u, v, dUV, w, k)
  {
    Sample(f[k], f[u + dUV * Chroma(w, k)], f[v + dUV * Chroma(w, k)])
  }

  // The samples of every pixel: one luma value for each pixel and one chroma value for two
  // by two pixels, dUV apart.
  ghost function Samples(f: seq<Byte>, u: int, v: int, dUV: int, w: nat, height: nat): (r: seq<Sample>)
    requires Covers(f, u, v, dUV, w, height)
    ensures |r| == w * height
    ensures forall k :: 0 <= k < |r| ==> Readable(f, u, v, dUV, w, k) && r[k] == SampleAt(f, u, v, dUV, w, k)
  {
    seq(w * height, k requires 0 <= k < w * height => SampleAt(f, u, v, dUV, w, k))
  }

  // The walk goes on two pixels at a time, so an odd width counts as the next even one.
  function RowLength(width: nat): (w: nat)
    ensures w % 2 == 0 && width <= w <= width + 1
  {
    width + width % 2
  }

  lemma PixelAt(w: int, x: int, y: int)
    requires w > 0 && w % 2 == 0 && 0 <= x < w && 0 <= y
    ensures (y * w + x) / w == y && (y * w + x) % w == x
    ensures Chroma(w, y * w + x) == (y / 2) * (w / 2) + x / 2
  {
    DivMod(w, x, y);
  }

  lemma AtLeastOne(d: int, w: int)
    requires w > 0
    ensures d >= 1 ==> d * w >= w
    ensures d <= -1 ==> d * w <= -w
  {
    if d >= 1 {
      assert (d - 1) * w >= 0;
    } else if d <= -1 {
      assert (-d - 1) * w >= 0;
    }
  }

  lemma Unique(w: int, q: int, r: int, y: int, x: int)
    requires 0 <= r < w && 0 <= x < w && q * w + r == y * w + x
    ensures q == y && r == x
  {
    assert (y - q) * w == r - x;
    AtLeastOne(y - q, w);
  }

  lemma DivMod(w: int, x: int, y: int)
    requires w > 0 && 0 <= x < w && 0 <= y
    ensures (y * w + x) / w == y && (y * w + x) % w == x
  {
    var k := y * w + x;
    Unique(w, k / w, k % w, y, x);
  }

  // ---------------------------------------------------------------- the walk

  // The chroma position at which row y begins: two rows share their chroma values.
  function RowStart(u: int, dUV: int, w: int, y: int): int {
    u + dUV * ((y / 2) * (w / 2))
  }

  // At the end of an odd row the position is at the next row's values; at the end of an
  // even one the same values are to be read again.
  lemma NextRow(u: int, dUV: int, w: int, y: int)
    ensures y % 2 == 1 ==> RowStart(u, dUV, w, y + 1) == RowStart(u, dUV, w, y) + dUV * (w / 2)
    ensures y % 2 == 0 ==> RowStart(u, dUV, w, y + 1) == RowStart(u, dUV, w, y)
  {
    if y % 2 == 1 {
      var a, b := y / 2, w / 2;
      assert (y + 1) / 2 == a + 1;
      assert (a + 1) * b == a * b + b;
      assert dUV * (a * b + b) == dUV * (a * b) + dUV * b;
    } else {
      assert (y + 1) / 2 == y / 2;
    }
  }

  lemma InImage(w: int, height: int, x: int, y: int)
    requires w % 2 == 0 && x % 2 == 0 && 0 <= x < w && 0 <= y < height
    ensures 0 <= y * w + x && y * w + x + 1 < w * height
  {
    assert (y + 1) * w <= height * w;
    assert y * w + w == (y + 1) * w;
    assert y * w >= 0;
  }

  function Shade<P>(pixel: (Byte, Byte, Byte) -> P, s: Sample): P {
    pixel(s.y, s.u, s.v)
  }

  // Two pixels of a row.
  method WalkPair<P>(f: seq<Byte>, Y: int, U: int, V: int, rgb: array<P>, out: int, pixel: (Byte, Byte, Byte) -> P)
    requires 0 <= Y && Y + 1 < |f| && 0 <= U < |f| && 0 <= V < |f| && 0 <= out && out + 1 < rgb.Length
    modifies rgb
    ensures rgb[..] == old(rgb[..])[out := pixel(f[Y], f[U], f[V])][out + 1 := pixel(f[Y + 1], f[U], f[V])]
  {
    var nU, nV := f[U], f[V];
    rgb[out] := pixel(f[Y], nU, nV);
    rgb[out + 1] := pixel(f[Y + 1], nU, nV);
  }

  // The first n pixels are done, and the rest of the buffer is as it was.
  ghost predicate Done<P>(now: seq<P>, was: seq<P>, samples: seq<Sample>, pixel: (Byte, Byte, Byte) -> P, n: int) {
    && 0 <= n <= |samples| <= |was| == |now|
    && (forall k :: 0 <= k < n ==> now[k] == Shade(pixel, samples[k]))
    && (forall k :: n <= k < |was| ==> now[k] == was[k])
  }

  // Pair i of a row that begins at pixel row and at the chroma positions U and V.
  ghost predicate PairOf(f: seq<Byte>, samples: seq<Sample>, row: int, U: int, V: int, dUV: int, i: int) {
    && 0 <= row + 2 * i && row + 2 * i + 1 < |samples| && row + 2 * i + 1 < |f|
    && 0 <= U + dUV * i < |f| && 0 <= V + dUV * i < |f|
    && samples[row + 2 * i] == Sample(f[row + 2 * i], f[U + dUV * i], f[V + dUV * i])
    && samples[row + 2 * i + 1] == Sample(f[row + 2 * i + 1], f[U + dUV * i], f[V + dUV * i])
  }

  ghost predicate RowReads(f: seq<Byte>, samples: seq<Sample>, row: int, U: int, V: int, dUV: int, pairs: int) {
    forall i :: 0 <= i < pairs ==> PairOf(f, samples, row, U, V, dUV, i)
  }

  // The walk along row y reads the samples of its pixels.
  lemma RowIsRead(f: seq<Byte>, u: int, v: int, dUV: int, w: nat, height: nat, y: nat)
    requires w % 2 == 0 && y < height && Covers(f, u, v, dUV, w, height)
    ensures RowReads(f, Samples(f, u, v, dUV, w, height), y * w,
                     RowStart(u, dUV, w, y), RowStart(v, dUV, w, y), dUV, w / 2)
  {
    forall i | 0 <= i < w / 2
      ensures PairOf(f, Samples(f, u, v, dUV, w, height), y * w, RowStart(u, dUV, w, y), RowStart(v, dUV, w, y), dUV, i)
    {
      PairIsRead(f, u, v, dUV, w, height, y, i);
    }
  }

  lemma PairIsRead(f: seq<Byte>, u: int, v: int, dUV: int, w: nat, height: nat, y: nat, i: nat)
    requires w % 2 == 0 && y < height && Covers(f, u, v, dUV, w, height) && i < w / 2
    ensures PairOf(f, Samples(f, u, v, dUV, w, height), y * w, RowStart(u, dUV, w, y), RowStart(v, dUV, w, y), dUV, i)
  {
    var k := y * w + 2 * i;
    var samples := Samples(f, u, v, dUV, w, height);
    InImage(w, height, 2 * i, y);
    PairChroma(w, y, i);
    ChromaPosition(u, dUV, w, y, i);
    ChromaPosition(v, dUV, w, y, i);
    assert Readable(f, u, v, dUV, w, k) && samples[k] == SampleAt(f, u, v, dUV, w, k);
    assert Readable(f, u, v, dUV, w, k + 1) && samples[k + 1] == SampleAt(f, u, v, dUV, w, k + 1);
  }

  // The two pixels of a pair have the same chroma value.
  lemma PairChroma(w: int, y: int, i: int)
    requires w > 0 && w % 2 == 0 && 0 <= i < w / 2 && 0 <= y
    ensures Chroma(w, y * w + 2 * i) == (y / 2) * (w / 2) + i
    ensures Chroma(w, y * w + 2 * i + 1) == (y / 2) * (w / 2) + i
  {
    PixelAt(w, 2 * i, y);
    PixelAt(w, 2 * i + 1, y);
  }

  lemma ChromaPosition(u: int, dUV: int, w: int, y: int, i: int)
    ensures u + dUV * ((y / 2) * (w / 2) + i) == RowStart(u, dUV, w, y) + dUV * i
  {
  }

  // The inner loop: one row, two pixels at a time.
  method WalkRow<P>(f: seq<Byte>, Y0: int, U0: int, V0: int, dUV: int, rgb: array<P>, width: nat,
                    pixel: (Byte, Byte, Byte) -> P, ghost samples: seq<Sample>, ghost was: seq<P>)
    returns (Y: int, U: int, V: int)
    requires RowReads(f, samples, Y0, U0, V0, dUV, RowLength(width) / 2)
    requires Done(rgb[..], was, samples, pixel, Y0)
    modifies rgb
    ensures Y == Y0 + RowLength(width)
    ensures U == U0 + dUV * (RowLength(width) / 2) && V == V0 + dUV * (RowLength(width) / 2)
    ensures Done(rgb[..], was, samples, pixel, Y)
  {
    Y, U, V := Y0, U0, V0;
    var x := 0;
    ghost var i := 0;
    while x < width
      invariant 0 <= x == 2 * i <= RowLength(width) && Y == Y0 + x && U == U0 + dUV * i && V == V0 + dUV * i
      invariant Done(rgb[..], was, samples, pixel, Y)
      decreases width - x
    {
      assert PairOf(f, samples, Y0, U0, V0, dUV, i);
      WalkPair(f, Y, U, V, rgb, Y, pixel);
      assert dUV * (i + 1) == dUV * i + dUV;
      x, Y, U, V, i := x + 2, Y + 2, U + dUV, V + dUV, i + 1;
    }
  }

  // _YUV420SToRGB32 and _YUV420SToRGB565, which differ in the pixel function only.
  method Walk<P>(f: seq<Byte>, u0: int, v0: int, dUV: int, rgb: array<P>, width: nat, height: nat,
                 pixel: (Byte, Byte, Byte) -> P)
    requires Covers(f, u0, v0, dUV, RowLength(width), height)
    requires RowLength(width) * height <= rgb.Length
    modifies rgb
    ensures Done(rgb[..], old(rgb[..]), Samples(f, u0, v0, dUV, RowLength(width), height), pixel,
                 RowLength(width) * height)
  {
    ghost var w := RowLength(width);
    ghost var was, samples := rgb[..], Samples(f, u0, v0, dUV, w, height);
    var Y, U, V := 0, u0, v0;
    var savedU, savedV := U, V;
    var y := 0;
    while y < height
      invariant 0 <= y <= height && Y == y * w
      invariant savedU == U == RowStart(u0, dUV, w, y) && savedV == V == RowStart(v0, dUV, w, y)
      invariant Done(rgb[..], was, samples, pixel, Y)
    {
      RowIsRead(f, u0, v0, dUV, w, height, y);
      Y, U, V := WalkRow(f, Y, U, V, dUV, rgb, width, pixel, samples, was);
      NextRow(u0, dUV, w, y);
      NextRow(v0, dUV, w, y);
      assert (y + 1) * w == y * w + w;
      if y % 2 == 1 {
        savedU, savedV := U, V;
      } else {
        U, V := savedU, savedV;
      }
      y := y + 1;
    }
    assert Y == w * height;
  }

  // --------------------------------------------------------- frame layouts

  // A picture of even width and height with its three planes apart.
  datatype Picture = Picture(w: nat, h: nat, y: seq<Byte>, u: seq<Byte>, v: seq<Byte>)

  predicate IsPicture(p: Picture) {
    && p.w % 2 == 0 && p.h % 2 == 0 && |p.y| == p.w * p.h
    && |p.u| == (p.w / 2) * (p.h / 2) && |p.v| == (p.w / 2) * (p.h / 2)
  }

  lemma ChromaBound(w: nat, h: nat, k: int)
    requires w % 2 == 0 && h % 2 == 0 && 0 <= k < w * h
    ensures w > 0 && 0 <= Chroma(w, k) < (w / 2) * (h / 2)
  {
    assert w != 0;
    var y, x := k / w, k % w;
    RowOf(w, h, k);
    var a, b := w / 2, h / 2;
    assert y / 2 <= b - 1;
    Product(y / 2, b - 1, a);
    assert (b - 1) * a == b * a - a;
  }

  lemma Product(i: int, j: int, a: int)
    requires 0 <= i <= j && 0 <= a
    ensures 0 <= i * a <= j * a
  {
    assert (j - i) * a >= 0;
  }

  lemma RowOf(w: nat, h: nat, k: int)
    requires 0 < w && 0 <= k < w * h
    ensures 0 <= k / w < h && 0 <= k % w < w
  {
    var q, r := k / w, k % w;
    assert k == q * w + r;
    if q >= h {
      Product(h, q, w);
      assert false;
    }
    AtLeastOne(q, w);
  }

  // The samples of the pixels of a picture, and of pixel (x, y).
  ghost function PictureSamples(p: Picture): (r: seq<Sample>)
    requires IsPicture(p)
    ensures |r| == p.w * p.h
  {
    seq(p.w * p.h, k requires 0 <= k < p.w * p.h =>
      ChromaBound(p.w, p.h, k); Sample(p.y[k], p.u[Chroma(p.w, k)], p.v[Chroma(p.w, k)]))
  }

  lemma SampleOfPixel(p: Picture, x: nat, y: nat)
    requires IsPicture(p) && x < p.w && y < p.h
    ensures var k, c := y * p.w + x, (y / 2) * (p.w / 2) + x / 2;
            && 0 <= k < |p.y| && 0 <= c < |p.u| && 0 <= c < |p.v|
            && PictureSamples(p)[k] == Sample(p.y[k], p.u[c], p.v[c])
  {
    PixelAt(p.w, x, y);
    Product(y, p.h - 1, p.w);
    assert (p.h - 1) * p.w == p.w * p.h - p.w;
    assert Chroma(p.w, y * p.w + x) == (y / 2) * (p.w / 2) + x / 2;
    ChromaBound(p.w, p.h, y * p.w + x);
  }

  datatype Layout = YU12 | YV12 | NV12 | NV21

  function Interleave(a: seq<Byte>, b: seq<Byte>): (r: seq<Byte>)
    requires |a| == |b|
    ensures |r| == 2 * |a|
  {
    seq(2 * |a|, i requires 0 <= i < 2 * |a| => if i % 2 == 0 then a[i / 2] else b[i / 2])
  }

  // The values at first, first + 2 and so on.
  function EveryOther(s: seq<Byte>, first: nat): (r: seq<Byte>)
    requires first < 2 && |s| % 2 == 0
    ensures |r| == |s| / 2 && forall c :: 0 <= c < |r| ==> r[c] == s[2 * c + first]
  {
    seq(|s| / 2, c requires 0 <= c < |s| / 2 => s[2 * c + first])
  }

  // The frame of a picture.
  function Lay(l: Layout, p: Picture): seq<Byte>
    requires IsPicture(p)
  {
    match l
    case YU12 => p.y + p.u + p.v
    case YV12 => p.y + p.v + p.u
    case NV12 => p.y + Interleave(p.u, p.v)
    case NV21 => p.y + Interleave(p.v, p.u)
  }

  predicate IsFrame(f: seq<Byte>, w: nat, h: nat) {
    w % 2 == 0 && h % 2 == 0 && |f| == w * h * 3 / 2
  }

  lemma Quarter(w: nat, h: nat)
    requires w % 2 == 0 && h % 2 == 0
    ensures var q := (w / 2) * (h / 2); w * h == 4 * q && w * h / 4 == q && w * h * 3 / 2 == w * h + q + q
  {
    var a, b := w / 2, h / 2;
    assert w == 2 * a && h == 2 * b;
    assert (2 * a) * (2 * b) == 4 * (a * b);
  }

  // The picture of a frame.
  function PictureOf(l: Layout, f: seq<Byte>, w: nat, h: nat): (p: Picture)
    requires IsFrame(f, w, h)
    ensures IsPicture(p)
  {
    Quarter(w, h);
    var n, q := w * h, (w / 2) * (h / 2);
    match l
    case YU12 => Picture(w, h, f[..n], f[n..n + q], f[n + q..])
    case YV12 => Picture(w, h, f[..n], f[n + q..], f[n..n + q])
    case NV12 => Picture(w, h, f[..n], EveryOther(f[n..], 0), EveryOther(f[n..], 1))
    case NV21 => Picture(w, h, f[..n], EveryOther(f[n..], 1), EveryOther(f[n..], 0))
  }

  // Laying out a picture and taking it apart again, and the other way round.
  lemma LayRoundTrip(l: Layout, p: Picture)
    requires IsPicture(p)
    ensures IsFrame(Lay(l, p), p.w, p.h) && PictureOf(l, Lay(l, p), p.w, p.h) == p
  {
    Quarter(p.w, p.h);
    var f, n, q := Lay(l, p), p.w * p.h, (p.w / 2) * (p.h / 2);
    assert |f| == n + q + q;
    assert f[..n] == p.y;
    match l
    case YU12 => assert f[n..n + q] == p.u && f[n + q..] == p.v;
    case YV12 => assert f[n..n + q] == p.v && f[n + q..] == p.u;
    case NV12 => InterleaveRoundTrip(p.u, p.v); assert f[n..] == Interleave(p.u, p.v);
    case NV21 => InterleaveRoundTrip(p.v, p.u); assert f[n..] == Interleave(p.v, p.u);
  }

  lemma InterleaveRoundTrip(a: seq<Byte>, b: seq<Byte>)
    requires |a| == |b|
    ensures EveryOther(Interleave(a, b), 0) == a && EveryOther(Interleave(a, b), 1) == b
  {
  }

  lemma WeaveRoundTrip(s: seq<Byte>)
    requires |s| % 2 == 0
    ensures Interleave(EveryOther(s, 0), EveryOther(s, 1)) == s
  {
    var a, b := EveryOther(s, 0), EveryOther(s, 1);
    forall i | 0 <= i < |s|
      ensures Interleave(a, b)[i] == s[i]
    {
      var c := i / 2;
      assert i == 2 * c || i == 2 * c + 1;
      assert a[c] == s[2 * c] && b[c] == s[2 * c + 1];
    }
  }

  lemma FrameRoundTrip(l: Layout, f: seq<Byte>, w: nat, h: nat)
    requires IsFrame(f, w, h)
    ensures Lay(l, PictureOf(l, f, w, h)) == f
  {
    Quarter(w, h);
    Rejoin(f, w * h, (w / 2) * (h / 2));
    WeaveRoundTrip(f[w * h..]);
  }

  lemma Rejoin(f: seq<Byte>, n: nat, q: nat)
    requires |f| == n + q + q
    ensures f[..n] + f[n..] == f && f[..n] + f[n..n + q] + f[n + q..] == f
  {
  }

  // Where the converters start in the chroma planes, and how far their values are apart.
  function StartU(l: Layout, w: nat, h: nat): int {
    match l
    case YU12 => w * h
    case YV12 => w * h + w * h / 4
    case NV12 => w * h
    case NV21 => w * h + 1
  }

  function StartV(l: Layout, w: nat, h: nat): int {
    match l
    case YU12 => w * h + w * h / 4
    case YV12 => w * h
    case NV12 => w * h + 1
    case NV21 => w * h
  }

  function Apart(l: Layout): int {
    if l.YU12? || l.YV12? then 1 else 2
  }

  lemma ChromaAt(l: Layout, f: seq<Byte>, w: nat, h: nat, c: int)
    requires IsFrame(f, w, h) && 0 <= c < (w / 2) * (h / 2)
    ensures 0 <= StartU(l, w, h) + Apart(l) * c < |f| && 0 <= StartV(l, w, h) + Apart(l) * c < |f|
    ensures f[StartU(l, w, h) + Apart(l) * c] == PictureOf(l, f, w, h).u[c]
    ensures f[StartV(l, w, h) + Apart(l) * c] == PictureOf(l, f, w, h).v[c]
  {
    Quarter(w, h);
    if l.YU12? || l.YV12? {
      PlanarAt(f, w * h, (w / 2) * (h / 2), c);
    } else {
      InterleavedAt(f, w * h, (w / 2) * (h / 2), c);
    }
  }

  lemma PlanarAt(f: seq<Byte>, n: nat, q: nat, c: int)
    requires |f| == n + q + q && 0 <= c < q
    ensures f[n..n + q][c] == f[n + c] && f[n + q..][c] == f[n + q + c]
  {
  }

  lemma InterleavedAt(f: seq<Byte>, n: nat, q: nat, c: int)
    requires |f| == n + q + q && 0 <= c < q
    ensures |f[n..]| == 2 * q
    ensures EveryOther(f[n..], 0)[c] == f[n + 2 * c] && EveryOther(f[n..], 1)[c] == f[n + 1 + 2 * c]
  {
  }

  // Every read of a converter stays in the frame and finds the sample of its pixel.
  lemma FrameIsRead(l: Layout, f: seq<Byte>, w: nat, h: nat)
    requires IsFrame(f, w, h)
    ensures Covers(f, StartU(l, w, h), StartV(l, w, h), Apart(l), w, h)
    ensures Samples(f, StartU(l, w, h), StartV(l, w, h), Apart(l), w, h) == PictureSamples(PictureOf(l, f, w, h))
  {
    forall k | 0 <= k < w * h
      ensures Readable(f, StartU(l, w, h), StartV(l, w, h), Apart(l), w, k)
      ensures SampleAt(f, StartU(l, w, h), StartV(l, w, h), Apart(l), w, k) == PictureSamples(PictureOf(l, f, w, h))[k]
    {
      PixelIsRead(l, f, w, h, k);
    }
  }

  lemma PixelIsRead(l: Layout, f: seq<Byte>, w: nat, h: nat, k: int)
    requires IsFrame(f, w, h) && 0 <= k < w * h
    ensures Readable(f, StartU(l, w, h), StartV(l, w, h), Apart(l), w, k)
    ensures SampleAt(f, StartU(l, w, h), StartV(l, w, h), Apart(l), w, k) == PictureSamples(PictureOf(l, f, w, h))[k]
  {
    Quarter(w, h);
    ChromaBound(w, h, k);
    ChromaAt(l, f, w, h, Chroma(w, k));
  }

  // --------------------------------------------------------- the converters

  method ToRGB32(l: Layout, f: seq<Byte>, rgb: array<Color>, w: nat, h: nat)
    requires IsFrame(f, w, h) && w * h <= rgb.Length
    modifies rgb
    ensures Done(rgb[..], old(rgb[..]), PictureSamples(PictureOf(l, f, w, h)), YUVToRGB32, w * h)
  {
    FrameIsRead(l, f, w, h);
    Walk(f, StartU(l, w, h), StartV(l, w, h), Apart(l), rgb, w, h, YUVToRGB32);
  }

  method ToRGB565(l: Layout, f: seq<Byte>, rgb: array<int>, w: nat, h: nat)
    requires IsFrame(f, w, h) && w * h <= rgb.Length
    modifies rgb
    ensures Done(rgb[..], old(rgb[..]), PictureSamples(PictureOf(l, f, w, h)), YUVToRGB565, w * h)
  {
    FrameIsRead(l, f, w, h);
    Walk(f, StartU(l, w, h), StartV(l, w, h), Apart(l), rgb, w, h, YUVToRGB565);
  }

  // The samples two converters see are those of the same picture, whatever its layout.
  lemma LayoutsAgree(l: Layout, m: Layout, p: Picture)
    requires IsPicture(p)
    ensures IsFrame(Lay(l, p), p.w, p.h) && IsFrame(Lay(m, p), p.w, p.h)
    ensures PictureSamples(PictureOf(l, Lay(l, p), p.w, p.h)) == PictureSamples(PictureOf(m, Lay(m, p), p.w, p.h))
  {
    LayRoundTrip(l, p);
    LayRoundTrip(m, p);
  }

  // What a converter writes for the samples of an image.
  ghost function Words(samples: seq<Sample>): (r: seq<int>)
    ensures |r| == |samples| && forall k :: 0 <= k < |samples| ==> r[k] == Shade(YUVToRGB565, samples[k])
  {
    seq(|samples|, k requires 0 <= k < |samples| => Shade(YUVToRGB565, samples[k]))
  }

  // Exchanging the chroma values of a pixel does not change its word.
  predicate Symmetric(s: Sample) {
    YUVToRGB565(s.y, s.u, s.v) == YUVToRGB565(s.y, s.v, s.u)
  }

  ghost predicate AllSymmetric(samples: seq<Sample>) {
    forall k :: 0 <= k < |samples| ==> Symmetric(samples[k])
  }

  // A YV12 frame read as YU12 is the picture with its chroma planes exchanged.
  lemma ExchangedPlanes(p: Picture)
    requires IsPicture(p)
    ensures IsFrame(Lay(YV12, p), p.w, p.h)
    ensures PictureOf(YU12, Lay(YV12, p), p.w, p.h) == p.(u := p.v, v := p.u)
  {
    var q := p.(u := p.v, v := p.u);
    LayRoundTrip(YU12, q);
    assert Lay(YU12, q) == Lay(YV12, p);
  }

  lemma ExchangedWords(p: Picture)
    requires IsPicture(p)
    ensures IsFrame(Lay(YV12, p), p.w, p.h)
    ensures Words(PictureSamples(PictureOf(YU12, Lay(YV12, p), p.w, p.h))) == Words(PictureSamples(p)) <==>
              AllSymmetric(PictureSamples(p))
  {
    ExchangedPlanes(p);
    var a, b := PictureSamples(p), PictureSamples(p.(u := p.v, v := p.u));
    forall k | 0 <= k < |a|
      ensures b[k] == Sample(a[k].y, a[k].v, a[k].u)
      ensures Words(b)[k] == Words(a)[k] <==> Symmetric(a[k])
    {
      ChromaBound(p.w, p.h, k);
    }
  }

  // YV12ToRGB565 starts where the converters for YU12 do. It writes the words of the YV12
  // picture if and only if no pixel's word changes with its chroma values exchanged.
  method YV12ToRGB565(f: seq<Byte>, rgb: array<int>, w: nat, h: nat)
    requires IsFrame(f, w, h) && w * h <= rgb.Length
    modifies rgb
    ensures Done(rgb[..], old(rgb[..]), PictureSamples(PictureOf(YU12, f, w, h)), YUVToRGB565, w * h)
    ensures w * h >= 0 && (rgb[..w * h] == Words(PictureSamples(PictureOf(YV12, f, w, h))) <==>
                           AllSymmetric(PictureSamples(PictureOf(YV12, f, w, h))))
  {
    ToRGB565(YU12, f, rgb, w, h);
    FrameRoundTrip(YV12, f, w, h);
    ExchangedWords(PictureOf(YV12, f, w, h));
    WordsAreDone(rgb[..], old(rgb[..]), PictureSamples(PictureOf(YU12, f, w, h)), w * h);
  }

  lemma WordsAreDone(now: seq<int>, was: seq<int>, samples: seq<Sample>, n: int)
    requires Done(now, was, samples, YUVToRGB565, n) && n == |samples|
    ensures now[..n] == Words(samples)
  {
  }

  // Pictures with equal chroma planes are shown rightly.
  lemma EqualPlanes(p: Picture)
    requires IsPicture(p) && p.u == p.v
    ensures AllSymmetric(PictureSamples(p))
  {
    forall k | 0 <= k < p.w * p.h
      ensures Symmetric(PictureSamples(p)[k])
    {
      ChromaBound(p.w, p.h, k);
    }
  }

  // A picture of one colour that is shown in another.
  lemma WrongColour()
    ensures var p := Picture(2, 2, [128, 128, 128, 128], [128], [255]); IsPicture(p) && !AllSymmetric(PictureSamples(p))
  {
    var p := Picture(2, 2, [128, 128, 128, 128], [128], [255]);
    ChromaBound(2, 2, 0);
    var s := PictureSamples(p)[0];
    assert s == Sample(128, 128, 255);
    assert YUVToRGB32(128, 128, 255).r == 255 && YUVToRGB32(128, 255, 128).r == 130;
    Same565(128, 128, 255);
    Same565(128, 255, 128);
    assert !Symmetric(s);
  }
}
