/**
 * Model of canvas.js: the 200×200 RGBA drawing surface, the nearest-neighbour
 * downsampling of that surface to a 28×28 grid and the extraction of its
 * alpha channel as 784 intensities, and the module state updated by the
 * pointer handlers.
 *
 * Buffers are flat and row-major with four bytes per pixel (red, green,
 * blue, alpha): pixel (x, y) of a w-wide image starts at byte (y * w + x) * 4.
 */
module Canvas {
  import opened Strokes

  /** One element of a canvas pixel buffer (a Uint8ClampedArray). */
  type Byte = b: int | 0 <= b < 256

  /** Bytes in the 200×200 RGBA drawing surface. */
  const SurfaceBytes: nat := 160000
  /** Bytes in the 28×28 RGBA downscaled image. */
  const GridBytes: nat := 3136
  /** Values in the intensity tensor: one per cell of the 28×28 grid. */
  const GridCells: nat := 784

  /** The surface coordinate sampled for grid coordinate `g`, computed in
      integers as g * 200 / 28. It never goes beyond the 200-pixel edge. */
  function SampleCoord(g: nat): (s: nat)
    requires g < 28
    ensures s <= 192
  {
    g * 200 / 28
  }

  /** The integer sample coordinate is the exact floor of g * (200 / 28),
      the product the scale factor 200 / 28 gives in exact arithmetic. */
  lemma SampleCoordIsFloor(g: nat)
    requires g < 28
    ensures SampleCoord(g) as real <= g as real * (200.0 / 28.0) < (SampleCoord(g) + 1) as real
  {
    var s := SampleCoord(g);
    assert s * 28 <= g * 200 < s * 28 + 28;
  }

  /** Byte c of the surface pixel sampled for grid cell (x, y): the
      pixel's offset (origY * 200 + origX) * 4, plus the channel. Every byte
      read is inside the surface, and it is the same channel. */
  function SourceByte(x: nat, y: nat, c: nat): (o: nat)
    requires x < 28 && y < 28 && c < 4
    ensures o < SurfaceBytes
  {
    (SampleCoord(y) * 200 + SampleCoord(x)) * 4 + c
  }

  /** The byte read for channel c is a channel-c byte of the surface. */
  lemma SourceByteChannel(x: nat, y: nat, c: nat)
    requires x < 28 && y < 28 && c < 4
    ensures SourceByte(x, y, c) % 4 == c
  {
    DivMod4(SampleCoord(y) * 200 + SampleCoord(x), c);
  }

  /** Byte c of grid cell (x, y) in the downscaled image: its offset
      (y * 28 + x) * 4, plus the channel. */
  function CellByte(x: nat, y: nat, c: nat): (o: nat)
    requires x < 28 && y < 28 && c < 4
    ensures o < GridBytes
  {
    (y * 28 + x) * 4 + c
  }

  /** Column, row and channel of byte k of the downscaled image. */
  function CellX(k: nat): (x: nat)
    ensures x < 28
  {
    (k / 4) % 28
  }

  function CellY(k: nat): (y: nat)
    requires k < GridBytes
    ensures y < 28
  {
    (k / 4) / 28
  }

  function Channel(k: nat): (c: nat)
    ensures c < 4
  {
    k % 4
  }

  /** The downscaled 28×28 RGBA image: byte k, channel Channel(k) of cell
      (CellX(k), CellY(k)), is copied from the same channel of that cell's
      sampled surface pixel. */
  function Downscale(surface: seq<Byte>): (image: seq<Byte>)
    requires |surface| == SurfaceBytes
    ensures |image| == GridBytes
  {
    seq(GridBytes, k requires 0 <= k < GridBytes =>
      surface[SourceByte(CellX(k), CellY(k), Channel(k))])
  }

  /** The normalised intensity of one alpha byte. */
  function Intensity(alpha: Byte): (v: real)
    ensures 0.0 <= v <= 1.0
  {
    alpha as real / 255.0
  }

  /** Intensity is 0 exactly for a transparent byte and 1 exactly for an
      opaque one. */
  lemma IntensityExtremes(alpha: Byte)
    ensures Intensity(alpha) == 0.0 <==> alpha == 0
    ensures Intensity(alpha) == 1.0 <==> alpha == 255
  {
  }

  /** The alpha byte of each cell of a downscaled image, over 255. */
  function AlphaIntensities(image: seq<Byte>): (t: seq<real>)
    requires |image| == GridBytes
    ensures |t| == GridCells
    ensures forall i :: 0 <= i < |t| ==> 0.0 <= t[i] <= 1.0
  {
    seq(GridCells, i requires 0 <= i < GridCells => Intensity(image[i * 4 + 3]))
  }

  /** The intensity tensor of a surface. */
  function Extract(surface: seq<Byte>): (t: seq<real>)
    requires |surface| == SurfaceBytes
    ensures |t| == GridCells
  {
    AlphaIntensities(Downscale(surface))
  }

  /** Byte CellByte(x, y, c) belongs to cell (x, y), channel c: distinct
      (cell, channel) triples are written to distinct bytes. */
  lemma CellOfByte(x: nat, y: nat, c: nat)
    requires x < 28 && y < 28 && c < 4
    ensures CellX(CellByte(x, y, c)) == x
    ensures CellY(CellByte(x, y, c)) == y
    ensures Channel(CellByte(x, y, c)) == c
  {
    DivMod4(y * 28 + x, c);
    DivMod28(y, x);
  }

  /** Every byte of the downscaled image is the CellByte of the (cell,
      channel) it belongs to, so the copying loop covers the whole image. */
  lemma ByteOfCell(k: nat)
    requires k < GridBytes
    ensures CellByte(CellX(k), CellY(k), Channel(k)) == k
  {
    var q := k / 4;
    assert q == (q / 28) * 28 + q % 28;
    assert k == q * 4 + k % 4;
  }

  lemma DivMod4(q: nat, c: nat)
    requires c < 4
    ensures (q * 4 + c) / 4 == q && (q * 4 + c) % 4 == c
  {
  }

  lemma DivMod28(y: nat, x: nat)
    requires x < 28
    ensures (y * 28 + x) / 28 == y && (y * 28 + x) % 28 == x
  {
  }

  /** Channel c of downscaled cell (x, y) is channel c of the surface pixel at
      (floor(x * 200/28), floor(y * 200/28)), unchanged. */
  lemma DownscaleAt(surface: seq<Byte>, x: nat, y: nat, c: nat)
    requires |surface| == SurfaceBytes
    requires x < 28 && y < 28 && c < 4
    ensures Downscale(surface)[CellByte(x, y, c)] == surface[SourceByte(x, y, c)]
  {
    CellOfByte(x, y, c);
  }

  /** An image whose every cell holds its sampled surface pixel is the
      downscaled image. */
  lemma DownscaleFromCells(surface: seq<Byte>, image: seq<Byte>)
    requires |surface| == SurfaceBytes && |image| == GridBytes
    requires forall x: nat, y: nat, c: nat :: x < 28 && y < 28 && c < 4 ==>
      image[CellByte(x, y, c)] == surface[SourceByte(x, y, c)]
    ensures image == Downscale(surface)
  {
    forall k | 0 <= k < GridBytes ensures image[k] == Downscale(surface)[k] {
      ByteOfCell(k);
    }
  }

  /** Intensity i is the alpha byte of the surface pixel sampled for cell
      (i % 28, i / 28), over 255. */
  lemma ExtractAt(surface: seq<Byte>, i: nat)
    requires |surface| == SurfaceBytes
    requires i < GridCells
    ensures Extract(surface)[i] == Intensity(surface[SourceByte(i % 28, i / 28, 3)])
  {
    DivMod28(i / 28, i % 28);
    assert CellByte(i % 28, i / 28, 3) == i * 4 + 3;
    DownscaleAt(surface, i % 28, i / 28, 3);
  }

  /** Only the alpha channel matters: surfaces whose alpha bytes agree give
      the same tensor, whatever their colours. */
  lemma ExtractReadsOnlyAlpha(s1: seq<Byte>, s2: seq<Byte>)
    requires |s1| == SurfaceBytes && |s2| == SurfaceBytes
    requires forall k :: 0 <= k < SurfaceBytes && k % 4 == 3 ==> s1[k] == s2[k]
    ensures Extract(s1) == Extract(s2)
  {
    forall i | 0 <= i < GridCells ensures Extract(s1)[i] == Extract(s2)[i] {
      ExtractAt(s1, i);
      ExtractAt(s2, i);
      var alpha := SourceByte(i % 28, i / 28, 3);
      SourceByteChannel(i % 28, i / 28, 3);
      assert s1[alpha] == s2[alpha];
    }
  }

  /** A fully transparent surface (every alpha byte 0, as after clearing)
      gives an all-zero tensor. */
  lemma TransparentGivesZeros(surface: seq<Byte>)
    requires |surface| == SurfaceBytes
    requires forall k :: 0 <= k < SurfaceBytes && k % 4 == 3 ==> surface[k] == 0
    ensures forall i :: 0 <= i < GridCells ==> Extract(surface)[i] == 0.0
  {
    forall i | 0 <= i < GridCells ensures Extract(surface)[i] == 0.0 {
      ExtractAt(surface, i);
      var alpha := SourceByte(i % 28, i / 28, 3);
      SourceByteChannel(i % 28, i / 28, 3);
      IntensityExtremes(surface[alpha]);
    }
  }

  /** A fully opaque surface (every alpha byte 255) gives an all-one tensor. */
  lemma OpaqueGivesOnes(surface: seq<Byte>)
    requires |surface| == SurfaceBytes
    requires forall k :: 0 <= k < SurfaceBytes && k % 4 == 3 ==> surface[k] == 255
    ensures forall i :: 0 <= i < GridCells ==> Extract(surface)[i] == 1.0
  {
    forall i | 0 <= i < GridCells ensures Extract(surface)[i] == 1.0 {
      ExtractAt(surface, i);
      var alpha := SourceByte(i % 28, i / 28, 3);
      SourceByteChannel(i % 28, i / 28, 3);
      IntensityExtremes(surface[alpha]);
    }
  }

  /** The first half of getCanvasData: a fresh 28×28 image whose cells are
      filled, row by row, from the sampled surface pixels. */
  method DownscaleSurface(original: seq<Byte>) returns (downscaled: array<Byte>)
    requires |original| == SurfaceBytes
    ensures fresh(downscaled)
    ensures downscaled[..] == Downscale(original)
  {
    downscaled := new Byte[GridBytes];
    for y := 0 to 28
      invariant forall yy: nat, xx: nat, c: nat :: yy < y && xx < 28 && c < 4 ==>
        downscaled[CellByte(xx, yy, c)] == original[SourceByte(xx, yy, c)]
    {
      for x := 0 to 28
        invariant forall yy: nat, xx: nat, c: nat :: yy < y && xx < 28 && c < 4 ==>
          downscaled[CellByte(xx, yy, c)] == original[SourceByte(xx, yy, c)]
        invariant forall xx: nat, c: nat :: xx < x && c < 4 ==>
          downscaled[CellByte(xx, y, c)] == original[SourceByte(xx, y, c)]
      {
        var origIndex := SourceByte(x, y, 0);
        var downscaledIndex := CellByte(x, y, 0);
        downscaled[downscaledIndex] := original[origIndex];
        downscaled[downscaledIndex + 1] := original[origIndex + 1];
        downscaled[downscaledIndex + 2] := original[origIndex + 2];
        downscaled[downscaledIndex + 3] := original[origIndex + 3];
      }
    }
    DownscaleFromCells(original, downscaled[..]);
  }

  /** getCanvasData: copy the surface (getImageData returns a copy),
      downscale it, then read each cell's alpha byte over 255. */
  method GetCanvasData(surface: array<Byte>) returns (tensor: array<real>)
    requires surface.Length == SurfaceBytes
    ensures fresh(tensor)
    ensures tensor.Length == GridCells
    ensures tensor[..] == Extract(surface[..])
  {
    var original := surface[..];
    var downscaled := DownscaleSurface(original);
    tensor := new real[GridCells];
    for i := 0 to GridCells
      modifies tensor
      invariant forall j :: 0 <= j < i ==> tensor[j] == Intensity(downscaled[j * 4 + 3])
    {
      tensor[i] := Intensity(downscaled[i * 4 + 3]);
    }
    assert tensor[..] == AlphaIntensities(downscaled[..]);
  }

  /** Extraction only reads the surface: two calls with nothing in between
      return equal tensors, each in its own new array. */
  method ExtractTwice(surface: array<Byte>) returns (first: array<real>, second: array<real>)
    requires surface.Length == SurfaceBytes
    ensures first != second
    ensures first[..] == second[..]
  {
    first := GetCanvasData(surface);
    second := GetCanvasData(surface);
  }

  /** The module state of canvas.js: the 2-D context's pixels and the
      `drawing` / `points` pair the pointer handlers update. */
  class DrawingCanvas {
    /** The context's backing store, 200×200 RGBA, row-major. */
    const pixels: array<Byte>
    var drawing: bool
    var points: seq<Point>

    ghost predicate Valid()
      reads this
    {
      pixels.Length == SurfaceBytes && Consistent(Recorder())
    }

    function Recorder(): RecorderState
      reads this
    {
      RecorderState(drawing, points)
    }

    /** A new canvas is fully transparent and not drawing. */
    constructor ()
      ensures Valid() && fresh(pixels)
      ensures !drawing && points == []
      ensures forall k :: 0 <= k < pixels.Length ==> pixels[k] == 0
    {
      pixels := new Byte[SurfaceBytes](_ => 0);
      drawing := false;
      points := [];
    }

    /** onPointerMove: append the position only while drawing. */
    method OnPointerMove(p: Point)
      requires Valid()
      modifies this
      ensures Valid()
      ensures drawing == old(drawing)
      ensures points == if old(drawing) then old(points) + [p] else old(points)
      ensures Recorder() == Step(old(Recorder()), PointerMove(p))
    {
      if drawing {
        points := points + [p];
      }
    }

    /** onPointerDown: set the flag; the points are kept, and they are
        already empty unless a gesture was in progress. */
    method OnPointerDown()
      requires Valid()
      modifies this
      ensures Valid()
      ensures drawing && points == old(points)
      ensures !old(drawing) ==> points == []
      ensures Recorder() == Step(old(Recorder()), PointerDown)
    {
      drawing := true;
    }

    /** onPointerUp, also bound to pointerout: stop drawing, drop the path. */
    method OnPointerUp()
      requires Valid()
      modifies this
      ensures Valid()
      ensures !drawing && points == []
      ensures Recorder() == Step(old(Recorder()), PointerUp)
      ensures Recorder() == Step(old(Recorder()), PointerOut)
    {
      drawing := false;
      points := [];
    }

    /** clearCanvas: every byte of the surface becomes 0 (transparent black). */
    method ClearCanvas()
      requires Valid()
      modifies pixels
      ensures Valid()
      ensures forall k :: 0 <= k < pixels.Length ==> pixels[k] == 0
      ensures Recorder() == old(Recorder())
    {
      forall k | 0 <= k < pixels.Length {
        pixels[k] := 0;
      }
    }

    /** getCanvasData on this canvas's own surface. */
    method ReadTensor() returns (tensor: array<real>)
      requires Valid()
      ensures fresh(tensor)
      ensures tensor[..] == Extract(pixels[..])
    {
      tensor := GetCanvasData(pixels);
    }

    /** The clear button followed by getCanvasData: a cleared canvas
        reads as 784 zeros, and the pointer state is untouched. */
    method ReadAfterClear() returns (tensor: array<real>)
      requires Valid()
      modifies pixels
      ensures Valid() && Recorder() == old(Recorder())
      ensures tensor.Length == GridCells
      ensures forall i :: 0 <= i < GridCells ==> tensor[i] == 0.0
    {
      ClearCanvas();
      tensor := ReadTensor();
      TransparentGivesZeros(pixels[..]);
    }
  }
}
