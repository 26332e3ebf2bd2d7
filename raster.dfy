/**
 * What the generator needs from PIL, as values: font objects, the external
 * render primitive (`getsize`, `getoffset`, `ImageFont.truetype`) and the
 * pictures it draws. Pixels are not modelled: a picture records its size and
 * what was drawn where.
 */
module Raster {
  import opened Wrappers

  /** A 2-D integer vector: a size `(w, h)` or a location `(x, y)`. */
  datatype Pair = Pair(x: int, y: int)

  function Max(a: int, b: int): int { if a >= b then a else b }
  function Min(a: int, b: int): int { if a <= b then a else b }

  /**
   * A FreeType font object. `size` is its Python attribute, which callers may
   * reassign; `loadedAt` is the size FreeType instantiated it at, which is what
   * `getsize` and `getoffset` measure with.
   */
  datatype Face = Face(path: string, size: int, loadedAt: int)

  /** PIL's default size for `ImageFont.truetype(path)`. */
  const DefaultFontSize: int := 10

  /**
   * The external render primitive: the bounding box and the bearing offset of a
   * text in the font at `path` instantiated at a size, and whether
   * `ImageFont.truetype(path, size)` succeeds (it raises OSError otherwise).
   */
  datatype Renderer = Renderer(
    textSize: (string, int, string) -> Pair,
    textOffset: (string, int, string) -> Pair,
    opens: (string, int) -> bool)
  {
    /** `font.getsize(text)`. */
    function GetSize(face: Face, text: string): Pair {
      textSize(face.path, face.loadedAt, text)
    }

    /** `font.getoffset(text)`. */
    function GetOffset(face: Face, text: string): Pair {
      textOffset(face.path, face.loadedAt, text)
    }

    /** `ImageFont.truetype(path, size=size)`; None when it raises OSError. */
    function TrueType(path: string, size: int): (f: Option<Face>)
      ensures f.Some? <==> opens(path, size)
      ensures f.Some? ==> f.value.path == path && f.value.size == size && f.value.loadedAt == size
    {
      if opens(path, size) then Some(Face(path, size, size)) else None
    }
  }

  /** A text drawn at a location with a font (`ImageDraw.text`). */
  datatype Mark = Mark(text: string, at: Pair, face: Face)

  /** The transformations `apply_random_transformation` chooses from, in list order. */
  datatype Transform = Rotation | Noise | Translation | Warp

  /** An image as stored on disk. */
  datatype Picture =
    | Canvas(size: Pair, marks: seq<Mark>)
    | Transformed(kind: Transform, source: string)
}
