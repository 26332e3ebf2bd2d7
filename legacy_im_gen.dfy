/**
 * generator/im_gen.py, the script version of the generator: the charset and the
 * font files are loaded into module globals, every font is sized for "H" from
 * size 20, and one sprite board of a fixed 15 x 14 cells is drawn per font file
 * into the images directory.
 */
module LegacyImGen {
  import opened Wrappers
  import opened Text
  import opened Paths
  import opened Raster
  import opened Disk
  import opened Utils
  import opened Sprites
  import opened FontSet
  import CharImages

  /** `IMAGE_DIR`: where the boards are written. */
  const ImageDir: string := "images"

  /** The size every search starts at, and the tolerance `create_fontboard` passes. */
  const StartSize: int := 20
  const BoardEps: int := 8

  /** The board always has this many columns and rows of cells, whatever the charset. */
  const Columns: int := 15
  const Rows: int := 14

  // ---------------------------------------------------------------------------
  // load_char_set, load_font_set
  // ---------------------------------------------------------------------------

  /** The module state of the script: the global `CHARSET_SIZE`. */
  class Script {
    var charsetSize: nat

    constructor ()
      ensures charsetSize == 0
    {
      charsetSize := 0;
    }

    /**
     * `load_char_set`: the whitespace-separated tokens of `charset.txt`, whose
     * count becomes `CHARSET_SIZE`. The tokens hold every non-blank character
     * of the file, in order.
     */
    method LoadCharSet(content: string) returns (chars: seq<string>)
      modifies this
      ensures chars == Split(content) && charsetSize == |chars|
      ensures Concat(chars) == Ink(content)
      ensures forall t <- chars :: t != [] && NoWhitespace(t)
    {
      chars := Split(content);
      charsetSize := |chars|;
      SplitKeepsInk(content);
    }
  }

  lemma PathsOfAppend(a: seq<FontFile>, b: seq<FontFile>)
    ensures PathsOf(a + b) == PathsOf(a) + PathsOf(b)
  {
  }

  /**
   * `load_font_set`: the full paths of the accepted files of the walk of the
   * fonts directory, directory after directory; exactly the files the walk
   * reports under an accepted name.
   */
  method LoadFontSet(walk: seq<WalkEntry>) returns (fnames: seq<string>)
    ensures fnames == PathsOf(Candidates(walk))
    ensures forall p :: p in fnames <==> exists f :: FoundInWalk(walk, f) && p == f.path
  {
    fnames := [];
    var i := 0;
    while i < |walk|
      invariant 0 <= i <= |walk|
      invariant fnames == PathsOf(Candidates(walk[..i]))
    {
      CandidatesStep(walk, i);
      PathsOfAppend(Candidates(walk[..i]), Accepted(walk[i].root, walk[i].names));
      fnames := fnames + PathsOf(Accepted(walk[i].root, walk[i].names));
      i := i + 1;
    }
    assert walk[..i] == walk;
    CandidatesMembers(walk);
    forall p ensures p in fnames <==> exists f :: FoundInWalk(walk, f) && p == f.path {
      if p in fnames {
        var k :| 0 <= k < |fnames| && fnames[k] == p;
        assert Candidates(walk)[k] in Candidates(walk);
      }
    }
  }

  // ---------------------------------------------------------------------------
  // estimate_font_size
  // ---------------------------------------------------------------------------

  /**
   * The size search of the script: open the font at `start` (OSError if it
   * does not open), keep it if the text already fits, otherwise walk in unit
   * steps as the utils version does. `fuel` bounds the iterations after the
   * first one.
   */
  function LegacySearch(p: SizeProbe, start: int, fuel: nat): Estimate {
    if !p.renderer.opens(p.path, start) then Unopenable(start)
    else if p.Fits(start) then Fitted(start)
    else p.Settle(start, fuel + 1)
  }

  /** The font object the search returns: instantiated at the final size. */
  function FontOf(path: string, est: Estimate): (font: Result<Face, Fault>)
    ensures font.Ok? <==> est.Fitted?
    ensures font.Ok? ==> font.value == Face(path, est.size, est.size)
    ensures est.Unopenable? ==> font == Err(FontUnusable(est.size))
  {
    match est
    case Fitted(s) => Ok(Face(path, s, s))
    case Unopenable(s) => Err(FontUnusable(s))
    case Unsettled => Err(SizeSearchUnsettled)
  }

  /**
   * The script's search is the utils one applied to the font loaded at the
   * start size: the same walk and the same exit rule.
   */
  lemma LegacySearchIsUtilsSearch(p: SizeProbe, start: int, fuel: nat)
    requires p.renderer.opens(p.path, start)
    ensures LegacySearch(p, start, fuel) == SizeSearch(p, Face(p.path, start, start), fuel)
  {
    if !p.Fits(start) {
      var next := start + p.Step(p.Error(start));
      assert p.Settle(start, fuel + 1) == if !p.renderer.opens(p.path, next) then Unopenable(next) else p.Settle(next, fuel);
    }
  }

  /**
   * A font that fits at the start size is returned at it; otherwise the result
   * is one step past the first size of the walk that fits.
   */
  lemma LegacySearchResult(p: SizeProbe, start: int, fuel: nat, s: int)
    ensures LegacySearch(p, start, fuel) == Fitted(s) <==>
      && p.renderer.opens(p.path, start)
      && (if p.Fits(start) then s == start
          else exists k :: 0 <= k < fuel + 1 && p.FirstFitAt(start, k) && s == p.Visit(start, k + 1))
  {
    SettleIsFirstFitPlusStep(p, start, fuel + 1, s);
  }

  /**
   * `estimate_font_size(ttf, text, fit_size, font_size, eps)`: the loop measures
   * with the current font object, steps the size, and opens a new font object,
   * until the measurement before the step fitted.
   */
  method EstimateFontSize(r: Renderer, ttf: string, text: string, fit: Pair, fontSize: int, eps: int, fuel: nat)
    returns (font: Result<Face, Fault>)
    ensures font == FontOf(ttf, LegacySearch(SizeProbe(r, ttf, text, fit, eps), fontSize, fuel))
  {
    ghost var p := SizeProbe(r, ttf, text, fit, eps);
    var size := fontSize;
    var loaded := r.TrueType(ttf, size);
    if loaded.None? {
      return Err(FontUnusable(size));
    }
    var face := loaded.value;
    var wh := r.GetSize(face, text);
    var err := Max(fit.x, fit.y) - Max(wh.x, wh.y);
    var budget: nat := fuel + 1;
    while Abs(err) > eps
      invariant face == Face(ttf, size, size)
      invariant Abs(err) > eps ==> p.Settle(size, budget) == LegacySearch(p, fontSize, fuel)
      invariant Abs(err) <= eps ==> LegacySearch(p, fontSize, fuel) == Fitted(size)
      decreases budget
    {
      if budget == 0 {
        return Err(SizeSearchUnsettled);
      }
      budget := budget - 1;
      wh := r.GetSize(face, text);
      err := Max(fit.x, fit.y) - Max(wh.x, wh.y);
      size := size + (if err > 0 then 1 else -1);
      loaded := r.TrueType(ttf, size);
      if loaded.None? {
        return Err(FontUnusable(size));
      }
      face := loaded.value;
    }
    return Ok(face);
  }

  // ---------------------------------------------------------------------------
  // create_whiteboard
  // ---------------------------------------------------------------------------

  /** `create_whiteboard`: room for 15 x 14 cells of the sample's size. */
  function Whiteboard(sample: Pair): (board: Pair)
    ensures board == CreateWhiteboard(None, Some(Pair(Columns, Rows)), sample).value
  {
    Pair(Columns * sample.x, Rows * sample.y)
  }

  /** The fixed board is the one the class-based generators compute for a charset of 210 characters. */
  lemma WhiteboardFor210(sample: Pair)
    ensures Whiteboard(sample) == CharImages.SpriteBoard(210, sample)
  {
    NearDim210();
  }

  // ---------------------------------------------------------------------------
  // create_fontboard
  // ---------------------------------------------------------------------------

  /** The draws `randint(-3, 1)` and `randint(1, 3)` added to the x and y offsets. */
  predicate BoardJitter(j: Pair) {
    -3 <= j.x <= 1 && 1 <= j.y <= 3
  }

  /** The draws for the `k`-th character of the font file `name`. */
  ghost predicate BoardJitterOk(jitter: (string, nat) -> Pair) {
    forall name, k :: BoardJitter(jitter(name, k))
  }

  /**
   * The location of a text in its cell: per axis half of what is left of the
   * sample after the font's scalar `size` and the jittered offset, rounded down.
   */
  function CharLoc(r: Renderer, face: Face, text: string, sample: Pair, j: Pair): (loc: Pair)
    requires BoardJitter(j)
    ensures var off := r.GetOffset(face, text);
      && 2 * loc.x <= sample.x - face.size - (off.x + j.x) <= 2 * loc.x + 1
      && 2 * loc.y <= sample.y - face.size - (off.y + j.y) <= 2 * loc.y + 1
  {
    var off := r.GetOffset(face, text);
    Pair((sample.x - face.size - (off.x + j.x)) / 2, (sample.y - face.size - (off.y + j.y)) / 2)
  }

  /** On the 32 x 32 cell the draws lie within the utils version's jitter bound. */
  lemma BoardJitterWithinBound(j: Pair)
    requires BoardJitter(j)
    ensures WithinJitter(j, JitterBound(Pair(32, 32)))
  {
  }

  /**
   * The script subtracts the font's size where the utils version subtracts the
   * measured box: the two locations agree when the box is a square of the
   * font's size, and otherwise differ by half the difference, rounded.
   */
  lemma CharLocAsUtils(r: Renderer, face: Face, text: string, sample: Pair, j: Pair)
    requires BoardJitter(j) && WithinJitter(j, JitterBound(sample))
    ensures var a, b, size := CharLoc(r, face, text, sample, j), TextLocInSample(r, text, face, sample, Some(j)), r.GetSize(face, text);
      && (size == Pair(face.size, face.size) ==> a == b)
      && -1 <= 2 * (a.x - b.x) - (size.x - face.size) <= 1
      && -1 <= 2 * (a.y - b.y) - (size.y - face.size) <= 1
  {
    var off := InkOffset(r, text, face, Some(j));
    assert off == Pair(r.GetOffset(face, text).x + j.x, r.GetOffset(face, text).y + j.y);
  }

  /** The `k`-th text, at its cell's `init_pos` plus its location in the cell. */
  function BoardMark(r: Renderer, face: Face, chars: seq<string>, sample: Pair, jitter: (string, nat) -> Pair, name: string, k: nat): (m: Mark)
    requires BoardJitterOk(jitter) && k < |chars|
    ensures m.text == chars[k] && m.face == face
  {
    var loc := CharLoc(r, face, chars[k], sample, jitter(name, k));
    var cell := CellWalk(k, sample, Whiteboard(sample).x);
    Mark(chars[k], Pair(cell.x + loc.x, cell.y + loc.y), face)
  }

  /** The board of font file `name` drawn with `face`: every text of the charset, in order. */
  function Fontboard(r: Renderer, face: Face, chars: seq<string>, sample: Pair, jitter: (string, nat) -> Pair, name: string): (pic: Picture)
    requires BoardJitterOk(jitter)
    ensures pic.Canvas? && pic.size == Whiteboard(sample) && |pic.marks| == |chars|
    ensures forall k :: 0 <= k < |chars| ==> pic.marks[k] == BoardMark(r, face, chars, sample, jitter, name, k)
  {
    Canvas(Whiteboard(sample), seq(|chars|, k requires 0 <= k < |chars| => BoardMark(r, face, chars, sample, jitter, name, k)))
  }

  /**
   * The `k`-th text lands in cell `(k mod 15, k div 15)`: on the board for the
   * first 210 texts, below it for every later one.
   */
  lemma BoardMarkCell(r: Renderer, face: Face, chars: seq<string>, sample: Pair, jitter: (string, nat) -> Pair, name: string, k: nat)
    requires BoardJitterOk(jitter) && k < |chars| && sample.x > 0 && sample.y > 0
    ensures var loc, o := CharLoc(r, face, chars[k], sample, jitter(name, k)), CellOrigin(k, Columns, sample);
      && o == Pair((k % 15) * sample.x, (k / 15) * sample.y)
      && BoardMark(r, face, chars, sample, jitter, name, k).at == Pair(o.x + loc.x, o.y + loc.y)
      && (k < Columns * Rows ==> 0 <= o.x && o.x + sample.x <= Whiteboard(sample).x && 0 <= o.y && o.y + sample.y <= Whiteboard(sample).y)
      && (k >= Columns * Rows ==> o.y >= Whiteboard(sample).y)
  {
    CellWalkIsRowMajor(k, Columns, sample);
    if k < Columns * Rows {
      CellInsideBoard(k, Columns, Rows, sample);
    } else {
      CellBelowBoard(k, Columns, Rows, sample);
    }
  }

  /** Different texts of a board are in different cells. */
  lemma BoardCellsDistinct(sample: Pair, j: nat, k: nat)
    requires sample.x > 0 && sample.y > 0 && j != k
    ensures CellWalk(j, sample, Whiteboard(sample).x) != CellWalk(k, sample, Whiteboard(sample).x)
  {
    CellWalkIsRowMajor(j, Columns, sample);
    CellWalkIsRowMajor(k, Columns, sample);
    CellsDistinct(j, k, Columns, sample);
  }

  /**
   * The inner loop of `create_fontboard`: each text is drawn at `init_pos` plus
   * its location, then `init_pos` moves one cell right, or to the start of the
   * next row once the next cell would reach the board's width.
   */
  method DrawFontboard(r: Renderer, face: Face, chars: seq<string>, sample: Pair, jitter: (string, nat) -> Pair, name: string)
    returns (pic: Picture)
    requires BoardJitterOk(jitter)
    ensures pic == Fontboard(r, face, chars, sample, jitter, name)
  {
    var board := Whiteboard(sample);
    var marks: seq<Mark> := [];
    var pos := Pair(0, 0);
    var k := 0;
    while k < |chars|
      invariant 0 <= k <= |chars|
      invariant pos == CellWalk(k, sample, board.x)
      invariant |marks| == k && forall i :: 0 <= i < k ==> marks[i] == BoardMark(r, face, chars, sample, jitter, name, i)
    {
      var fo := r.GetOffset(face, chars[k]);
      var j := jitter(name, k);
      var loc := Pair((sample.x - face.size - (fo.x + j.x)) / 2, (sample.y - face.size - (fo.y + j.y)) / 2);
      marks := marks + [Mark(chars[k], Pair(pos.x + loc.x, pos.y + loc.y), face)];
      if pos.x + sample.x >= board.x {
        pos := Pair(0, pos.y + sample.y);
      } else {
        pos := Pair(pos.x + sample.x, pos.y);
      }
      k := k + 1;
    }
    pic := Canvas(board, marks);
  }

  /** The search `create_fontboard` runs for a font file: "H" against 32 x 32 with tolerance 8. */
  function BoardProbe(r: Renderer, path: string): (p: SizeProbe)
    ensures p.path == path && p.text == "H" && p.eps == BoardEps
  {
    SizeProbe(r, path, "H", CharImages.FitSize, BoardEps)
  }

  /** The font the board of `path` is drawn with, or why it is not drawn. */
  function BoardFont(r: Renderer, path: string, fuel: nat): Result<Face, Fault> {
    FontOf(path, LegacySearch(BoardProbe(r, path), StartSize, fuel))
  }

  /** `<IMAGE_DIR>/<stem>-board.png`. */
  function BoardName(stem: string): string {
    CharImages.BoardPath(ImageDir, stem)
  }

  /**
   * One pass of the font loop for `fontFile`: the stem regex must match (its
   * `.group` raises otherwise); an existing board and an OSError in the size
   * search skip the font; otherwise the board is drawn and saved.
   */
  function BoardEffect(r: Renderer, chars: seq<string>, sample: Pair, fuel: nat, jitter: (string, nat) -> Pair,
                       dirs: set<string>, files: map<string, Picture>, fontFile: string)
    : (after: (Outcome<Fault>, map<string, Picture>))
    requires BoardJitterOk(jitter)
  {
    match FileStem(fontFile)
    case None => (Raised(NoMatch), files)
    case Some(stem) =>
      var path := BoardName(stem);
      if path in files then (Done, files)
      else
        match BoardFont(r, fontFile, fuel)
        case Err(e) => if e.FontUnusable? then (Done, files) else (Raised(e), files)
        case Ok(face) =>
          match SaveFault(dirs, files.Keys, path)
          case Some(e) => (Raised(e), files)
          case None => (Done, files[path := Fontboard(r, face, chars, sample, jitter, fontFile)])
  }

  /** The font loop of `create_fontboard` over `fontset`, stopping at the first exception. */
  function Fontboards(r: Renderer, chars: seq<string>, sample: Pair, fuel: nat, jitter: (string, nat) -> Pair,
                      dirs: set<string>, files: map<string, Picture>, fontset: seq<string>)
    : (after: (Outcome<Fault>, map<string, Picture>))
    requires BoardJitterOk(jitter)
    decreases |fontset|
  {
    if fontset == [] then (Done, files)
    else
      var before := Fontboards(r, chars, sample, fuel, jitter, dirs, files, fontset[..|fontset| - 1]);
      if before.0.Raised? then before
      else BoardEffect(r, chars, sample, fuel, jitter, dirs, before.1, fontset[|fontset| - 1])
  }

  /** `Fontboards` over the first `i + 1` font files, unfolded once. */
  lemma FontboardsStep(r: Renderer, chars: seq<string>, sample: Pair, fuel: nat, jitter: (string, nat) -> Pair,
                       dirs: set<string>, files: map<string, Picture>, fontset: seq<string>, i: nat)
    requires BoardJitterOk(jitter) && i < |fontset|
    ensures var before := Fontboards(r, chars, sample, fuel, jitter, dirs, files, fontset[..i]);
      Fontboards(r, chars, sample, fuel, jitter, dirs, files, fontset[..i + 1])
        == if before.0.Raised? then before else BoardEffect(r, chars, sample, fuel, jitter, dirs, before.1, fontset[i])
  {
    assert fontset[..i + 1][..i] == fontset[..i];
  }

  lemma {:induction false} FontboardsRaisedPersists(r: Renderer, chars: seq<string>, sample: Pair, fuel: nat, jitter: (string, nat) -> Pair,
                                                    dirs: set<string>, files: map<string, Picture>, fontset: seq<string>, i: nat)
    requires BoardJitterOk(jitter) && i <= |fontset|
    requires Fontboards(r, chars, sample, fuel, jitter, dirs, files, fontset[..i]).0.Raised?
    ensures Fontboards(r, chars, sample, fuel, jitter, dirs, files, fontset)
      == Fontboards(r, chars, sample, fuel, jitter, dirs, files, fontset[..i])
    decreases |fontset|
  {
    if i < |fontset| {
      assert fontset[..|fontset| - 1][..i] == fontset[..i];
      FontboardsRaisedPersists(r, chars, sample, fuel, jitter, dirs, files, fontset[..|fontset| - 1], i);
    } else {
      assert fontset[..i] == fontset;
    }
  }

  /** The board one pass may write for `fontFile`, drawn with its searched font. */
  predicate BoardOf(r: Renderer, chars: seq<string>, sample: Pair, fuel: nat, jitter: (string, nat) -> Pair,
                    fontFile: string, p: string, pic: Picture)
    requires BoardJitterOk(jitter)
  {
    && FileStem(fontFile).Some? && p == BoardName(FileStem(fontFile).value)
    && BoardFont(r, fontFile, fuel).Ok?
    && pic == Fontboard(r, BoardFont(r, fontFile, fuel).value, chars, sample, jitter, fontFile)
  }

  /**
   * One pass keeps every file, adds at most the font's board, and when it
   * completes the stem matched and a font whose search succeeds has its board.
   */
  lemma BoardEffectFiles(r: Renderer, chars: seq<string>, sample: Pair, fuel: nat, jitter: (string, nat) -> Pair,
                         dirs: set<string>, files: map<string, Picture>, fontFile: string)
    requires BoardJitterOk(jitter)
    ensures var after := BoardEffect(r, chars, sample, fuel, jitter, dirs, files, fontFile);
      && (forall p <- files :: p in after.1 && after.1[p] == files[p])
      && (forall p <- after.1 :: p !in files ==> BoardOf(r, chars, sample, fuel, jitter, fontFile, p, after.1[p]))
      && (after.0.Done? ==> FileStem(fontFile).Some?)
      && (after.0.Done? && BoardFont(r, fontFile, fuel).Ok? ==> BoardName(FileStem(fontFile).value) in after.1)
  {
  }

  /** A file that existed before the loop, a board in particular, is never overwritten. */
  lemma {:induction false} FontboardsKeepFiles(r: Renderer, chars: seq<string>, sample: Pair, fuel: nat, jitter: (string, nat) -> Pair,
                                               dirs: set<string>, files: map<string, Picture>, fontset: seq<string>, p: string)
    requires BoardJitterOk(jitter) && p in files
    ensures var after := Fontboards(r, chars, sample, fuel, jitter, dirs, files, fontset).1;
      p in after && after[p] == files[p]
    decreases |fontset|
  {
    if fontset != [] {
      var n := |fontset| - 1;
      var before := Fontboards(r, chars, sample, fuel, jitter, dirs, files, fontset[..n]);
      FontboardsKeepFiles(r, chars, sample, fuel, jitter, dirs, files, fontset[..n], p);
      if before.0.Done? {
        BoardEffectFiles(r, chars, sample, fuel, jitter, dirs, before.1, fontset[n]);
      }
    }
  }

  /**
   * Every new file is the board of a font file of the set whose stem names it
   * and whose size search succeeded, drawn with the searched font: a font whose
   * search raised OSError adds nothing.
   */
  lemma {:induction false} FontboardsNewFiles(r: Renderer, chars: seq<string>, sample: Pair, fuel: nat, jitter: (string, nat) -> Pair,
                                              dirs: set<string>, files: map<string, Picture>, fontset: seq<string>, p: string)
    requires BoardJitterOk(jitter)
    requires p in Fontboards(r, chars, sample, fuel, jitter, dirs, files, fontset).1 && p !in files
    ensures var after := Fontboards(r, chars, sample, fuel, jitter, dirs, files, fontset).1;
      exists i :: 0 <= i < |fontset| && BoardOf(r, chars, sample, fuel, jitter, fontset[i], p, after[p])
    decreases |fontset|
  {
    var n := |fontset| - 1;
    var prefix := fontset[..n];
    var before := Fontboards(r, chars, sample, fuel, jitter, dirs, files, prefix);
    var after := Fontboards(r, chars, sample, fuel, jitter, dirs, files, fontset);
    if before.0.Done? {
      BoardEffectFiles(r, chars, sample, fuel, jitter, dirs, before.1, fontset[n]);
    }
    if p in before.1 {
      FontboardsNewFiles(r, chars, sample, fuel, jitter, dirs, files, prefix, p);
      var i :| 0 <= i < |prefix| && BoardOf(r, chars, sample, fuel, jitter, prefix[i], p, before.1[p]);
      assert prefix[i] == fontset[i];
      assert after.1[p] == before.1[p];
    } else {
      assert BoardOf(r, chars, sample, fuel, jitter, fontset[n], p, after.1[p]);
    }
  }

  /**
   * When the loop completes, every font file's stem matched, and every font
   * file whose size search succeeds has its board.
   */
  lemma {:induction false} FontboardsComplete(r: Renderer, chars: seq<string>, sample: Pair, fuel: nat, jitter: (string, nat) -> Pair,
                                              dirs: set<string>, files: map<string, Picture>, fontset: seq<string>)
    requires BoardJitterOk(jitter)
    requires Fontboards(r, chars, sample, fuel, jitter, dirs, files, fontset).0.Done?
    ensures forall f <- fontset :: FileStem(f).Some?
    ensures forall f <- fontset :: BoardFont(r, f, fuel).Ok? ==>
      BoardName(FileStem(f).value) in Fontboards(r, chars, sample, fuel, jitter, dirs, files, fontset).1
    decreases |fontset|
  {
    if fontset != [] {
      var n := |fontset| - 1;
      var prefix := fontset[..n];
      var before := Fontboards(r, chars, sample, fuel, jitter, dirs, files, prefix);
      var after := Fontboards(r, chars, sample, fuel, jitter, dirs, files, fontset);
      assert before.0.Done?;
      assert after == BoardEffect(r, chars, sample, fuel, jitter, dirs, before.1, fontset[n]);
      BoardEffectFiles(r, chars, sample, fuel, jitter, dirs, before.1, fontset[n]);
      FontboardsComplete(r, chars, sample, fuel, jitter, dirs, files, prefix);
      forall f <- fontset ensures FileStem(f).Some? && (BoardFont(r, f, fuel).Ok? ==> BoardName(FileStem(f).value) in after.1) {
        if f != fontset[n] {
          assert f in prefix;
        }
      }
    }
  }

  /**
   * `create_fontboard(charset, fontset, sample_size)`: the font files in order;
   * the jitter draws are `jitter(font_file, k)` for the `k`-th text.
   */
  method CreateFontboard(fs: FileSystem, r: Renderer, chars: seq<string>, fontset: seq<string>, sample: Pair, fuel: nat,
                         jitter: (string, nat) -> Pair)
    returns (out: Outcome<Fault>)
    requires fs.Valid() && BoardJitterOk(jitter)
    modifies fs
    ensures fs.Valid() && fs.dirs == old(fs.dirs)
    ensures (out, fs.files) == Fontboards(r, chars, sample, fuel, jitter, old(fs.dirs), old(fs.files), fontset)
  {
    ghost var files := fs.files;
    var i := 0;
    while i < |fontset|
      invariant 0 <= i <= |fontset|
      invariant fs.Valid() && fs.dirs == old(fs.dirs)
      invariant (Done, fs.files) == Fontboards(r, chars, sample, fuel, jitter, fs.dirs, files, fontset[..i])
    {
      out := CreateFontboardAt(fs, r, chars, fontset, sample, fuel, jitter, i, files);
      if out.Raised? {
        FontboardsRaisedPersists(r, chars, sample, fuel, jitter, fs.dirs, files, fontset, i + 1);
        return;
      }
      i := i + 1;
    }
    assert fontset[..i] == fontset;
    out := Done;
  }

  /** One pass of the font loop of CreateFontboard, the font files before `i` being done. */
  method CreateFontboardAt(fs: FileSystem, r: Renderer, chars: seq<string>, fontset: seq<string>, sample: Pair, fuel: nat,
                           jitter: (string, nat) -> Pair, i: nat, ghost files: map<string, Picture>)
    returns (out: Outcome<Fault>)
    requires fs.Valid() && BoardJitterOk(jitter) && i < |fontset|
    requires (Done, fs.files) == Fontboards(r, chars, sample, fuel, jitter, fs.dirs, files, fontset[..i])
    modifies fs
    ensures fs.Valid() && fs.dirs == old(fs.dirs)
    ensures (out, fs.files) == Fontboards(r, chars, sample, fuel, jitter, fs.dirs, files, fontset[..i + 1])
  {
    FontboardsStep(r, chars, sample, fuel, jitter, fs.dirs, files, fontset, i);
    var fontFile := fontset[i];
    var stem := FileStem(fontFile);
    if stem.None? {
      return Raised(NoMatch);
    }
    var boardName := BoardName(stem.value);
    if fs.IsFile(boardName) {
      return Done;
    }
    var font := EstimateFontSize(r, fontFile, "H", CharImages.FitSize, StartSize, BoardEps, fuel);
    if font.Err? {
      if font.error.FontUnusable? {
        return Done;
      }
      return Raised(font.error);
    }
    var pic := DrawFontboard(r, font.value, chars, sample, jitter, fontFile);
    out := fs.Save(boardName, pic);
  }
}
