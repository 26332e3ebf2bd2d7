/**
 * What the two `CharImageGenerator` classes share: the size search each
 * character image starts with, the per-font run of `create_and_save_charsets`
 * (which stops at the font's first failure), the `<dir>/<code point>/<font>.png`
 * naming of the images, and the sprite board one font is drawn on.
 */
module CharImages {
  import opened Wrappers
  import opened Text
  import opened Paths
  import opened Raster
  import opened Disk
  import opened Utils
  import opened Sprites

  /** The `fit_size` both generators pass to `estimate_font_size`. */
  const FitSize: Pair := Pair(32, 32)

  /** `eps=max(sample_size) // 10`. */
  function Tolerance(sample: Pair): int {
    Max(sample.x, sample.y) / 10
  }

  /** The size search of a font for one text, as the generators set it up. */
  function Probe(r: Renderer, face: Face, text: string, sample: Pair): (p: SizeProbe)
    ensures p.path == face.path
  {
    SizeProbe(r, face.path, text, FitSize, Tolerance(sample))
  }

  /**
   * How a generator records a new size in its font table: `imgen.py` replaces the
   * entry by a font instantiated at that size (only when the size changed);
   * `im_gen.py` reassigns the `size` attribute of the font object it already has.
   */
  datatype Regime = Replacing | Reassigning

  /** `<charset_dir>/<ord(char)>/<font_name>.png`. */
  function CharImagePath(dir: string, c: char, name: string): string {
    CharDir(dir, c) + "/" + name + ".png"
  }

  /** `<sprites_dir>/<font_name>-board.png`. */
  function BoardPath(dir: string, name: string): string {
    dir + "/" + name + "-board.png"
  }

  /** An image path names its character and its font: different pairs never share a file. */
  lemma CharImagePathInjective(dir: string, a: char, m: string, b: char, n: string)
    requires CharImagePath(dir, a, m) == CharImagePath(dir, b, n)
    ensures a == b && m == n
  {
    var da, db := Decimal(a as nat), Decimal(b as nat);
    assert CharImagePath(dir, a, m) == (dir + "/") + da + "/" + (m + ".png");
    assert CharImagePath(dir, b, n) == (dir + "/") + db + "/" + (n + ".png");
    DigitsThenSlash(dir + "/", da, m + ".png", db, n + ".png");
    DecimalInjective(a as nat, b as nat);
    assert m == (m + ".png")[..|m|];
    assert n == (n + ".png")[..|n|];
  }

  /** Two runs of digits, each ended by a '/' after the same prefix, are the same run. */
  lemma DigitsThenSlash(x: string, a: string, ra: string, b: string, rb: string)
    requires x + a + "/" + ra == x + b + "/" + rb
    requires forall i :: 0 <= i < |a| ==> IsDigit(a[i])
    requires forall i :: 0 <= i < |b| ==> IsDigit(b[i])
    ensures a == b && ra == rb
  {
    var p := x + a + "/" + ra;
    SlashAfterDigits(x, a, ra);
    SlashAfterDigits(x, b, rb);
    assert |a| == |b|;
    assert a == p[|x|..|x| + |a|] == b;
    assert ra == p[|x| + |a| + 1..] == rb;
  }

  /** In `x + a + "/" + r` with `a` all digits, the first '/' after `x` ends `a`. */
  lemma SlashAfterDigits(x: string, a: string, r: string)
    requires forall i :: 0 <= i < |a| ==> IsDigit(a[i])
    ensures var p := x + a + "/" + r;
      p[|x| + |a|] == '/' && forall j :: |x| <= j < |x| + |a| ==> p[j] != '/'
  {
    var p := x + a + "/" + r;
    forall j | |x| <= j < |x| + |a| ensures p[j] != '/' {
      assert p[j] == a[j - |x|];
    }
  }

  /** Different fonts get different boards. */
  lemma BoardPathInjective(dir: string, m: string, n: string)
    requires BoardPath(dir, m) == BoardPath(dir, n)
    ensures m == n
  {
    var p := BoardPath(dir, m);
    assert |m| == |n|;
    assert m == p[|dir| + 1..|dir| + 1 + |m|] == n;
  }

  /** A single-character image: a canvas of the cell's size with exactly that character drawn. */
  predicate ShowsChar(pic: Picture, c: char, sample: Pair) {
    pic.Canvas? && pic.size == sample && |pic.marks| == 1 && pic.marks[0].text == [c]
  }

  /**
   * The `randint` draws of the jitter, for the `k`-th character of a font:
   * every draw lies in `randint(-r, r)` for the cell's bound `r`.
   */
  ghost predicate JitterOk(jitter: (string, nat) -> Pair, sample: Pair) {
    forall name, k :: WithinJitter(jitter(name, k), JitterBound(sample))
  }

  /**
   * The fixed inputs of one generator run: the table regime, the render
   * primitive, the cell size and the size search's step budget.
   */
  datatype Job = Job(regime: Regime, r: Renderer, sample: Pair, fuel: nat)
  {

    /**
     * `create_char_image`'s size search for character `c` with the font `face`,
     * and the table entry it leaves: Err for the OSError it re-raises (and for a
     * search that does not settle).
     */
    function Step(face: Face, c: char): (res: Result<Face, Fault>)
      ensures res.Ok? ==> res.value.path == face.path
      ensures var est := SizeSearch(Probe(r, face, [c], sample), face, fuel);
        && (res.Ok? ==> est.Fitted? && res.value.size == est.size)
        && (est.Fitted? && (regime.Reassigning? || est.size == face.size) ==> res.Ok?)
    {
      var p := Probe(r, face, [c], sample);
      match SizeSearch(p, face, fuel)
      case Unopenable(s) => Err(FontUnusable(s))
      case Unsettled => Err(SizeSearchUnsettled)
      case Fitted(s) =>
        if regime.Reassigning? then Ok(face.(size := s))
        else if s == face.size then Ok(face)
        else
          match r.TrueType(face.path, s)
          case None => Err(FontUnusable(s))
          case Some(f) => Ok(f)
    }

    /** The font a character is drawn with: the entry as it was (imgen.py) or after the reassignment (im_gen.py). */
    function DrawFace(before: Face, after: Face): Face {
      if regime.Replacing? then before else after
    }

    /** The image of character `c` drawn with `face`, shifted by the draw `j`. */
    function CharPicture(face: Face, c: char, j: Pair): (pic: Picture)
      requires WithinJitter(j, JitterBound(sample))
      ensures ShowsChar(pic, c, sample)
    {
      var loc := TextLocInSample(r, [c], face, sample, Some(j));
      Canvas(sample, [Mark([c], loc, face)])
    }

    /**
     * The images the inner loop of `create_and_save_charsets` saves for font
     * `name` starting with table entry `face`, the first of `chars` being
     * character number `k0`: one per character until the first failure, which
     * skips the rest of the font.
     */
    function Run(jitter: (string, nat) -> Pair, name: string, face: Face, chars: seq<char>, k0: nat): (pics: seq<Picture>)
      requires JitterOk(jitter, sample)
      ensures |pics| <= |chars|
      decreases |chars|
    {
      if chars == [] then []
      else
        match Step(face, chars[0])
        case Err(_) => []
        case Ok(next) => [CharPicture(DrawFace(face, next), chars[0], jitter(name, k0))] + Run(jitter, name, next, chars[1..], k0 + 1)
    }

    /** The `i`-th image of a run shows the `i`-th character, alone, on a cell of the sample's size. */
    lemma {:induction false} RunShowsChars(jitter: (string, nat) -> Pair, name: string, face: Face, chars: seq<char>, k0: nat)
      requires JitterOk(jitter, sample)
      ensures var pics := Run(jitter, name, face, chars, k0);
        forall i :: 0 <= i < |pics| ==> ShowsChar(pics[i], chars[i], sample)
      decreases |chars|
    {
      if chars != [] && Step(face, chars[0]).Ok? {
        var next := Step(face, chars[0]).value;
        RunShowsChars(jitter, name, next, chars[1..], k0 + 1);
        var pics := Run(jitter, name, face, chars, k0);
        forall i | 0 <= i < |pics| ensures ShowsChar(pics[i], chars[i], sample) {
          if i > 0 {
            assert pics[i] == Run(jitter, name, next, chars[1..], k0 + 1)[i - 1];
          }
        }
      }
    }

    /** The table entry after that run. */
    function Final(face: Face, chars: seq<char>): Face
      decreases |chars|
    {
      if chars == [] then face
      else
        match Step(face, chars[0])
        case Err(_) => face
        case Ok(next) => Final(next, chars[1..])
    }

    /**
     * The inner loop of `create_and_save_charsets` for font `name`, from table
     * entry `face` and files `files` in a file system whose directories are
     * `dirs`, the first of `chars` being character number `k0`: each image is
     * saved in turn; a character whose image cannot be made ends the font
     * quietly, a failing save raises. The outcome, the files and the font's table
     * entry afterwards.
     */
    function FontSaved(jitter: (string, nat) -> Pair, dirs: set<string>, files: map<string, Picture>, dir: string, name: string,
                       face: Face, chars: seq<char>, k0: nat): (res: (Outcome<Fault>, map<string, Picture>, Face))
      requires JitterOk(jitter, sample)
      ensures res.2.path == face.path && files.Keys <= res.1.Keys
      decreases |chars|
    {
      if chars == [] then (Done, files, face)
      else
        match Step(face, chars[0])
        case Err(_) => (Done, files, face)
        case Ok(next) =>
          var path := CharImagePath(dir, chars[0], name);
          match SaveFault(dirs, files.Keys, path)
          case Some(e) => (Raised(e), files, next)
          case None =>
            var pic := CharPicture(DrawFace(face, next), chars[0], jitter(name, k0));
            FontSaved(jitter, dirs, files[path := pic], dir, name, next, chars[1..], k0 + 1)
    }

    /** `font.size = estimate_font_size(font, 'H', ...)` of `create_sprites`; an OSError leaves the font as it is. */
    function SpriteFace(face: Face): (f: Face)
      ensures f.path == face.path && f.loadedAt == face.loadedAt
    {
      match SizeSearch(Probe(r, face, "H", sample), face, fuel)
      case Fitted(s) => face.(size := s)
      case _ => face
    }

    /** The `k`-th character on a board `boardWidth` wide, at its cell's `init_pos` plus its location in the cell. */
    function BoardMark(jitter: (string, nat) -> Pair, name: string, face: Face, chars: seq<char>, boardWidth: int, k: nat): (m: Mark)
      requires JitterOk(jitter, sample) && k < |chars|
      ensures m.text == [chars[k]] && m.face == face
    {
      var loc := TextLocInSample(r, [chars[k]], face, sample, Some(jitter(name, k)));
      var cell := CellWalk(k, sample, boardWidth);
      Mark([chars[k]], Pair(cell.x + loc.x, cell.y + loc.y), face)
    }

    /** The sprite sheet of font `name`: every character of the charset on the board of size `board`. */
    function Board(jitter: (string, nat) -> Pair, name: string, face: Face, chars: seq<char>, board: Pair): (pic: Picture)
      requires JitterOk(jitter, sample)
      ensures pic.Canvas? && pic.size == board && |pic.marks| == |chars|
      ensures forall k :: 0 <= k < |chars| ==> pic.marks[k] == BoardMark(jitter, name, face, chars, board.x, k)
    {
      Canvas(board, seq(|chars|, k requires 0 <= k < |chars| => BoardMark(jitter, name, face, chars, board.x, k)))
    }
  }

  /**
   * The sheet of `n` characters on a board of `get_near_dim_2d(n)` cells: each
   * character's cell lies on the board, and no two share a cell.
   */
  lemma SpriteCellsOnBoard(n: nat, sample: Pair, j: nat, k: nat)
    requires sample.x > 0 && sample.y > 0 && j < n && k < n
    ensures var shape := NearDim2d(n, true);
      var o := CellWalk(k, sample, shape.x * sample.x);
      && 0 <= o.x && o.x + sample.x <= shape.x * sample.x
      && 0 <= o.y && o.y + sample.y <= shape.y * sample.y
      && (j != k ==> CellWalk(j, sample, shape.x * sample.x) != o)
  {
    var shape := NearDim2d(n, true);
    if n > 2 {
      NearDimCovers(n, true);
    }
    assert shape.x >= 1 && k < shape.x * shape.y;
    assert shape.x * sample.x == sample.x * shape.x;
    CellWalkIsRowMajor(k, shape.x, sample);
    CellWalkIsRowMajor(j, shape.x, sample);
    CellInsideBoard(k, shape.x, shape.y, sample);
    if j != k {
      CellsDistinct(j, k, shape.x, sample);
    }
  }

  /** A table entry that already fits the first character's search is kept as it is. */
  lemma StepKeepsFittingFont(job: Job, face: Face, c: char)
    requires Probe(job.r, face, [c], job.sample).Fits(face.loadedAt)
    ensures job.Step(face, c) == Ok(face)
  {
    SizeSearchKeepsFittingFont(Probe(job.r, face, [c], job.sample), face, job.fuel);
  }

  /** A run never changes the font file an entry refers to, and reassigning never re-instantiates it. */
  lemma {:induction false} RunKeepsFontFile(job: Job, face: Face, chars: seq<char>)
    ensures job.Final(face, chars).path == face.path
    ensures job.regime.Reassigning? ==> job.Final(face, chars).loadedAt == face.loadedAt
    decreases |chars|
  {
    if chars != [] {
      match job.Step(face, chars[0])
      case Err(_) =>
      case Ok(next) => RunKeepsFontFile(job, next, chars[1..]);
    }
  }

  /** The files after saving `pics`, the images of the first characters of `chars` for font `name`, in order. */
  function Written(files: map<string, Picture>, dir: string, name: string, chars: seq<char>, pics: seq<Picture>): map<string, Picture>
    requires |pics| <= |chars|
    decreases |pics|
  {
    if pics == [] then files
    else
      var k := |pics| - 1;
      Written(files, dir, name, chars, pics[..k])[CharImagePath(dir, chars[k], name) := pics[k]]
  }

  /** `Run` and `Final` from character `k` on, unfolded once. */
  lemma RunAt(job: Job, jitter: (string, nat) -> Pair, name: string, face: Face, chars: seq<char>, k: nat)
    requires JitterOk(jitter, job.sample) && k < |chars|
    ensures match job.Step(face, chars[k])
      case Err(_) => job.Run(jitter, name, face, chars[k..], k) == [] && job.Final(face, chars[k..]) == face
      case Ok(next) =>
        && job.Run(jitter, name, face, chars[k..], k)
           == [job.CharPicture(job.DrawFace(face, next), chars[k], jitter(name, k))] + job.Run(jitter, name, next, chars[k + 1..], k + 1)
        && job.Final(face, chars[k..]) == job.Final(next, chars[k + 1..])
  {
    assert chars[k..][0] == chars[k] && chars[k..][1..] == chars[k + 1..];
  }

  /**
   * The save loop's bookkeeping after character `k` of a run started at `face`
   * succeeded with table entry `cur`: one more picture, and the run goes on
   * from the next entry.
   */
  lemma RunAdvances(job: Job, jitter: (string, nat) -> Pair, name: string, face: Face, chars: seq<char>,
                    k: nat, cur: Face, pics: seq<Picture>)
    requires JitterOk(jitter, job.sample) && k < |chars| && job.Step(cur, chars[k]).Ok?
    requires job.Run(jitter, name, face, chars, 0) == pics + job.Run(jitter, name, cur, chars[k..], k)
    requires job.Final(face, chars) == job.Final(cur, chars[k..])
    ensures var next := job.Step(cur, chars[k]).value;
      var pic := job.CharPicture(job.DrawFace(cur, next), chars[k], jitter(name, k));
      && job.Run(jitter, name, face, chars, 0) == (pics + [pic]) + job.Run(jitter, name, next, chars[k + 1..], k + 1)
      && job.Final(face, chars) == job.Final(next, chars[k + 1..])
  {
    RunAt(job, jitter, name, cur, chars, k);
    var next := job.Step(cur, chars[k]).value;
    var pic := job.CharPicture(job.DrawFace(cur, next), chars[k], jitter(name, k));
    var rest := job.Run(jitter, name, next, chars[k + 1..], k + 1);
    assert pics + ([pic] + rest) == (pics + [pic]) + rest;
  }

  /** Saving one more image extends the written files by its path. */
  lemma WrittenAppend(files: map<string, Picture>, dir: string, name: string, chars: seq<char>, pics: seq<Picture>, pic: Picture)
    requires |pics| < |chars|
    ensures Written(files, dir, name, chars, pics + [pic]) == Written(files, dir, name, chars, pics)[CharImagePath(dir, chars[|pics|], name) := pic]
  {
    assert (pics + [pic])[..|pics|] == pics;
  }

  /** A path written for character `k` of font `name`. */
  predicate WrittenFor(dir: string, name: string, chars: seq<char>, n: nat, p: string) {
    exists k :: 0 <= k < n && k < |chars| && p == CharImagePath(dir, chars[k], name)
  }

  /** Character `k` does not occur again among the first `n`. */
  predicate LastOccurrence(chars: seq<char>, n: nat, k: nat) {
    forall j :: k < j < n && j < |chars| ==> chars[j] != chars[k]
  }

  /** One more image adds its path to those written. */
  lemma WrittenForStep(dir: string, name: string, chars: seq<char>, n: nat, p: string)
    requires n < |chars|
    ensures WrittenFor(dir, name, chars, n + 1, p) <==> WrittenFor(dir, name, chars, n, p) || p == CharImagePath(dir, chars[n], name)
  {
    if WrittenFor(dir, name, chars, n + 1, p) {
      var k :| 0 <= k < n + 1 && k < |chars| && p == CharImagePath(dir, chars[k], name);
      if k < n {
        assert WrittenFor(dir, name, chars, n, p);
      }
    }
  }

  /** Saving in order adds exactly the images' paths. */
  lemma {:induction false} WrittenKeys(files: map<string, Picture>, dir: string, name: string, chars: seq<char>, pics: seq<Picture>)
    requires |pics| <= |chars|
    ensures forall p :: p in Written(files, dir, name, chars, pics) <==> p in files || WrittenFor(dir, name, chars, |pics|, p)
    decreases |pics|
  {
    if pics != [] {
      var n := |pics| - 1;
      WrittenKeys(files, dir, name, chars, pics[..n]);
      forall p ensures p in Written(files, dir, name, chars, pics) <==> p in files || WrittenFor(dir, name, chars, |pics|, p) {
        WrittenForStep(dir, name, chars, n, p);
      }
    }
  }

  /** A file no image is saved to keeps its contents. */
  lemma {:induction false} WrittenKeeps(files: map<string, Picture>, dir: string, name: string, chars: seq<char>, pics: seq<Picture>, p: string)
    requires |pics| <= |chars| && p in files && !WrittenFor(dir, name, chars, |pics|, p)
    ensures p in Written(files, dir, name, chars, pics) && Written(files, dir, name, chars, pics)[p] == files[p]
    decreases |pics|
  {
    if pics != [] {
      var n := |pics| - 1;
      WrittenForStep(dir, name, chars, n, p);
      WrittenKeeps(files, dir, name, chars, pics[..n], p);
    }
  }

  /** The image kept for a character is that of its last occurrence. */
  lemma {:induction false} WrittenLast(files: map<string, Picture>, dir: string, name: string, chars: seq<char>, pics: seq<Picture>, k: nat)
    requires |pics| <= |chars| && k < |pics| && LastOccurrence(chars, |pics|, k)
    ensures CharImagePath(dir, chars[k], name) in Written(files, dir, name, chars, pics)
    ensures Written(files, dir, name, chars, pics)[CharImagePath(dir, chars[k], name)] == pics[k]
    decreases |pics|
  {
    var n := |pics| - 1;
    if k < n {
      if CharImagePath(dir, chars[k], name) == CharImagePath(dir, chars[n], name) {
        CharImagePathInjective(dir, chars[k], name, chars[n], name);
      }
      assert LastOccurrence(chars, n, k);
      WrittenLast(files, dir, name, chars, pics[..n], k);
      assert pics[..n][k] == pics[k];
    }
  }

  /** Two fonts' images never overwrite each other. */
  lemma WrittenForOtherFont(dir: string, m: string, n: string, chars: seq<char>, count: nat, p: string)
    requires m != n && WrittenFor(dir, m, chars, count, p)
    ensures forall c :: p != CharImagePath(dir, c, n)
  {
    forall c ensures p != CharImagePath(dir, c, n) {
      var k :| 0 <= k < count && k < |chars| && p == CharImagePath(dir, chars[k], m);
      if p == CharImagePath(dir, c, n) {
        CharImagePathInjective(dir, chars[k], m, c, n);
      }
    }
  }

  /** `FontSaved` from character `k` on, unfolded once. */
  lemma FontSavedAt(job: Job, jitter: (string, nat) -> Pair, dirs: set<string>, files: map<string, Picture>, dir: string, name: string,
                    face: Face, chars: seq<char>, k: nat)
    requires JitterOk(jitter, job.sample) && k < |chars|
    ensures var s := job.FontSaved(jitter, dirs, files, dir, name, face, chars[k..], k);
      var path := CharImagePath(dir, chars[k], name);
      match job.Step(face, chars[k])
      case Err(_) => s == (Done, files, face)
      case Ok(next) =>
        match SaveFault(dirs, files.Keys, path)
        case Some(e) => s == (Raised(e), files, next)
        case None =>
          s == job.FontSaved(jitter, dirs, files[path := job.CharPicture(job.DrawFace(face, next), chars[k], jitter(name, k))],
                             dir, name, next, chars[k + 1..], k + 1)
  {
    assert chars[k..][0] == chars[k] && chars[k..][1..] == chars[k + 1..];
  }

  /**
   * `FontSaved` from character `k` on, after the images `pics` of the characters
   * before `k` were saved and the entry became `cur`: when no save fails, the
   * files are those of the whole run saved in order and the entry is the run's last.
   */
  lemma {:induction false} FontSavedDoneFrom(job: Job, jitter: (string, nat) -> Pair, dirs: set<string>, files: map<string, Picture>,
                                             dir: string, name: string, face: Face, chars: seq<char>,
                                             k: nat, cur: Face, pics: seq<Picture>, now: map<string, Picture>)
    requires JitterOk(jitter, job.sample) && k <= |chars| && |pics| == k
    requires job.Run(jitter, name, face, chars, 0) == pics + job.Run(jitter, name, cur, chars[k..], k)
    requires job.Final(face, chars) == job.Final(cur, chars[k..])
    requires now == Written(files, dir, name, chars, pics)
    ensures var s := job.FontSaved(jitter, dirs, now, dir, name, cur, chars[k..], k);
      s.0.Done? ==> s.1 == Written(files, dir, name, chars, job.Run(jitter, name, face, chars, 0)) && s.2 == job.Final(face, chars)
    decreases |chars| - k
  {
    if k == |chars| {
      assert chars[k..] == [];
      assert pics + [] == pics;
    } else {
      FontSavedAt(job, jitter, dirs, now, dir, name, cur, chars, k);
      RunAt(job, jitter, name, cur, chars, k);
      match job.Step(cur, chars[k])
      case Err(_) =>
        assert pics + [] == pics;
      case Ok(next) =>
        var path := CharImagePath(dir, chars[k], name);
        if SaveFault(dirs, now.Keys, path).None? {
          var pic := job.CharPicture(job.DrawFace(cur, next), chars[k], jitter(name, k));
          RunAdvances(job, jitter, name, face, chars, k, cur, pics);
          WrittenAppend(files, dir, name, chars, pics, pic);
          FontSavedDoneFrom(job, jitter, dirs, files, dir, name, face, chars, k + 1, next, pics + [pic], now[path := pic]);
        }
    }
  }

  /**
   * A font whose saves all succeed: its files are the run's images saved in
   * order and its table entry is the run's last, as `Written` and `Final` say.
   */
  lemma FontSavedDone(job: Job, jitter: (string, nat) -> Pair, dirs: set<string>, files: map<string, Picture>,
                      dir: string, name: string, face: Face, chars: seq<char>)
    requires JitterOk(jitter, job.sample)
    ensures var s := job.FontSaved(jitter, dirs, files, dir, name, face, chars, 0);
      s.0.Done? ==> s.1 == Written(files, dir, name, chars, job.Run(jitter, name, face, chars, 0)) && s.2 == job.Final(face, chars)
  {
    assert chars[0..] == chars;
    assert [] + job.Run(jitter, name, face, chars, 0) == job.Run(jitter, name, face, chars, 0);
    FontSavedDoneFrom(job, jitter, dirs, files, dir, name, face, chars, 0, face, [], files);
  }

  /** A file that is no image path of the font keeps its contents, whatever the outcome. */
  lemma {:induction false} FontSavedKeeps(job: Job, jitter: (string, nat) -> Pair, dirs: set<string>, files: map<string, Picture>,
                                          dir: string, name: string, face: Face, chars: seq<char>, k0: nat, p: string)
    requires JitterOk(jitter, job.sample) && p in files && forall c :: p != CharImagePath(dir, c, name)
    ensures var s := job.FontSaved(jitter, dirs, files, dir, name, face, chars, k0);
      p in s.1 && s.1[p] == files[p]
    decreases |chars|
  {
    if chars != [] {
      match job.Step(face, chars[0])
      case Err(_) =>
      case Ok(next) =>
        var path := CharImagePath(dir, chars[0], name);
        if SaveFault(dirs, files.Keys, path).None? {
          var pic := job.CharPicture(job.DrawFace(face, next), chars[0], jitter(name, k0));
          FontSavedKeeps(job, jitter, dirs, files[path := pic], dir, name, next, chars[1..], k0 + 1, p);
        }
    }
  }

  /**
   * The first failing save is that of an image of the font: its fault is the
   * save fault of one of the font's image paths, in the files as they were then.
   */
  lemma {:induction false} FontSavedRaised(job: Job, jitter: (string, nat) -> Pair, dirs: set<string>, files: map<string, Picture>,
                                           dir: string, name: string, face: Face, chars: seq<char>, k0: nat)
    requires JitterOk(jitter, job.sample)
    requires job.FontSaved(jitter, dirs, files, dir, name, face, chars, k0).0.Raised?
    ensures var s := job.FontSaved(jitter, dirs, files, dir, name, face, chars, k0);
      exists c <- chars :: SaveFault(dirs, s.1.Keys, CharImagePath(dir, c, name)) == Some(s.0.error)
    decreases |chars|
  {
    var s := job.FontSaved(jitter, dirs, files, dir, name, face, chars, k0);
    var next := job.Step(face, chars[0]).value;
    var path := CharImagePath(dir, chars[0], name);
    if SaveFault(dirs, files.Keys, path).None? {
      var pic := job.CharPicture(job.DrawFace(face, next), chars[0], jitter(name, k0));
      FontSavedRaised(job, jitter, dirs, files[path := pic], dir, name, next, chars[1..], k0 + 1);
      var c :| c in chars[1..] && SaveFault(dirs, s.1.Keys, CharImagePath(dir, c, name)) == Some(s.0.error);
      assert c in chars;
    } else {
      assert chars[0] in chars;
    }
  }

  /** An image lives directly in its character's directory when the font name holds no '/'. */
  lemma CharImagePathParent(dir: string, c: char, name: string)
    requires '/' !in name
    ensures var p := CharImagePath(dir, c, name);
      Parent(p) == CharDir(dir, c) && Norm(p) == p
  {
    var d := CharDir(dir, c);
    var tail := name + ".png";
    var p := CharImagePath(dir, c, name);
    assert p == d + "/" + tail;
    forall j | |d| < j < |p| ensures p[j] != '/' {
      assert p[j] == tail[j - |d| - 1];
      if j - |d| - 1 < |name| {
        assert tail[j - |d| - 1] == name[j - |d| - 1];
      }
    }
    LastIndexUnique(p, '/', |d|);
    assert p[..|d|] == d;
    assert p[|p| - 1] == 'g';
  }

  /** Saving an image succeeds when its character's directory exists and no directory holds its name. */
  lemma CharImageSaves(dirs: set<string>, files: set<string>, dir: string, c: char, name: string)
    requires '/' !in name && IsDirIn(dirs, CharDir(dir, c)) && CharImagePath(dir, c, name) !in dirs
    ensures SaveFault(dirs, files, CharImagePath(dir, c, name)) == None
  {
    CharImagePathParent(dir, c, name);
  }

  /**
   * The character directories exist and no image path is taken by a
   * directory: then every save of the font succeeds.
   */
  lemma {:induction false} FontSavedSucceeds(job: Job, jitter: (string, nat) -> Pair, dirs: set<string>, files: map<string, Picture>,
                                             dir: string, name: string, face: Face, chars: seq<char>, k0: nat)
    requires JitterOk(jitter, job.sample) && '/' !in name
    requires forall c <- chars :: IsDirIn(dirs, CharDir(dir, c)) && CharImagePath(dir, c, name) !in dirs
    ensures job.FontSaved(jitter, dirs, files, dir, name, face, chars, k0).0.Done?
    decreases |chars|
  {
    if chars != [] {
      match job.Step(face, chars[0])
      case Err(_) =>
      case Ok(next) =>
        var path := CharImagePath(dir, chars[0], name);
        CharImageSaves(dirs, files.Keys, dir, chars[0], name);
        var pic := job.CharPicture(job.DrawFace(face, next), chars[0], jitter(name, k0));
        FontSavedSucceeds(job, jitter, dirs, files[path := pic], dir, name, next, chars[1..], k0 + 1);
    }
  }

  /** The names of `order` are pairwise different, as the keys of a dict are. */
  predicate Distinct(order: seq<string>) {
    forall i, j :: 0 <= i < j < |order| ==> order[i] != order[j]
  }

  /** `order` is the iteration order of the dict `table`: each key exactly once. */
  predicate IsKeyOrder(order: seq<string>, table: map<string, Face>) {
    Distinct(order) && (forall n <- order :: n in table) && (forall n <- table :: n in order)
  }

  /**
   * The font loop of `create_and_save_charsets` over the fonts of `order`, in a
   * file system whose directories are `dirs`: each font's images are saved as
   * `FontSaved` says, starting from its table entry as the earlier fonts left
   * it; the first failing save ends the loop with its exception. The outcome,
   * the files and the font table afterwards.
   */
  function CharsetsSaved(job: Job, jitter: (string, nat) -> Pair, dirs: set<string>, files: map<string, Picture>,
                         table: map<string, Face>, dir: string, chars: seq<char>, order: seq<string>)
    : (after: (Outcome<Fault>, map<string, Picture>, map<string, Face>))
    requires JitterOk(jitter, job.sample) && forall n <- order :: n in table
    ensures after.2.Keys == table.Keys && files.Keys <= after.1.Keys
    decreases |order|
  {
    if order == [] then (Done, files, table)
    else
      var before := CharsetsSaved(job, jitter, dirs, files, table, dir, chars, order[..|order| - 1]);
      var name := order[|order| - 1];
      if before.0.Raised? then before
      else
        var s := job.FontSaved(jitter, dirs, before.1, dir, name, before.2[name], chars, 0);
        (s.0, s.1, before.2[name := s.2])
  }

  lemma CharsetsSavedStep(job: Job, jitter: (string, nat) -> Pair, dirs: set<string>, files: map<string, Picture>,
                          table: map<string, Face>, dir: string, chars: seq<char>, order: seq<string>, i: nat)
    requires JitterOk(jitter, job.sample) && (forall n <- order :: n in table) && i < |order|
    ensures var before := CharsetsSaved(job, jitter, dirs, files, table, dir, chars, order[..i]);
      var name := order[i];
      var s := job.FontSaved(jitter, dirs, before.1, dir, name, before.2[name], chars, 0);
      CharsetsSaved(job, jitter, dirs, files, table, dir, chars, order[..i + 1])
        == if before.0.Raised? then before else (s.0, s.1, before.2[name := s.2])
  {
    assert order[..i + 1][..i] == order[..i];
  }

  /** A failed save ends the loop: the later fonts change nothing. */
  lemma {:induction false} CharsetsSavedRaisedPersists(job: Job, jitter: (string, nat) -> Pair, dirs: set<string>, files: map<string, Picture>,
                                                       table: map<string, Face>, dir: string, chars: seq<char>, order: seq<string>, i: nat)
    requires JitterOk(jitter, job.sample) && (forall n <- order :: n in table) && i <= |order|
    requires CharsetsSaved(job, jitter, dirs, files, table, dir, chars, order[..i]).0.Raised?
    ensures CharsetsSaved(job, jitter, dirs, files, table, dir, chars, order)
         == CharsetsSaved(job, jitter, dirs, files, table, dir, chars, order[..i])
    decreases |order|
  {
    if i < |order| {
      assert order[..|order| - 1][..i] == order[..i];
      CharsetsSavedRaisedPersists(job, jitter, dirs, files, table, dir, chars, order[..|order| - 1], i);
    } else {
      assert order[..i] == order;
    }
  }

  /** A completed loop completed every prefix of it. */
  lemma {:induction false} CharsetsSavedDoneBefore(job: Job, jitter: (string, nat) -> Pair, dirs: set<string>, files: map<string, Picture>,
                                                   table: map<string, Face>, dir: string, chars: seq<char>, order: seq<string>, i: nat)
    requires JitterOk(jitter, job.sample) && (forall n <- order :: n in table) && i <= |order|
    requires CharsetsSaved(job, jitter, dirs, files, table, dir, chars, order).0.Done?
    ensures CharsetsSaved(job, jitter, dirs, files, table, dir, chars, order[..i]).0.Done?
    decreases |order|
  {
    if i < |order| {
      assert order[..|order| - 1][..i] == order[..i];
      CharsetsSavedDoneBefore(job, jitter, dirs, files, table, dir, chars, order[..|order| - 1], i);
    } else {
      assert order[..i] == order;
    }
  }

  /**
   * With every character directory in place, font names free of '/' and no
   * directory in the way of an image, the whole loop completes.
   */
  lemma {:induction false} CharsetsSavedSucceeds(job: Job, jitter: (string, nat) -> Pair, dirs: set<string>, files: map<string, Picture>,
                                                 table: map<string, Face>, dir: string, chars: seq<char>, order: seq<string>)
    requires JitterOk(jitter, job.sample) && forall n <- order :: n in table && '/' !in n
    requires forall c <- chars :: IsDirIn(dirs, CharDir(dir, c))
    requires forall c, n :: n in order ==> CharImagePath(dir, c, n) !in dirs
    ensures CharsetsSaved(job, jitter, dirs, files, table, dir, chars, order).0.Done?
    decreases |order|
  {
    if order != [] {
      var prefix := order[..|order| - 1];
      CharsetsSavedSucceeds(job, jitter, dirs, files, table, dir, chars, prefix);
      var before := CharsetsSaved(job, jitter, dirs, files, table, dir, chars, prefix);
      var name := order[|order| - 1];
      FontSavedSucceeds(job, jitter, dirs, before.1, dir, name, before.2[name], chars, 0);
    }
  }

  /** A font outside `order` keeps its table entry. */
  lemma {:induction false} CharsetsSavedKeepsOtherFonts(job: Job, jitter: (string, nat) -> Pair, dirs: set<string>, files: map<string, Picture>,
                                                        table: map<string, Face>, dir: string, chars: seq<char>, order: seq<string>, name: string)
    requires JitterOk(jitter, job.sample) && (forall n <- order :: n in table) && name in table && name !in order
    ensures CharsetsSaved(job, jitter, dirs, files, table, dir, chars, order).2[name] == table[name]
    decreases |order|
  {
    if order != [] {
      CharsetsSavedKeepsOtherFonts(job, jitter, dirs, files, table, dir, chars, order[..|order| - 1], name);
    }
  }

  /** A file that is no font's image of any character keeps its contents, whatever the outcome. */
  lemma {:induction false} CharsetsSavedKeepsOtherFiles(job: Job, jitter: (string, nat) -> Pair, dirs: set<string>, files: map<string, Picture>,
                                                        table: map<string, Face>, dir: string, chars: seq<char>, order: seq<string>, p: string)
    requires JitterOk(jitter, job.sample) && (forall n <- order :: n in table) && p in files
    requires forall c, n :: n in order ==> p != CharImagePath(dir, c, n)
    ensures var after := CharsetsSaved(job, jitter, dirs, files, table, dir, chars, order).1;
      p in after && after[p] == files[p]
    decreases |order|
  {
    if order != [] {
      var prefix := order[..|order| - 1];
      CharsetsSavedKeepsOtherFiles(job, jitter, dirs, files, table, dir, chars, prefix, p);
      var before := CharsetsSaved(job, jitter, dirs, files, table, dir, chars, prefix);
      var name := order[|order| - 1];
      if before.0.Done? {
        FontSavedKeeps(job, jitter, dirs, before.1, dir, name, before.2[name], chars, 0, p);
      }
    }
  }

  /**
   * Fonts do not overwrite each other: with distinct font names, when no save
   * fails, the image the run of font `m` saved for the last occurrence of a
   * character is still there after all fonts have run.
   */
  lemma {:induction false} CharsetsSavedFontImage(job: Job, jitter: (string, nat) -> Pair, dirs: set<string>, files: map<string, Picture>,
                                                  table: map<string, Face>, dir: string, chars: seq<char>, order: seq<string>,
                                                  i: nat, k: nat)
    requires JitterOk(jitter, job.sample) && (forall n <- order :: n in table) && Distinct(order) && i < |order|
    requires CharsetsSaved(job, jitter, dirs, files, table, dir, chars, order).0.Done?
    requires var pics := job.Run(jitter, order[i], table[order[i]], chars, 0);
      k < |pics| && LastOccurrence(chars, |pics|, k)
    ensures var after, pics := CharsetsSaved(job, jitter, dirs, files, table, dir, chars, order).1, job.Run(jitter, order[i], table[order[i]], chars, 0);
      var p := CharImagePath(dir, chars[k], order[i]);
      p in after && after[p] == pics[k]
    decreases |order|, 1
  {
    var last := |order| - 1;
    var before := CharsetsSaved(job, jitter, dirs, files, table, dir, chars, order[..last]);
    var m := order[last];
    CharsetsSavedStep(job, jitter, dirs, files, table, dir, chars, order, last);
    assert order[..last + 1] == order;
    FontSavedDone(job, jitter, dirs, before.1, dir, m, before.2[m], chars);
    if i == last {
      assert m !in order[..last];
      CharsetsSavedKeepsOtherFonts(job, jitter, dirs, files, table, dir, chars, order[..last], m);
      WrittenLast(before.1, dir, m, chars, job.Run(jitter, m, table[m], chars, 0), k);
    } else {
      CharsetsSavedFontImageBefore(job, jitter, dirs, files, table, dir, chars, order, i, k);
    }
  }

  /** CharsetsSavedFontImage for a font before the last one: the last font's run leaves its image alone. */
  lemma {:induction false} CharsetsSavedFontImageBefore(job: Job, jitter: (string, nat) -> Pair, dirs: set<string>, files: map<string, Picture>,
                                                        table: map<string, Face>, dir: string, chars: seq<char>, order: seq<string>,
                                                        i: nat, k: nat)
    requires JitterOk(jitter, job.sample) && (forall n <- order :: n in table) && Distinct(order) && i < |order| - 1
    requires var before := CharsetsSaved(job, jitter, dirs, files, table, dir, chars, order[..|order| - 1]);
      var name := order[|order| - 1];
      before.0.Done? && job.FontSaved(jitter, dirs, before.1, dir, name, before.2[name], chars, 0).0.Done?
    requires var pics := job.Run(jitter, order[i], table[order[i]], chars, 0);
      k < |pics| && LastOccurrence(chars, |pics|, k)
    ensures var before := CharsetsSaved(job, jitter, dirs, files, table, dir, chars, order[..|order| - 1]);
      var name := order[|order| - 1];
      var after := job.FontSaved(jitter, dirs, before.1, dir, name, before.2[name], chars, 0).1;
      var p := CharImagePath(dir, chars[k], order[i]);
      p in after && after[p] == job.Run(jitter, order[i], table[order[i]], chars, 0)[k]
    decreases |order|, 0
  {
    var m := order[i];
    var p := CharImagePath(dir, chars[k], m);
    var last := |order| - 1;
    var prefix := order[..last];
    var before := CharsetsSaved(job, jitter, dirs, files, table, dir, chars, prefix);
    var name := order[last];
    assert prefix[i] == m;
    CharsetsSavedFontImage(job, jitter, dirs, files, table, dir, chars, prefix, i, k);
    var pics := job.Run(jitter, name, before.2[name], chars, 0);
    FontSavedDone(job, jitter, dirs, before.1, dir, name, before.2[name], chars);
    assert !WrittenFor(dir, name, chars, |pics|, p) by {
      if WrittenFor(dir, name, chars, |pics|, p) {
        WrittenForOtherFont(dir, name, m, chars, |pics|, p);
      }
    }
    WrittenKeeps(before.1, dir, name, chars, pics, p);
  }

  /**
   * The font loop of `create_sprites` over the fonts of `order`, in a file system
   * whose directories are `dirs`: a font whose board file exists is skipped;
   * otherwise its size is searched for "H" (the search's result becomes the
   * `size` of the font object in the table), its sheet drawn and saved. The
   * first failing save ends the loop with its exception.
   */
  function SpriteSheets(job: Job, jitter: (string, nat) -> Pair, dirs: set<string>, files: map<string, Picture>,
                        table: map<string, Face>, dir: string, chars: seq<char>, board: Pair, order: seq<string>)
    : (after: (Outcome<Fault>, map<string, Picture>, map<string, Face>))
    requires JitterOk(jitter, job.sample) && forall n <- order :: n in table
    ensures after.2.Keys == table.Keys
    decreases |order|
  {
    if order == [] then (Done, files, table)
    else
      var before := SpriteSheets(job, jitter, dirs, files, table, dir, chars, board, order[..|order| - 1]);
      var name := order[|order| - 1];
      var path := BoardPath(dir, name);
      if before.0.Raised? || path in before.1 then before
      else
        var face := job.SpriteFace(before.2[name]);
        var sized := before.2[name := face];
        match SaveFault(dirs, before.1.Keys, path)
        case Some(e) => (Raised(e), before.1, sized)
        case None => (Done, before.1[path := job.Board(jitter, name, face, chars, board)], sized)
  }

  lemma SpriteSheetsStep(job: Job, jitter: (string, nat) -> Pair, dirs: set<string>, files: map<string, Picture>,
                         table: map<string, Face>, dir: string, chars: seq<char>, board: Pair, order: seq<string>, i: nat)
    requires JitterOk(jitter, job.sample) && (forall n <- order :: n in table) && i < |order|
    ensures var before := SpriteSheets(job, jitter, dirs, files, table, dir, chars, board, order[..i]);
      var name := order[i];
      var path := BoardPath(dir, name);
      var face := job.SpriteFace(before.2[name]);
      SpriteSheets(job, jitter, dirs, files, table, dir, chars, board, order[..i + 1])
        == if before.0.Raised? || path in before.1 then before
           else match SaveFault(dirs, before.1.Keys, path)
             case Some(e) => (Raised(e), before.1, before.2[name := face])
             case None => (Done, before.1[path := job.Board(jitter, name, face, chars, board)], before.2[name := face])
  {
    assert order[..i + 1][..i] == order[..i];
  }

  /** Once a save fails the loop is over: a completed loop had no failure on the way. */
  lemma {:induction false} SpriteSheetsDoneBefore(job: Job, jitter: (string, nat) -> Pair, dirs: set<string>, files: map<string, Picture>,
                                                  table: map<string, Face>, dir: string, chars: seq<char>, board: Pair, order: seq<string>, i: nat)
    requires JitterOk(jitter, job.sample) && (forall n <- order :: n in table) && i <= |order|
    requires SpriteSheets(job, jitter, dirs, files, table, dir, chars, board, order).0.Done?
    ensures SpriteSheets(job, jitter, dirs, files, table, dir, chars, board, order[..i]).0.Done?
    decreases |order|
  {
    if i < |order| {
      assert order[..|order| - 1][..i] == order[..i];
      SpriteSheetsDoneBefore(job, jitter, dirs, files, table, dir, chars, board, order[..|order| - 1], i);
    } else {
      assert order[..i] == order;
    }
  }

  /** A failed save ends the loop: the later fonts change nothing. */
  lemma {:induction false} SpriteSheetsRaisedPersists(job: Job, jitter: (string, nat) -> Pair, dirs: set<string>, files: map<string, Picture>,
                                                      table: map<string, Face>, dir: string, chars: seq<char>, board: Pair, order: seq<string>, i: nat)
    requires JitterOk(jitter, job.sample) && (forall n <- order :: n in table) && i <= |order|
    requires SpriteSheets(job, jitter, dirs, files, table, dir, chars, board, order[..i]).0.Raised?
    ensures SpriteSheets(job, jitter, dirs, files, table, dir, chars, board, order)
      == SpriteSheets(job, jitter, dirs, files, table, dir, chars, board, order[..i])
    decreases |order|
  {
    if i < |order| {
      assert order[..|order| - 1][..i] == order[..i];
      SpriteSheetsRaisedPersists(job, jitter, dirs, files, table, dir, chars, board, order[..|order| - 1], i);
    } else {
      assert order[..i] == order;
    }
  }

  /** `create_sprites` never overwrites a file: existing boards are skipped. */
  lemma {:induction false} SpriteSheetsKeepFiles(job: Job, jitter: (string, nat) -> Pair, dirs: set<string>, files: map<string, Picture>,
                                                 table: map<string, Face>, dir: string, chars: seq<char>, board: Pair, order: seq<string>, p: string)
    requires JitterOk(jitter, job.sample) && (forall n <- order :: n in table) && p in files
    ensures var after := SpriteSheets(job, jitter, dirs, files, table, dir, chars, board, order).1;
      p in after && after[p] == files[p]
    decreases |order|
  {
    if order != [] {
      SpriteSheetsKeepFiles(job, jitter, dirs, files, table, dir, chars, board, order[..|order| - 1], p);
    }
  }

  /** The only new files are boards of fonts in `order`. */
  lemma {:induction false} SpriteSheetsNewFiles(job: Job, jitter: (string, nat) -> Pair, dirs: set<string>, files: map<string, Picture>,
                                                table: map<string, Face>, dir: string, chars: seq<char>, board: Pair, order: seq<string>, p: string)
    requires JitterOk(jitter, job.sample) && (forall n <- order :: n in table)
    requires p in SpriteSheets(job, jitter, dirs, files, table, dir, chars, board, order).1 && p !in files
    ensures exists n <- order :: p == BoardPath(dir, n)
    decreases |order|
  {
    var prefix := order[..|order| - 1];
    var name := order[|order| - 1];
    if p in SpriteSheets(job, jitter, dirs, files, table, dir, chars, board, prefix).1 {
      SpriteSheetsNewFiles(job, jitter, dirs, files, table, dir, chars, board, prefix, p);
      var n :| n in prefix && p == BoardPath(dir, n);
      assert n in order;
    } else {
      assert p == BoardPath(dir, name);
    }
  }

  /** When the loop completes, every font of `order` has its board. */
  lemma {:induction false} SpriteSheetsComplete(job: Job, jitter: (string, nat) -> Pair, dirs: set<string>, files: map<string, Picture>,
                                                table: map<string, Face>, dir: string, chars: seq<char>, board: Pair, order: seq<string>)
    requires JitterOk(jitter, job.sample) && forall n <- order :: n in table
    requires SpriteSheets(job, jitter, dirs, files, table, dir, chars, board, order).0.Done?
    ensures forall n <- order :: BoardPath(dir, n) in SpriteSheets(job, jitter, dirs, files, table, dir, chars, board, order).1
    decreases |order|
  {
    if order != [] {
      var prefix := order[..|order| - 1];
      SpriteSheetsDoneBefore(job, jitter, dirs, files, table, dir, chars, board, order, |order| - 1);
      SpriteSheetsComplete(job, jitter, dirs, files, table, dir, chars, board, prefix);
      var before := SpriteSheets(job, jitter, dirs, files, table, dir, chars, board, prefix);
      var after := SpriteSheets(job, jitter, dirs, files, table, dir, chars, board, order);
      SpriteSheetsStep(job, jitter, dirs, files, table, dir, chars, board, order, |order| - 1);
      assert order[..|order|] == order;
      assert BoardPath(dir, order[|order| - 1]) in after.1 && before.1.Keys <= after.1.Keys;
      forall n <- order ensures BoardPath(dir, n) in after.1 {
        if n != order[|order| - 1] {
          assert n in prefix;
        }
      }
    }
  }

  /** A font outside `order` keeps its table entry. */
  lemma {:induction false} SpriteSheetsKeepOtherFonts(job: Job, jitter: (string, nat) -> Pair, dirs: set<string>, files: map<string, Picture>,
                                                      table: map<string, Face>, dir: string, chars: seq<char>, board: Pair, order: seq<string>, name: string)
    requires JitterOk(jitter, job.sample) && (forall n <- order :: n in table) && name in table && name !in order
    ensures SpriteSheets(job, jitter, dirs, files, table, dir, chars, board, order).2[name] == table[name]
    decreases |order|
  {
    if order != [] {
      SpriteSheetsKeepOtherFonts(job, jitter, dirs, files, table, dir, chars, board, order[..|order| - 1], name);
    }
  }

  /**
   * With distinct font names, a font whose board did not exist gets, when the
   * loop completes, the sheet drawn with its table entry resized for "H".
   */
  lemma {:induction false} SpriteSheetsBoard(job: Job, jitter: (string, nat) -> Pair, dirs: set<string>, files: map<string, Picture>,
                                             table: map<string, Face>, dir: string, chars: seq<char>, board: Pair, order: seq<string>, i: nat)
    requires JitterOk(jitter, job.sample) && (forall n <- order :: n in table) && Distinct(order) && i < |order|
    requires BoardPath(dir, order[i]) !in files
    requires SpriteSheets(job, jitter, dirs, files, table, dir, chars, board, order).0.Done?
    ensures var after, m := SpriteSheets(job, jitter, dirs, files, table, dir, chars, board, order).1, order[i];
      BoardPath(dir, m) in after && after[BoardPath(dir, m)] == job.Board(jitter, m, job.SpriteFace(table[m]), chars, board)
    decreases |order|, 1
  {
    var m := order[i];
    var last := |order| - 1;
    var prefix := order[..last];
    SpriteSheetsDoneBefore(job, jitter, dirs, files, table, dir, chars, board, order, last);
    SpriteSheetsStep(job, jitter, dirs, files, table, dir, chars, board, order, last);
    assert order[..last + 1] == order;
    if i == last {
      assert m !in prefix;
      SpriteSheetsKeepOtherFonts(job, jitter, dirs, files, table, dir, chars, board, prefix, m);
      if BoardPath(dir, m) in SpriteSheets(job, jitter, dirs, files, table, dir, chars, board, prefix).1 {
        SpriteSheetsNewFiles(job, jitter, dirs, files, table, dir, chars, board, prefix, BoardPath(dir, m));
        var n :| n in prefix && BoardPath(dir, m) == BoardPath(dir, n);
        BoardPathInjective(dir, m, n);
      }
    } else {
      SpriteSheetsBoardBefore(job, jitter, dirs, files, table, dir, chars, board, order, i);
    }
  }

  /** SpriteSheetsBoard for a font before the last one: its board was saved before, under another name than the last font's. */
  lemma {:induction false} SpriteSheetsBoardBefore(job: Job, jitter: (string, nat) -> Pair, dirs: set<string>, files: map<string, Picture>,
                                                   table: map<string, Face>, dir: string, chars: seq<char>, board: Pair, order: seq<string>, i: nat)
    requires JitterOk(jitter, job.sample) && (forall n <- order :: n in table) && Distinct(order) && i < |order| - 1
    requires BoardPath(dir, order[i]) !in files
    requires SpriteSheets(job, jitter, dirs, files, table, dir, chars, board, order[..|order| - 1]).0.Done?
    ensures var before, m := SpriteSheets(job, jitter, dirs, files, table, dir, chars, board, order[..|order| - 1]).1, order[i];
      && BoardPath(dir, m) in before && before[BoardPath(dir, m)] == job.Board(jitter, m, job.SpriteFace(table[m]), chars, board)
      && BoardPath(dir, m) != BoardPath(dir, order[|order| - 1])
    decreases |order|, 0
  {
    var m := order[i];
    var prefix := order[..|order| - 1];
    assert prefix[i] == m;
    SpriteSheetsBoard(job, jitter, dirs, files, table, dir, chars, board, prefix, i);
    if BoardPath(dir, m) == BoardPath(dir, order[|order| - 1]) {
      BoardPathInjective(dir, m, order[|order| - 1]);
      assert false;
    }
  }

  /**
   * The drawing loop of `create_sprites`: every character at `init_pos` plus
   * its location in the cell, `init_pos` moving one cell on after each.
   */
  method DrawBoard(job: Job, jitter: (string, nat) -> Pair, name: string, face: Face, chars: seq<char>, boardWidth: int)
    returns (marks: seq<Mark>)
    requires JitterOk(jitter, job.sample)
    ensures |marks| == |chars|
    ensures forall k :: 0 <= k < |chars| ==> marks[k] == job.BoardMark(jitter, name, face, chars, boardWidth, k)
  {
    marks := [];
    var pos := Pair(0, 0);
    var k := 0;
    while k < |chars|
      invariant 0 <= k <= |chars| && |marks| == k
      invariant pos == CellWalk(k, job.sample, boardWidth)
      invariant forall i :: 0 <= i < k ==> marks[i] == job.BoardMark(jitter, name, face, chars, boardWidth, i)
    {
      var c := chars[k];
      var loc := TextLocInSample(job.r, [c], face, job.sample, Some(jitter(name, k)));
      marks := marks + [Mark([c], Pair(pos.x + loc.x, pos.y + loc.y), face)];
      pos := NextCell(pos, job.sample, boardWidth);
      k := k + 1;
    }
  }

  /**
   * One font of `create_sprites`' loop, once its board is known to be missing:
   * `font.size` becomes the size searched for "H" (kept as it is when the
   * search raises), the sheet is drawn on a copy of the board with that font
   * object, and saved.
   */
  method SaveSpriteSheet(fs: FileSystem, job: Job, jitter: (string, nat) -> Pair, dir: string, name: string, face: Face,
                         chars: seq<char>, board: Pair)
    returns (sized: Face, out: Outcome<Fault>)
    requires fs.Valid() && JitterOk(jitter, job.sample)
    modifies fs
    ensures sized == job.SpriteFace(face)
    ensures fs.Valid() && fs.dirs == old(fs.dirs)
    ensures out == AsOutcome(SaveFault(old(fs.dirs), old(fs.files.Keys), BoardPath(dir, name)))
    ensures fs.files == if out.Done? then old(fs.files)[BoardPath(dir, name) := job.Board(jitter, name, sized, chars, board)] else old(fs.files)
  {
    var est := EstimateFontSize(Probe(job.r, face, "H", job.sample), face, job.fuel);
    sized := if est.Fitted? then face.(size := est.size) else face;
    var marks := DrawBoard(job, jitter, name, sized, chars, board.x);
    assert Canvas(board, marks) == job.Board(jitter, name, sized, chars, board);
    out := fs.Save(BoardPath(dir, name), Canvas(board, marks));
  }

  /** The board of `create_sprites` for `n` characters: `get_near_dim_2d(n)` cells of the sample's size. */
  function SpriteBoard(n: nat, sample: Pair): (board: Pair)
    ensures board == CreateWhiteboard(None, Some(NearDim2d(n, true)), sample).value
  {
    var shape := NearDim2d(n, true);
    Pair(shape.x * sample.x, shape.y * sample.y)
  }

  /** A second update of the same key overrides the first. */
  lemma UpdateTwice<K, V>(m: map<K, V>, key: K, a: V, b: V)
    ensures m[key := a][key := b] == m[key := b]
  {
  }
}
