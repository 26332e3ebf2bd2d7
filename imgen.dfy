/**
 * `CharImageGenerator` of `src/generator/imgen.py`: loads a charset and a font
 * table, lays out a Keras-style `<out_dir>/charset/<code point>/` tree, saves one
 * image per character and font into it, and draws one sprite sheet per font.
 */
module Imgen {
  import opened Wrappers
  import opened Text
  import opened Paths
  import opened Raster
  import opened Disk
  import opened Utils
  import opened Sprites
  import opened FontSet
  import opened CharImages

  /** `default_out_dir`. */
  const DefaultOutDir: string := "dataset"

  /** The directories `create_charset_dir` creates for the characters: one per character not blocked by a file. */
  function CharDirsMade(files: set<string>, dirPath: string, chars: seq<char>): set<string>
    decreases |chars|
  {
    if chars == [] then {}
    else
      var d := CharDir(dirPath, chars[|chars| - 1]);
      CharDirsMade(files, dirPath, chars[..|chars| - 1]) + (if d in files then {} else {d})
  }

  lemma CharDirsMadeStep(files: set<string>, dirPath: string, cs: seq<char>, k: nat)
    requires k < |cs|
    ensures CharDirsMade(files, dirPath, cs[..k + 1]) ==
      CharDirsMade(files, dirPath, cs[..k]) + (if CharDir(dirPath, cs[k]) in files then {} else {CharDir(dirPath, cs[k])})
  {
    assert cs[..k + 1][..k] == cs[..k];
  }

  /**
   * `create_charset_dir` on a file system with directories `dirs` and files
   * `files`: what it returns (or raises) and the directories afterwards. The
   * target is created with its parents when missing; None as the charset
   * raises after that; a character directory that exists is skipped.
   */
  function CharsetDirEffect(dirs: set<string>, files: set<string>, dirPath: string, chars: Option<seq<char>>, createParentDir: bool)
    : (effect: (Result<string, Fault>, set<string>))
    ensures dirs <= effect.1
    ensures effect.0.Ok? ==> chars.Some? && effect.0.value == dirPath && IsDirIn(effect.1, dirPath)
  {
    if !IsDirIn(dirs, dirPath) && MakeDirsFault(dirs, files, dirPath, createParentDir).Some? then
      (Err(MakeDirsFault(dirs, files, dirPath, createParentDir).value), dirs)
    else
      var made := MakeDirsResult(dirs, dirPath);
      assert IsDirIn(made, dirPath) by {
        if !IsDirIn(dirs, dirPath) {
          assert Norm(dirPath) in DirChain(Norm(dirPath)) by {
            NormIdempotent(dirPath);
          }
        }
      }
      match chars
      case None => (Err(NoneValue), made)
      case Some(cs) => (Ok(dirPath), made + CharDirsMade(files, dirPath, cs))
  }

  /** The character loop makes the directory of every character not blocked by a file, and nothing else. */
  lemma {:induction false} CharDirsMadeMembers(files: set<string>, dirPath: string, chars: seq<char>)
    ensures forall c <- chars :: CharDir(dirPath, c) in files || CharDir(dirPath, c) in CharDirsMade(files, dirPath, chars)
    ensures forall d <- CharDirsMade(files, dirPath, chars) :: d !in files && exists c <- chars :: d == CharDir(dirPath, c)
    decreases |chars|
  {
    if chars != [] {
      var front := chars[..|chars| - 1];
      CharDirsMadeMembers(files, dirPath, front);
      assert chars == front + [chars[|chars| - 1]];
    }
  }

  /**
   * After a successful call the target holds the directory of every character
   * of the charset (unless a file of that name is in the way), and every new
   * directory is the target, one of its ancestors or a character directory.
   */
  lemma CharsetDirMakesCharDirs(dirs: set<string>, files: set<string>, dirPath: string, chars: Option<seq<char>>, createParentDir: bool)
    requires CharsetDirEffect(dirs, files, dirPath, chars, createParentDir).0.Ok?
    ensures var after := CharsetDirEffect(dirs, files, dirPath, chars, createParentDir).1;
      && (forall c <- chars.value :: CharDir(dirPath, c) in after || CharDir(dirPath, c) in files)
      && (forall d <- after :: d in dirs || d in DirChain(Norm(dirPath)) || exists c <- chars.value :: d == CharDir(dirPath, c))
  {
    CharDirsMadeMembers(files, dirPath, chars.value);
  }

  /**
   * After a successful `create_charset_dir`, every save of `create_and_save_charsets`
   * succeeds: the character directories are in place, provided no file blocks one,
   * no directory holds an image's name and no font name contains '/'.
   */
  lemma CharsetDirLetsImagesSave(job: Job, jitter: (string, nat) -> Pair, dirs: set<string>, files: map<string, Picture>,
                                 dirPath: string, chars: seq<char>, createParentDir: bool, table: map<string, Face>, order: seq<string>)
    requires JitterOk(jitter, job.sample) && forall n <- order :: n in table && '/' !in n
    requires CharsetDirEffect(dirs, files.Keys, dirPath, Some(chars), createParentDir).0.Ok?
    requires forall c <- chars :: CharDir(dirPath, c) !in files
    requires forall c, n :: n in order ==> CharImagePath(dirPath, c, n) !in dirs
    ensures var after := CharsetDirEffect(dirs, files.Keys, dirPath, Some(chars), createParentDir).1;
      CharsetsSaved(job, jitter, after, files, table, dirPath, chars, order).0.Done?
  {
    var after := CharsetDirEffect(dirs, files.Keys, dirPath, Some(chars), createParentDir).1;
    CharsetDirMakesCharDirs(dirs, files.Keys, dirPath, Some(chars), createParentDir);
    DirChainShorter(Norm(dirPath));
    forall c | c in chars ensures IsDirIn(after, CharDir(dirPath, c)) {
      CharDirNorm(dirPath, c);
    }
    forall c, n | n in order ensures CharImagePath(dirPath, c, n) !in after {
      var p := CharImagePath(dirPath, c, n);
      assert |p| > |dirPath|;
      forall b ensures p != CharDir(dirPath, b) {
        assert p[|p| - 1] == 'g';
      }
    }
    CharsetsSavedSucceeds(job, jitter, after, files, table, dirPath, chars, order);
  }

  /** `create_parent_dir` makes no difference: `makedirs` only runs when the target is missing. */
  lemma CharsetDirIgnoresCreateFlag(dirs: set<string>, files: set<string>, dirPath: string, chars: Option<seq<char>>)
    ensures CharsetDirEffect(dirs, files, dirPath, chars, true) == CharsetDirEffect(dirs, files, dirPath, chars, false)
  {
  }

  /** After a successful call, calling again succeeds and creates nothing more. */
  lemma CharsetDirIdempotent(dirs: set<string>, files: set<string>, dirPath: string, chars: Option<seq<char>>, createParentDir: bool)
    requires CharsetDirEffect(dirs, files, dirPath, chars, createParentDir).0.Ok?
    ensures var after := CharsetDirEffect(dirs, files, dirPath, chars, createParentDir).1;
      CharsetDirEffect(after, files, dirPath, chars, createParentDir) == (Ok(dirPath), after)
  {
    var after := CharsetDirEffect(dirs, files, dirPath, chars, createParentDir).1;
    assert MakeDirsResult(after, dirPath) == after;
    assert after + CharDirsMade(files, dirPath, chars.value) == after;
  }

  class CharImageGenerator {
    var outDir: string
    var fontDct: Option<map<string, Face>>
    var charset: Option<seq<char>>
    var charsetSize: nat

    ghost predicate Valid()
      reads this
    {
      outDir != ""
    }

    /** `out_dir or default_out_dir`: None and "" both fall back to the default. */
    constructor (outDir: Option<string>, fontDct: Option<map<string, Face>>, charset: Option<seq<char>>)
      ensures Valid()
      ensures this.outDir == if outDir.None? || outDir.value == "" then DefaultOutDir else outDir.value
      ensures this.fontDct == fontDct && this.charset == charset
      ensures charsetSize == if charset.None? then 0 else |charset.value|
    {
      this.outDir := if outDir.None? || outDir.value == "" then DefaultOutDir else outDir.value;
      this.fontDct := fontDct;
      this.charset := charset;
      this.charsetSize := if charset.None? then 0 else |charset.value|;
    }

    /**
     * `load`: the charset is the whitespace-separated content of the charset
     * file, the font table `load_font_set` of the walk of the fonts directory.
     */
    static method Load(r: Renderer, content: string, walk: seq<WalkEntry>, outDir: Option<string>)
      returns (res: Result<CharImageGenerator, Fault>)
      requires forall t <- Split(content) :: |t| == 1
      ensures var table := FontTable(r, Keyed(Candidates(walk)), false);
        && (table.Err? ==> res == Err(table.error))
        && (table.Ok? ==>
              && res.Ok? && fresh(res.value) && res.value.Valid()
              && res.value.fontDct == Some(table.value)
              && res.value.charset == Some(CharsOf(Split(content)))
              && res.value.outDir == if outDir.None? || outDir.value == "" then DefaultOutDir else outDir.value)
    {
      var chars := CharsOf(Split(content));
      var table := LoadFontSet(r, walk);
      if table.Err? {
        return Err(table.error);
      }
      var generator := new CharImageGenerator(outDir, Some(table.value), Some(chars));
      return Ok(generator);
    }

    /**
     * `load_font_set`: walks the font directory, keys every accepted file by its
     * stem and loads it at the default size; a font that does not load is skipped.
     */
    static method LoadFontSet(r: Renderer, walk: seq<WalkEntry>) returns (res: Result<map<string, Face>, Fault>)
      ensures res == FontTable(r, Keyed(Candidates(walk)), false)
    {
      var table: map<string, Face> := map[];
      var i := 0;
      while i < |walk|
        invariant 0 <= i <= |walk|
        invariant FontTable(r, Keyed(Candidates(walk[..i])), false) == Ok(table)
      {
        var scanned := ScanDirectory(r, walk[i].root, walk[i].names, table);
        WalkTableStep(r, walk, i, false, table);
        if scanned.Err? {
          WalkFailurePersists(r, walk, i + 1, false);
          return scanned;
        }
        table := scanned.value;
        i := i + 1;
      }
      assert walk[..i] == walk;
      return Ok(table);
    }

    /** The inner loop of `load_font_set`: the files of one directory, added to the table built so far. */
    static method ScanDirectory(r: Renderer, root: string, names: seq<string>, table: map<string, Face>)
      returns (res: Result<map<string, Face>, Fault>)
      ensures res == DirTable(r, root, names, false, table)
    {
      var acc := table;
      var j := 0;
      while j < |names|
        invariant 0 <= j <= |names|
        invariant DirTable(r, root, names[..j], false, table) == Ok(acc)
      {
        var name := names[j];
        assert names[..j + 1][..j] == names[..j];
        if IsFontFileName(name) {
          var stem := FileStem(name);
          if stem.None? {
            DirTableFailurePersists(r, root, names, j + 1, false, table);
            return Err(NoMatch);
          }
          var font := r.TrueType(Join(root, name), DefaultFontSize);
          if font.Some? {
            acc := acc[stem.value := font.value];
          }
        }
        j := j + 1;
      }
      assert names[..j] == names;
      return Ok(acc);
    }

    /**
     * `create_charset_dir`: `<out_dir>/<dir_name>` and one sub-directory per
     * character of `charset` (or of the generator's charset when None).
     */
    method CreateCharsetDir(fs: FileSystem, charset: Option<seq<char>>, dirName: string, createParentDir: bool)
      returns (res: Result<string, Fault>)
      requires Valid() && fs.Valid()
      modifies fs
      ensures fs.Valid() && fs.files == old(fs.files)
      ensures (res, fs.dirs) == CharsetDirEffect(old(fs.dirs), old(fs.files.Keys), Join(outDir, dirName),
        if charset.Some? then charset else this.charset, createParentDir)
    {
      var dirPath := Join(outDir, dirName);
      var chars := if charset.Some? then charset else this.charset;
      if !fs.IsDir(dirPath) {
        var made := fs.MakeDirs(dirPath, createParentDir);
        if made.Raised? {
          return Err(made.error);
        }
      }
      if chars.None? {
        return Err(NoneValue);
      }
      MakeCharDirs(fs, dirPath, chars.value);
      return Ok(dirPath);
    }

    /** The character loop of `create_charset_dir`: `mkdir` of each character's directory, skipping those that exist. */
    static method MakeCharDirs(fs: FileSystem, dirPath: string, cs: seq<char>)
      requires fs.Valid() && dirPath != [] && fs.IsDir(dirPath)
      modifies fs
      ensures fs.Valid() && fs.files == old(fs.files)
      ensures fs.dirs == old(fs.dirs) + CharDirsMade(old(fs.files.Keys), dirPath, cs)
    {
      ghost var files := fs.files.Keys;
      var k := 0;
      while k < |cs|
        invariant 0 <= k <= |cs|
        invariant fs.Valid() && fs.files == old(fs.files) && fs.IsDir(dirPath)
        invariant fs.dirs == old(fs.dirs) + CharDirsMade(files, dirPath, cs[..k])
      {
        MakeCharDir(fs, dirPath, cs[k]);
        CharDirsMadeStep(files, dirPath, cs, k);
        k := k + 1;
      }
      assert cs[..k] == cs;
    }

    /** `os.mkdir` of one character directory; the parent exists, so only FileExistsError can arise, and it is skipped. */
    static method MakeCharDir(fs: FileSystem, dirPath: string, c: char)
      requires fs.Valid() && dirPath != [] && fs.IsDir(dirPath)
      modifies fs
      ensures fs.Valid() && fs.files == old(fs.files)
      ensures fs.dirs == old(fs.dirs) + (if CharDir(dirPath, c) in fs.files then {} else {CharDir(dirPath, c)})
    {
      var d := CharDir(dirPath, c);
      assert MkDirFault(fs.dirs, fs.files.Keys, d) == if d in fs.dirs || d in fs.files then Some(FileExists(d)) else None by {
        CharDirParent(dirPath, c);
        MkDirInExistingDir(fs.dirs, fs.files.Keys, d);
      }
      var _ := fs.MakeDir(d);
    }

    /**
     * `create_char_image`: sizes the font for `c` in a 32x32 fit; a new size
     * replaces the table entry by a font loaded at that size; the character is
     * drawn with the font as it was, at its jittered location in the cell.
     */
    method CreateCharImage(r: Renderer, sample: Pair, fuel: nat, c: char, fontName: string, jitter: Pair)
      returns (res: Result<Picture, Fault>)
      requires Valid() && fontDct.Some? && fontName in fontDct.value
      requires WithinJitter(jitter, JitterBound(sample))
      modifies this
      ensures Valid() && outDir == old(outDir) && charset == old(charset) && charsetSize == old(charsetSize)
      ensures var job, face := Job(Replacing, r, sample, fuel), old(fontDct.value[fontName]);
        match job.Step(face, c)
        case Err(e) => res == Err(e) && fontDct == old(fontDct)
        case Ok(next) => fontDct == Some(old(fontDct.value)[fontName := next]) && res == Ok(job.CharPicture(face, c, jitter))
    {
      var face := fontDct.value[fontName];
      var est := EstimateFontSize(Probe(r, face, [c], sample), face, fuel);
      match est
      case Unopenable(s) =>
        return Err(FontUnusable(s));
      case Unsettled =>
        return Err(SizeSearchUnsettled);
      case Fitted(s) =>
        if s != face.size {
          var font := r.TrueType(face.path, s);
          if font.None? {
            return Err(FontUnusable(s));
          }
          fontDct := Some(fontDct.value[fontName := font.value]);
        } else {
          assert fontDct.value[fontName := face] == fontDct.value;
        }
        var loc := TextLocInSample(r, [c], face, sample, Some(jitter));
        return Ok(Canvas(sample, [Mark([c], loc, face)]));
    }

    /**
     * One pass of the inner loop of `create_and_save_charsets`: the image of `c`
     * (`drawn` is false when `create_char_image` raises), then its save.
     */
    method SaveCharImage(fs: FileSystem, r: Renderer, sample: Pair, fuel: nat, jitter: Pair, fontName: string, dir: string, c: char)
      returns (drawn: bool, out: Outcome<Fault>)
      requires Valid() && fs.Valid() && WithinJitter(jitter, JitterBound(sample))
      requires fontDct.Some? && fontName in fontDct.value
      modifies this, fs
      ensures Valid() && outDir == old(outDir) && charset == old(charset) && charsetSize == old(charsetSize)
      ensures fs.Valid() && fs.dirs == old(fs.dirs)
      ensures var job, face, path := Job(Replacing, r, sample, fuel), old(fontDct.value[fontName]), CharImagePath(dir, c, fontName);
        match job.Step(face, c)
        case Err(_) => !drawn && out.Done? && fontDct == old(fontDct) && fs.files == old(fs.files)
        case Ok(next) =>
          && drawn && fontDct == Some(old(fontDct.value)[fontName := next])
          && out == AsOutcome(SaveFault(old(fs.dirs), old(fs.files.Keys), path))
          && fs.files == if out.Done? then old(fs.files)[path := job.CharPicture(face, c, jitter)] else old(fs.files)
    {
      var image := CreateCharImage(r, sample, fuel, c, fontName, jitter);
      if image.Err? {
        return false, Done;
      }
      out := fs.Save(CharImagePath(dir, c, fontName), image.value);
      return true, out;
    }

    /**
     * The inner loop of `create_and_save_charsets` for one font: each character's
     * image is saved to `<dir>/<code point>/<font>.png`; the first failing image
     * skips the rest of the font, a failing save raises.
     */
    method SaveFontImages(fs: FileSystem, r: Renderer, sample: Pair, fuel: nat, jitter: (string, nat) -> Pair,
                          fontName: string, dir: string, chars: seq<char>)
      returns (out: Outcome<Fault>)
      requires Valid() && fs.Valid() && JitterOk(jitter, sample)
      requires fontDct.Some? && fontName in fontDct.value
      modifies this, fs
      ensures Valid() && outDir == old(outDir) && charset == old(charset) && charsetSize == old(charsetSize)
      ensures fs.Valid() && fs.dirs == old(fs.dirs)
      ensures fontDct.Some? && fontName in fontDct.value && fontDct.value == old(fontDct.value)[fontName := fontDct.value[fontName]]
      ensures (out, fs.files, fontDct.value[fontName])
           == Job(Replacing, r, sample, fuel).FontSaved(jitter, old(fs.dirs), old(fs.files), dir, fontName, old(fontDct.value[fontName]), chars, 0)
    {
      ghost var job := Job(Replacing, r, sample, fuel);
      ghost var face := fontDct.value[fontName];
      ghost var table := fontDct.value;
      ghost var cur := face;
      assert table[fontName := cur] == table;
      assert chars[0..] == chars;
      var k := 0;
      while k < |chars|
        invariant 0 <= k <= |chars|
        invariant Valid() && outDir == old(outDir) && charset == old(charset) && charsetSize == old(charsetSize)
        invariant fs.Valid() && fs.dirs == old(fs.dirs)
        invariant fontDct == Some(table[fontName := cur])
        invariant job.FontSaved(jitter, old(fs.dirs), old(fs.files), dir, fontName, face, chars, 0)
               == job.FontSaved(jitter, fs.dirs, fs.files, dir, fontName, cur, chars[k..], k)
      {
        var drawn, saved;
        ghost var next;
        drawn, saved, next := SaveCharImageAt(fs, r, sample, fuel, jitter, fontName, dir, chars, k, table, cur);
        if !drawn || saved.Raised? {
          return saved;
        }
        cur := next;
        k := k + 1;
      }
      assert chars[k..] == [];
      return Done;
    }

    /**
     * One pass of the character loop of SaveFontImages, `cur` being the font's
     * table entry: the image of character `k` and its save, which either end the
     * font's loop with what `FontSaved` gives or leave the rest of it to run from
     * the entry `next`.
     */
    method SaveCharImageAt(fs: FileSystem, r: Renderer, sample: Pair, fuel: nat, jitter: (string, nat) -> Pair,
                           fontName: string, dir: string, chars: seq<char>, k: nat, ghost table: map<string, Face>, ghost cur: Face)
      returns (drawn: bool, out: Outcome<Fault>, ghost next: Face)
      requires Valid() && fs.Valid() && JitterOk(jitter, sample) && k < |chars|
      requires fontDct == Some(table[fontName := cur])
      modifies this, fs
      ensures Valid() && outDir == old(outDir) && charset == old(charset) && charsetSize == old(charsetSize)
      ensures fs.Valid() && fs.dirs == old(fs.dirs)
      ensures fontDct == Some(table[fontName := next])
      ensures var job := Job(Replacing, r, sample, fuel);
        && (drawn <==> job.Step(cur, chars[k]).Ok?)
        && (drawn ==> out == AsOutcome(SaveFault(old(fs.dirs), old(fs.files.Keys), CharImagePath(dir, chars[k], fontName))))
        && var rest := job.FontSaved(jitter, old(fs.dirs), old(fs.files), dir, fontName, cur, chars[k..], k);
           if drawn && out.Done? then rest == job.FontSaved(jitter, fs.dirs, fs.files, dir, fontName, next, chars[k + 1..], k + 1)
           else rest == (out, fs.files, next)
    {
      ghost var job := Job(Replacing, r, sample, fuel);
      ghost var step := job.Step(cur, chars[k]);
      FontSavedAt(job, jitter, fs.dirs, fs.files, dir, fontName, cur, chars, k);
      drawn, out := SaveCharImage(fs, r, sample, fuel, jitter(fontName, k), fontName, dir, chars[k]);
      if !drawn {
        next := cur;
        return;
      }
      next := step.value;
      UpdateTwice(table, fontName, cur, next);
      assert job.DrawFace(cur, next) == cur;
    }

    /**
     * `create_and_save_charsets`: the charset directory (with its parents), then
     * for each font in the dict's order and each character the image, saved to
     * `<charset_dir>/<ord(char)>/<font_name>.png`. A font whose image cannot be
     * made is skipped from that character on; a failing save raises.
     */
    method CreateAndSaveCharsets(fs: FileSystem, r: Renderer, sample: Pair, fuel: nat, jitter: (string, nat) -> Pair, order: seq<string>)
      returns (out: Outcome<Fault>)
      requires Valid() && fs.Valid() && JitterOk(jitter, sample)
      requires fontDct.Some? ==> IsKeyOrder(order, fontDct.value)
      modifies this, fs
      ensures Valid() && outDir == old(outDir) && charset == old(charset) && charsetSize == old(charsetSize)
      ensures fs.Valid()
      ensures var effect := CharsetDirEffect(old(fs.dirs), old(fs.files.Keys), Join(outDir, "charset"), charset, true);
        && fs.dirs == effect.1
        && (effect.0.Err? ==> out == Raised(effect.0.error) && fs.files == old(fs.files) && fontDct == old(fontDct))
        && (effect.0.Ok? && old(fontDct).None? ==> out == Raised(NoneValue) && fs.files == old(fs.files) && fontDct == old(fontDct))
        && (effect.0.Ok? && old(fontDct).Some? ==>
              fontDct.Some? &&
              (out, fs.files, fontDct.value) == CharsetsSaved(Job(Replacing, r, sample, fuel), jitter, effect.1, old(fs.files),
                                                              old(fontDct.value), effect.0.value, charset.value, order))
    {
      var made := CreateCharsetDir(fs, charset, "charset", true);
      if made.Err? {
        return Raised(made.error);
      }
      if fontDct.None? {
        return Raised(NoneValue);
      }
      out := SaveCharsets(fs, r, sample, fuel, jitter, made.value, charset.value, order);
    }

    /** The font loop of `create_and_save_charsets`, the charset directory being `dir`. */
    method SaveCharsets(fs: FileSystem, r: Renderer, sample: Pair, fuel: nat, jitter: (string, nat) -> Pair,
                        dir: string, chars: seq<char>, order: seq<string>)
      returns (out: Outcome<Fault>)
      requires Valid() && fs.Valid() && JitterOk(jitter, sample)
      requires fontDct.Some? && forall n <- order :: n in fontDct.value
      modifies this, fs
      ensures Valid() && outDir == old(outDir) && charset == old(charset) && charsetSize == old(charsetSize)
      ensures fs.Valid() && fs.dirs == old(fs.dirs)
      ensures fontDct.Some?
      ensures (out, fs.files, fontDct.value)
           == CharsetsSaved(Job(Replacing, r, sample, fuel), jitter, old(fs.dirs), old(fs.files), old(fontDct.value), dir, chars, order)
    {
      ghost var job := Job(Replacing, r, sample, fuel);
      ghost var files, table := fs.files, fontDct.value;
      var i := 0;
      while i < |order|
        invariant 0 <= i <= |order|
        invariant Valid() && outDir == old(outDir) && charset == old(charset) && charsetSize == old(charsetSize)
        invariant fs.Valid() && fs.dirs == old(fs.dirs)
        invariant fontDct.Some? && fontDct.value.Keys == table.Keys
        invariant (Done, fs.files, fontDct.value) == CharsetsSaved(job, jitter, fs.dirs, files, table, dir, chars, order[..i])
      {
        CharsetsSavedStep(job, jitter, fs.dirs, files, table, dir, chars, order, i);
        var saved := SaveFontImages(fs, r, sample, fuel, jitter, order[i], dir, chars);
        if saved.Raised? {
          CharsetsSavedRaisedPersists(job, jitter, fs.dirs, files, table, dir, chars, order, i + 1);
          return saved;
        }
        i := i + 1;
      }
      assert order[..i] == order;
      return Done;
    }

    /**
     * `create_sprites`: with fonts and characters present, a sheet per font in
     * `<out_dir>/sprites`, which must be missing or empty; boards that exist are
     * skipped, the others drawn on a `get_near_dim_2d(len(charset))` board and
     * saved. Without fonts or characters it does nothing.
     */
    method CreateSprites(fs: FileSystem, r: Renderer, sample: Pair, fuel: nat, jitter: (string, nat) -> Pair, order: seq<string>)
      returns (out: Outcome<Fault>)
      requires Valid() && fs.Valid() && JitterOk(jitter, sample)
      requires fontDct.Some? ==> IsKeyOrder(order, fontDct.value)
      modifies this, fs
      ensures Valid() && outDir == old(outDir) && charset == old(charset) && charsetSize == old(charsetSize)
      ensures fs.Valid()
      ensures old(fontDct.None? || fontDct.value == map[] || charset.None? || charset.value == []) ==>
        out.Done? && fs.dirs == old(fs.dirs) && fs.files == old(fs.files) && fontDct == old(fontDct)
      ensures var dir := outDir + "/sprites";
        old(fontDct.Some? && fontDct.value != map[] && charset.Some? && charset.value != []) ==>
          if old(fs.IsDir(dir) && fs.HasEntries(dir)) then
            out == Raised(FileExists(dir)) && fs.dirs == old(fs.dirs) && fs.files == old(fs.files) && fontDct == old(fontDct)
          else if MakeDirsFault(old(fs.dirs), old(fs.files.Keys), dir, true).Some? then
            out == Raised(MakeDirsFault(old(fs.dirs), old(fs.files.Keys), dir, true).value)
            && fs.dirs == old(fs.dirs) && fs.files == old(fs.files) && fontDct == old(fontDct)
          else
            var dirs := MakeDirsResult(old(fs.dirs), dir);
            var board := SpriteBoard(|charset.value|, sample);
            var after := SpriteSheets(Job(Replacing, r, sample, fuel), jitter, dirs, old(fs.files), old(fontDct.value), dir, charset.value, board, order);
            out == after.0 && fs.dirs == dirs && fs.files == after.1 && fontDct == Some(after.2)
    {
      if fontDct.None? || fontDct.value == map[] || charset.None? || charset.value == [] {
        return Done;
      }
      var chars := charset.value;
      var shape := GetNearDim2d(|chars|, true);
      var board := CreateWhiteboard(None, Some(shape), sample).value;
      var dir := outDir + "/sprites";
      if fs.IsDir(dir) && fs.HasEntries(dir) {
        return Raised(FileExists(dir));
      }
      var made := fs.MakeDirs(dir, true);
      if made.Raised? {
        return made;
      }
      out := SaveSpriteSheets(fs, Job(Replacing, r, sample, fuel), jitter, dir, chars, board, order);
    }

    /** The font loop of `create_sprites`, the sprites directory being `dir`. */
    method SaveSpriteSheets(fs: FileSystem, job: Job, jitter: (string, nat) -> Pair, dir: string, chars: seq<char>, board: Pair, order: seq<string>)
      returns (out: Outcome<Fault>)
      requires Valid() && fs.Valid() && JitterOk(jitter, job.sample)
      requires fontDct.Some? && forall n <- order :: n in fontDct.value
      modifies this, fs
      ensures Valid() && outDir == old(outDir) && charset == old(charset) && charsetSize == old(charsetSize)
      ensures fs.Valid() && fs.dirs == old(fs.dirs)
      ensures var after := SpriteSheets(job, jitter, old(fs.dirs), old(fs.files), old(fontDct.value), dir, chars, board, order);
        out == after.0 && fs.files == after.1 && fontDct == Some(after.2)
    {
      ghost var files, table := fs.files, fontDct.value;
      var i := 0;
      while i < |order|
        invariant 0 <= i <= |order|
        invariant Valid() && outDir == old(outDir) && charset == old(charset) && charsetSize == old(charsetSize)
        invariant fs.Valid() && fs.dirs == old(fs.dirs)
        invariant fontDct.Some? && fontDct.value.Keys == table.Keys
        invariant (Done, fs.files, fontDct.value) == SpriteSheets(job, jitter, fs.dirs, files, table, dir, chars, board, order[..i])
      {
        out := SaveSpriteSheetAt(fs, job, jitter, dir, chars, board, order, i, files, table);
        if out.Raised? {
          SpriteSheetsRaisedPersists(job, jitter, fs.dirs, files, table, dir, chars, board, order, i + 1);
          return;
        }
        i := i + 1;
      }
      out := Done;
      assert order[..i] == order;
    }

    /**
     * One pass of the font loop of SaveSpriteSheets, the fonts before `i` being
     * done: font `order[i]`'s sheet is skipped, or sized, drawn and saved.
     */
    method SaveSpriteSheetAt(fs: FileSystem, job: Job, jitter: (string, nat) -> Pair, dir: string, chars: seq<char>, board: Pair,
                             order: seq<string>, i: nat, ghost files: map<string, Picture>, ghost table: map<string, Face>)
      returns (out: Outcome<Fault>)
      requires Valid() && fs.Valid() && JitterOk(jitter, job.sample) && i < |order|
      requires (forall n <- order :: n in table) && fontDct.Some? && fontDct.value.Keys == table.Keys
      requires (Done, fs.files, fontDct.value) == SpriteSheets(job, jitter, fs.dirs, files, table, dir, chars, board, order[..i])
      modifies this, fs
      ensures Valid() && outDir == old(outDir) && charset == old(charset) && charsetSize == old(charsetSize)
      ensures fs.Valid() && fs.dirs == old(fs.dirs)
      ensures fontDct.Some? && fontDct.value.Keys == table.Keys
      ensures (out, fs.files, fontDct.value) == SpriteSheets(job, jitter, fs.dirs, files, table, dir, chars, board, order[..i + 1])
    {
      SpriteSheetsStep(job, jitter, fs.dirs, files, table, dir, chars, board, order, i);
      var name := order[i];
      if fs.IsFile(BoardPath(dir, name)) {
        return Done;
      }
      var sized;
      sized, out := SaveSpriteSheet(fs, job, jitter, dir, name, fontDct.value[name], chars, board);
      fontDct := Some(fontDct.value[name := sized]);
    }
  }
}
