/**
 * `CharImageGenerator` of `src/generator/im_gen.py`, the earlier variant of the
 * generator. Its font table holds font objects whose `size` attribute the size
 * searches reassign in place; `load_font_set` lets a font that does not load
 * raise; `create_charset_dir` is a static method that builds the charset
 * directory under a `prefix` and leaves an existing one alone.
 */
module ImGen {
  import opened Wrappers
  import opened Text
  import opened Paths
  import opened Raster
  import opened Disk
  import opened Utils
  import opened FontSet
  import opened CharImages

  /** The directory the charset directory is made in: "." for None, otherwise `prefix` less one trailing '/'. */
  function PrefixDir(prefix: Option<string>): (p: string)
    ensures prefix.None? ==> p == "."
    ensures prefix.Some? && !EndsWith(prefix.value, "/") ==> p == prefix.value
    ensures prefix.Some? && EndsWith(prefix.value, "/") ==> p + "/" == prefix.value
  {
    match prefix
    case None => "."
    case Some(q) => if EndsWith(q, "/") then q[..|q| - 1] else q
  }

  /** `"{prefix}/{dir_name}"`. */
  function CharsetDirPath(prefix: Option<string>, dirName: string): string {
    PrefixDir(prefix) + "/" + dirName
  }

  /** The characters of `chars` are pairwise different. */
  predicate NoRepeats(chars: seq<char>) {
    forall i, j :: 0 <= i < j < |chars| ==> chars[i] != chars[j]
  }

  /** The directories of the characters of `chars` under `dir`. */
  function CharDirSet(dir: string, chars: seq<char>): set<string> {
    set c | c in chars :: CharDir(dir, c)
  }

  /**
   * The character loop of `create_charset_dir`: `os.mkdir` of each character's
   * directory in turn; the first failure raises (an existing directory
   * included). The exception, if any, and the directories afterwards.
   */
  function CharDirsStrict(dirs: set<string>, files: set<string>, dir: string, chars: seq<char>): (effect: (Option<Fault>, set<string>))
    ensures dirs <= effect.1
    decreases |chars|
  {
    if chars == [] then (None, dirs)
    else
      var before := CharDirsStrict(dirs, files, dir, chars[..|chars| - 1]);
      var d := CharDir(dir, chars[|chars| - 1]);
      if before.0.Some? then before
      else
        match MkDirFault(before.1, files, d)
        case Some(e) => (Some(e), before.1)
        case None => (None, before.1 + {Norm(d)})
  }

  lemma CharDirsStrictStep(dirs: set<string>, files: set<string>, dir: string, cs: seq<char>, k: nat)
    requires k < |cs|
    ensures var before := CharDirsStrict(dirs, files, dir, cs[..k]);
      var d := CharDir(dir, cs[k]);
      CharDirsStrict(dirs, files, dir, cs[..k + 1]) ==
        if before.0.Some? then before
        else match MkDirFault(before.1, files, d)
          case Some(e) => (Some(e), before.1)
          case None => (None, before.1 + {Norm(d)})
  {
    assert cs[..k + 1][..k] == cs[..k];
  }

  /** After the first failure the loop is over. */
  lemma {:induction false} CharDirsStrictFailurePersists(dirs: set<string>, files: set<string>, dir: string, cs: seq<char>, k: nat)
    requires k <= |cs| && CharDirsStrict(dirs, files, dir, cs[..k]).0.Some?
    ensures CharDirsStrict(dirs, files, dir, cs) == CharDirsStrict(dirs, files, dir, cs[..k])
    decreases |cs|
  {
    if k < |cs| {
      assert cs[..|cs| - 1][..k] == cs[..k];
      CharDirsStrictFailurePersists(dirs, files, dir, cs[..|cs| - 1], k);
    } else {
      assert cs[..k] == cs;
    }
  }

  /** A sequence has no repeats when its front has none and its last element is new. */
  lemma NoRepeatsSnoc(chars: seq<char>)
    requires chars != []
    ensures var n := |chars| - 1;
      NoRepeats(chars) <==> NoRepeats(chars[..n]) && chars[n] !in chars[..n]
  {
    var n := |chars| - 1;
    var front := chars[..n];
    if NoRepeats(front) && chars[n] !in front {
      forall i, j | 0 <= i < j < |chars| ensures chars[i] != chars[j] {
        assert chars[i] == front[i];
        if j < n {
          assert chars[j] == front[j];
        }
      }
    }
  }

  /**
   * The directory of one more character, in a directory whose character
   * directories are exactly those of `front`: it exists, and `os.mkdir` raises
   * FileExistsError, exactly when the character is already in `front`.
   */
  lemma CharDirMkDir(dirs: set<string>, files: set<string>, dir: string, front: seq<char>, c: char, made: set<string>)
    requires dir != [] && IsDirIn(dirs, dir)
    requires forall c :: CharDir(dir, c) !in dirs && CharDir(dir, c) !in files
    requires made == dirs + CharDirSet(dir, front)
    ensures MkDirFault(made, files, CharDir(dir, c)) == if c in front then Some(FileExists(CharDir(dir, c))) else None
  {
    var d := CharDir(dir, c);
    CharDirParent(dir, c);
    MkDirInExistingDir(made, files, d);
    if d in made {
      var b :| b in front && CharDir(dir, b) == d;
      CharDirInjective(dir, b, c);
    }
  }

  /** The character directories of one more character. */
  lemma CharDirSetSnoc(dir: string, front: seq<char>, c: char)
    ensures CharDirSet(dir, front + [c]) == CharDirSet(dir, front) + {CharDir(dir, c)}
  {
    assert forall x :: x in front + [c] <==> x in front || x == c;
  }

  /**
   * One more character after a front whose loop succeeded and made exactly the
   * front's character directories: a repeat raises FileExistsError, a new
   * character adds its directory.
   */
  lemma CharDirsStrictSnoc(dirs: set<string>, files: set<string>, dir: string, front: seq<char>, c: char)
    requires dir != [] && IsDirIn(dirs, dir)
    requires forall c :: CharDir(dir, c) !in dirs && CharDir(dir, c) !in files
    requires CharDirsStrict(dirs, files, dir, front) == (None, dirs + CharDirSet(dir, front))
    ensures CharDirsStrict(dirs, files, dir, front + [c]) ==
      if c in front then (Some(FileExists(CharDir(dir, c))), dirs + CharDirSet(dir, front))
      else (None, dirs + CharDirSet(dir, front + [c]))
  {
    var chars := front + [c];
    var made := dirs + CharDirSet(dir, front);
    var d := CharDir(dir, c);
    assert chars[..|chars| - 1] == front;
    CharDirMkDir(dirs, files, dir, front, c, made);
    if c in front {
      assert MkDirFault(made, files, d) == Some(FileExists(d));
    } else {
      assert MkDirFault(made, files, d) == None;
      CharDirNorm(dir, c);
      CharDirSetSnoc(dir, front, c);
      assert CharDirsStrict(dirs, files, dir, chars) == (None, made + {d});
      assert made + {d} == dirs + CharDirSet(dir, chars);
    }
  }

  /** A failure of the front is the failure of the whole loop. */
  lemma CharDirsStrictSnocFailed(dirs: set<string>, files: set<string>, dir: string, front: seq<char>, c: char)
    requires CharDirsStrict(dirs, files, dir, front).0.Some?
    ensures CharDirsStrict(dirs, files, dir, front + [c]) == CharDirsStrict(dirs, files, dir, front)
  {
    var chars := front + [c];
    assert chars[..|chars| - 1] == front;
  }

  /**
   * In a directory that holds no character directory yet, the loop succeeds
   * exactly when no character repeats, and then creates one directory per
   * character; a repeated character raises FileExistsError.
   */
  lemma {:induction false} CharDirsStrictSucceedsIffNoRepeats(dirs: set<string>, files: set<string>, dir: string, chars: seq<char>)
    requires dir != [] && IsDirIn(dirs, dir)
    requires forall c :: CharDir(dir, c) !in dirs && CharDir(dir, c) !in files
    ensures var effect := CharDirsStrict(dirs, files, dir, chars);
      && (effect.0.None? <==> NoRepeats(chars))
      && (effect.0.None? ==> effect.1 == dirs + CharDirSet(dir, chars))
      && (effect.0.Some? ==> effect.0.value.FileExists?)
    decreases |chars|
  {
    if chars != [] {
      var n := |chars| - 1;
      var front, c := chars[..n], chars[n];
      assert chars == front + [c];
      CharDirsStrictSucceedsIffNoRepeats(dirs, files, dir, front);
      NoRepeatsSnoc(chars);
      if CharDirsStrict(dirs, files, dir, front).0.None? {
        CharDirsStrictSnoc(dirs, files, dir, front, c);
      } else {
        CharDirsStrictSnocFailed(dirs, files, dir, front, c);
      }
    }
  }

  /**
   * `create_charset_dir(charset, prefix, dir_name, create_prefix_dir)` on a file
   * system with directories `dirs` and files `files`: what it returns (Ok(None)
   * for its bare `return`s) or raises, and the directories afterwards. A missing
   * prefix is created only when asked, with `os.mkdir`; an existing charset
   * directory is left alone; otherwise it and the character directories are
   * made, None as the charset raising once the charset directory exists.
   */
  function CharsetDirEffect(dirs: set<string>, files: set<string>, charset: Option<seq<char>>, prefix: Option<string>,
                            dirName: string, createPrefixDir: bool)
    : (effect: (Result<Option<string>, Fault>, set<string>))
    ensures dirs <= effect.1
    ensures effect.0 == Ok(None) ==> effect.1 <= dirs + {Norm(Show(prefix))}
    ensures effect.0.Ok? && effect.0.value.Some? ==>
      && effect.0.value.value == CharsetDirPath(prefix, dirName)
      && IsDirIn(effect.1, CharsetDirPath(prefix, dirName))
  {
    var missing := prefix.Some? && !IsDirIn(dirs, prefix.value);
    if missing && !createPrefixDir then (Ok(None), dirs)
    else if missing && MkDirFault(dirs, files, prefix.value).Some? then (Err(MkDirFault(dirs, files, prefix.value).value), dirs)
    else CharsetDirAt(if missing then dirs + {Norm(prefix.value)} else dirs, files, charset, CharsetDirPath(prefix, dirName))
  }

  /**
   * The part of `create_charset_dir` after the prefix is settled, `dir` being
   * the charset directory: nothing when it exists, otherwise `os.mkdir` of it
   * and of each character's directory.
   */
  function CharsetDirAt(dirs: set<string>, files: set<string>, charset: Option<seq<char>>, dir: string)
    : (effect: (Result<Option<string>, Fault>, set<string>))
    ensures dirs <= effect.1
    ensures effect.0 == Ok(None) ==> effect.1 == dirs
    ensures effect.0.Ok? && effect.0.value.Some? ==> effect.0.value.value == dir && IsDirIn(effect.1, dir)
  {
    if IsDirIn(dirs, dir) then (Ok(None), dirs)
    else if MkDirFault(dirs, files, dir).Some? then (Err(MkDirFault(dirs, files, dir).value), dirs)
    else
      var made := dirs + {Norm(dir)};
      match charset
      case None => (Err(NoneValue), made)
      case Some(cs) =>
        var chars := CharDirsStrict(made, files, dir, cs);
        if chars.0.Some? then (Err(chars.0.value), chars.1) else (Ok(Some(dir)), chars.1)
  }

  /** Calling again after a successful call returns None and creates nothing. */
  lemma CharsetDirSecondCall(dirs: set<string>, files: set<string>, charset: Option<seq<char>>, prefix: Option<string>,
                             dirName: string, createPrefixDir: bool)
    requires var effect := CharsetDirEffect(dirs, files, charset, prefix, dirName, createPrefixDir);
      effect.0.Ok? && effect.0.value.Some?
    ensures var after := CharsetDirEffect(dirs, files, charset, prefix, dirName, createPrefixDir).1;
      CharsetDirEffect(after, files, charset, prefix, dirName, createPrefixDir) == (Ok(None), after)
  {
    var after := CharsetDirEffect(dirs, files, charset, prefix, dirName, createPrefixDir).1;
    if prefix.Some? && !IsDirIn(dirs, prefix.value) {
      assert IsDirIn(dirs + {Norm(prefix.value)}, prefix.value) by {
        NormIdempotent(prefix.value);
      }
    }
  }

  /**
   * The two refusals: a missing prefix without `create_prefix_dir`, and an
   * existing charset directory, both return None having created nothing. When
   * asked, a missing prefix is created, whatever happens after.
   */
  lemma CharsetDirRefusals(dirs: set<string>, files: set<string>, charset: Option<seq<char>>, prefix: Option<string>,
                           dirName: string, createPrefixDir: bool)
    ensures var effect := CharsetDirEffect(dirs, files, charset, prefix, dirName, createPrefixDir);
      && (prefix.Some? && !IsDirIn(dirs, prefix.value) && !createPrefixDir ==> effect == (Ok(None), dirs))
      && ((prefix.None? || IsDirIn(dirs, prefix.value)) && IsDirIn(dirs, CharsetDirPath(prefix, dirName)) ==> effect == (Ok(None), dirs))
      && (prefix.Some? && !IsDirIn(dirs, prefix.value) && createPrefixDir && MkDirFault(dirs, files, prefix.value).None? ==>
            Norm(prefix.value) in effect.1)
  {
  }

  /**
   * With the prefix in place and a charset directory that `os.mkdir` can make
   * and that has nothing below it, the call returns the charset directory
   * exactly when no character repeats, having made it and one directory per
   * character; a repeated character raises FileExistsError.
   */
  lemma CharsetDirFresh(dirs: set<string>, files: set<string>, chars: seq<char>, prefix: Option<string>,
                        dirName: string, createPrefixDir: bool)
    requires prefix.None? || IsDirIn(dirs, prefix.value)
    requires !IsDirIn(dirs, CharsetDirPath(prefix, dirName)) && MkDirFault(dirs, files, CharsetDirPath(prefix, dirName)).None?
    requires forall c :: CharDir(CharsetDirPath(prefix, dirName), c) !in dirs && CharDir(CharsetDirPath(prefix, dirName), c) !in files
    ensures var dir, effect := CharsetDirPath(prefix, dirName), CharsetDirEffect(dirs, files, Some(chars), prefix, dirName, createPrefixDir);
      && (effect.0.Ok? <==> NoRepeats(chars))
      && (effect.0.Ok? ==> effect.0.value == Some(dir) && effect.1 == dirs + {Norm(dir)} + CharDirSet(dir, chars))
      && (effect.0.Err? ==> effect.0.error.FileExists?)
  {
    var dir := CharsetDirPath(prefix, dirName);
    var made := dirs + {Norm(dir)};
    forall c ensures CharDir(dir, c) !in made {
      assert |Norm(dir)| < |CharDir(dir, c)|;
    }
    CharDirsStrictSucceedsIffNoRepeats(made, files, dir, chars);
  }

  /**
   * A fresh charset directory with no repeated character: `create_charset_dir`
   * returns it, every character directory is in place afterwards, and no image
   * path names a directory unless one did before.
   */
  lemma FreshCharsetReady(dirs: set<string>, files: set<string>, chars: seq<char>, prefix: Option<string>, dirName: string,
                          createPrefixDir: bool, names: set<string>)
    requires prefix.None? || IsDirIn(dirs, prefix.value)
    requires !IsDirIn(dirs, CharsetDirPath(prefix, dirName)) && MkDirFault(dirs, files, CharsetDirPath(prefix, dirName)).None?
    requires forall c :: CharDir(CharsetDirPath(prefix, dirName), c) !in dirs && CharDir(CharsetDirPath(prefix, dirName), c) !in files
    requires NoRepeats(chars)
    requires forall c, n :: n in names ==> CharImagePath(CharsetDirPath(prefix, dirName), c, n) !in dirs
    ensures var dir, effect := CharsetDirPath(prefix, dirName), CharsetDirEffect(dirs, files, Some(chars), prefix, dirName, createPrefixDir);
      && effect.0 == Ok(Some(dir))
      && (forall c <- chars :: IsDirIn(effect.1, CharDir(dir, c)))
      && (forall c, n :: n in names ==> CharImagePath(dir, c, n) !in effect.1)
  {
    var dir := CharsetDirPath(prefix, dirName);
    var effect := CharsetDirEffect(dirs, files, Some(chars), prefix, dirName, createPrefixDir);
    CharsetDirFresh(dirs, files, chars, prefix, dirName, createPrefixDir);
    var after := dirs + {Norm(dir)} + CharDirSet(dir, chars);
    assert effect.1 == after;
    forall c | c in chars ensures IsDirIn(after, CharDir(dir, c)) {
      CharDirNorm(dir, c);
    }
    ImagePathsOutside(dirs, dir, chars, names);
  }

  /** An image path is neither the charset directory nor one of its character directories. */
  lemma ImagePathsOutside(dirs: set<string>, dir: string, chars: seq<char>, names: set<string>)
    requires forall c, n :: n in names ==> CharImagePath(dir, c, n) !in dirs
    ensures forall c, n :: n in names ==> CharImagePath(dir, c, n) !in dirs + {Norm(dir)} + CharDirSet(dir, chars)
  {
    forall c, n | n in names ensures CharImagePath(dir, c, n) !in dirs + {Norm(dir)} + CharDirSet(dir, chars) {
      var p := CharImagePath(dir, c, n);
      assert |p| > |dir|;
      forall b ensures p != CharDir(dir, b) {
        assert p[|p| - 1] == 'g';
      }
    }
  }

  /**
   * Into a fresh charset directory with no repeated character, every save of
   * `create_and_save_charsets` succeeds, provided no directory holds an image's
   * name and no font name contains '/'.
   */
  lemma FreshCharsetLetsImagesSave(job: Job, jitter: (string, nat) -> Pair, dirs: set<string>, files: map<string, Picture>,
                                   chars: seq<char>, prefix: Option<string>, dirName: string, createPrefixDir: bool,
                                   table: map<string, Face>, order: seq<string>)
    requires JitterOk(jitter, job.sample) && forall n <- order :: n in table && '/' !in n
    requires prefix.None? || IsDirIn(dirs, prefix.value)
    requires !IsDirIn(dirs, CharsetDirPath(prefix, dirName)) && MkDirFault(dirs, files.Keys, CharsetDirPath(prefix, dirName)).None?
    requires forall c :: CharDir(CharsetDirPath(prefix, dirName), c) !in dirs && CharDir(CharsetDirPath(prefix, dirName), c) !in files
    requires NoRepeats(chars)
    requires forall c, n :: n in order ==> CharImagePath(CharsetDirPath(prefix, dirName), c, n) !in dirs
    ensures var effect := CharsetDirEffect(dirs, files.Keys, Some(chars), prefix, dirName, createPrefixDir);
      && effect.0 == Ok(Some(CharsetDirPath(prefix, dirName)))
      && CharsetsSaved(job, jitter, effect.1, files, table, Show(effect.0.value), chars, order).0.Done?
  {
    var effect := CharsetDirEffect(dirs, files.Keys, Some(chars), prefix, dirName, createPrefixDir);
    FreshCharsetReady(dirs, files.Keys, chars, prefix, dirName, createPrefixDir, set n <- order);
    CharsetsSavedSucceeds(job, jitter, effect.1, files, table, CharsetDirPath(prefix, dirName), chars, order);
  }

  /** A directory that does not exist yet has no character directories in it. */
  lemma NewDirHasNoCharDirs(fs: FileSystem, dir: string)
    requires fs.Valid() && !fs.IsDir(dir) && dir != [] && Norm(dir) == dir
    ensures forall c :: CharDir(dir, c) !in fs.dirs && CharDir(dir, c) !in fs.files
  {
    AbsentDirIsEmpty(fs, dir);
    forall c ensures CharDir(dir, c) !in fs.dirs && CharDir(dir, c) !in fs.files {
      CharDirParent(dir, c);
    }
  }

  class CharImageGenerator {
    var outDir: Option<string>
    var fontDct: Option<map<string, Face>>
    var charset: Option<seq<char>>
    var charsetSize: nat

    constructor (outDir: Option<string>, fontDct: Option<map<string, Face>>, charset: Option<seq<char>>)
      ensures this.outDir == outDir && this.fontDct == fontDct && this.charset == charset
      ensures charsetSize == if charset.None? then 0 else |charset.value|
    {
      this.outDir := outDir;
      this.fontDct := fontDct;
      this.charset := charset;
      this.charsetSize := if charset.None? then 0 else |charset.value|;
    }

    /**
     * `load` as written: reads the charset and the fonts, creates the charset
     * directory when asked, and then calls the constructor with a `fontset`
     * keyword it does not have, which raises TypeError whatever the inputs.
     */
    static method Load(fs: FileSystem, r: Renderer, content: string, walk: seq<WalkEntry>, createCharsetDir: bool,
                       prefix: Option<string>, dirName: string, createPrefixDir: bool)
      returns (res: Result<CharImageGenerator, Fault>)
      requires fs.Valid() && forall t <- Split(content) :: |t| == 1
      modifies fs
      ensures fs.Valid() && fs.files == old(fs.files)
      ensures var table := FontTable(r, Keyed(Candidates(walk)), true);
        var made := CharsetDirEffect(old(fs.dirs), old(fs.files.Keys), Some(CharsOf(Split(content))), prefix, dirName, createPrefixDir);
        && res == (if table.Err? then Err(table.error)
                   else if createCharsetDir && made.0.Err? then Err(made.0.error)
                   else Err(BadKeyword("fontset")))
        && fs.dirs == if table.Ok? && createCharsetDir then made.1 else old(fs.dirs)
    {
      var chars := CharsOf(Split(content));
      var table := LoadFontSet(r, walk);
      if table.Err? {
        return Err(table.error);
      }
      if createCharsetDir {
        var made := CreateCharsetDir(fs, Some(chars), prefix, dirName, createPrefixDir);
        if made.Err? {
          return Err(made.error);
        }
      }
      return Err(BadKeyword("fontset"));
    }

    /**
     * `load` as evidently intended: the font table is passed as `font_dct`, and
     * the generator's output directory is what `create_charset_dir` returned.
     */
    static method LoadFixed(fs: FileSystem, r: Renderer, content: string, walk: seq<WalkEntry>, createCharsetDir: bool,
                            prefix: Option<string>, dirName: string, createPrefixDir: bool)
      returns (res: Result<CharImageGenerator, Fault>)
      requires fs.Valid() && forall t <- Split(content) :: |t| == 1
      modifies fs
      ensures fs.Valid() && fs.files == old(fs.files)
      ensures var table := FontTable(r, Keyed(Candidates(walk)), true);
        var made := CharsetDirEffect(old(fs.dirs), old(fs.files.Keys), Some(CharsOf(Split(content))), prefix, dirName, createPrefixDir);
        && (table.Err? ==> res == Err(table.error) && fs.dirs == old(fs.dirs))
        && (table.Ok? && createCharsetDir && made.0.Err? ==> res == Err(made.0.error))
        && (table.Ok? && !(createCharsetDir && made.0.Err?) ==>
              && res.Ok? && fresh(res.value)
              && res.value.fontDct == Some(table.value)
              && res.value.charset == Some(CharsOf(Split(content)))
              && res.value.outDir == (if createCharsetDir then made.0.value else None))
        && fs.dirs == if table.Ok? && createCharsetDir then made.1 else old(fs.dirs)
    {
      var chars := CharsOf(Split(content));
      var table := LoadFontSet(r, walk);
      if table.Err? {
        return Err(table.error);
      }
      var outDir: Option<string> := None;
      if createCharsetDir {
        var made := CreateCharsetDir(fs, Some(chars), prefix, dirName, createPrefixDir);
        if made.Err? {
          return Err(made.error);
        }
        outDir := made.value;
      }
      var generator := new CharImageGenerator(outDir, Some(table.value), Some(chars));
      return Ok(generator);
    }

    /**
     * `load_font_set`: walks the font directory, keys every accepted file by its
     * stem and loads it at the default size; a font that does not load raises.
     */
    static method LoadFontSet(r: Renderer, walk: seq<WalkEntry>) returns (res: Result<map<string, Face>, Fault>)
      ensures res == FontTable(r, Keyed(Candidates(walk)), true)
    {
      var table: map<string, Face> := map[];
      var i := 0;
      while i < |walk|
        invariant 0 <= i <= |walk|
        invariant FontTable(r, Keyed(Candidates(walk[..i])), true) == Ok(table)
      {
        var scanned := ScanDirectory(r, walk[i].root, walk[i].names, table);
        WalkTableStep(r, walk, i, true, table);
        if scanned.Err? {
          WalkFailurePersists(r, walk, i + 1, true);
          return scanned;
        }
        table := scanned.value;
        i := i + 1;
      }
      assert walk[..i] == walk;
      return Ok(table);
    }

    /** The inner loop of `load_font_set`: the files of one directory, added to the table built so far. */
    static method ScanDirectory(r: Renderer, root: string, names: seq<string>, table: map<string, Face>)
      returns (res: Result<map<string, Face>, Fault>)
      ensures res == DirTable(r, root, names, true, table)
    {
      var acc := table;
      var j := 0;
      while j < |names|
        invariant 0 <= j <= |names|
        invariant DirTable(r, root, names[..j], true, table) == Ok(acc)
      {
        var name := names[j];
        assert names[..j + 1][..j] == names[..j];
        if IsFontFileName(name) {
          var stem := FileStem(name);
          if stem.None? {
            DirTableFailurePersists(r, root, names, j + 1, true, table);
            return Err(NoMatch);
          }
          var font := r.TrueType(Join(root, name), DefaultFontSize);
          if font.None? {
            DirTableFailurePersists(r, root, names, j + 1, true, table);
            return Err(FontUnusable(DefaultFontSize));
          }
          acc := acc[stem.value := font.value];
        }
        j := j + 1;
      }
      assert names[..j] == names;
      return Ok(acc);
    }

    /** `create_charset_dir`. */
    static method CreateCharsetDir(fs: FileSystem, charset: Option<seq<char>>, prefix: Option<string>, dirName: string, createPrefixDir: bool)
      returns (res: Result<Option<string>, Fault>)
      requires fs.Valid()
      modifies fs
      ensures fs.Valid() && fs.files == old(fs.files)
      ensures (res, fs.dirs) == CharsetDirEffect(old(fs.dirs), old(fs.files.Keys), charset, prefix, dirName, createPrefixDir)
    {
      if prefix.Some? && !fs.IsDir(prefix.value) {
        if !createPrefixDir {
          return Ok(None);
        }
        var made := fs.MakeDir(prefix.value);
        if made.Raised? {
          return Err(made.error);
        }
      }
      res := MakeCharsetDir(fs, charset, CharsetDirPath(prefix, dirName));
    }

    /** `create_charset_dir` once the prefix exists: the charset directory `dir` and its character directories. */
    static method MakeCharsetDir(fs: FileSystem, charset: Option<seq<char>>, dir: string) returns (res: Result<Option<string>, Fault>)
      requires fs.Valid()
      modifies fs
      ensures fs.Valid() && fs.files == old(fs.files)
      ensures (res, fs.dirs) == CharsetDirAt(old(fs.dirs), old(fs.files.Keys), charset, dir)
    {
      if fs.IsDir(dir) {
        return Ok(None);
      }
      var made := fs.MakeDir(dir);
      if made.Raised? {
        return Err(made.error);
      }
      if charset.None? {
        return Err(NoneValue);
      }
      var failed := MakeCharDirs(fs, dir, charset.value);
      if failed.Raised? {
        return Err(failed.error);
      }
      return Ok(Some(dir));
    }

    /** The character loop of `create_charset_dir`: `os.mkdir` of each character's directory, an existing one raising. */
    static method MakeCharDirs(fs: FileSystem, dir: string, cs: seq<char>) returns (out: Outcome<Fault>)
      requires fs.Valid()
      modifies fs
      ensures fs.Valid() && fs.files == old(fs.files)
      ensures var effect := CharDirsStrict(old(fs.dirs), old(fs.files.Keys), dir, cs);
        out == AsOutcome(effect.0) && fs.dirs == effect.1
    {
      ghost var dirs, files := fs.dirs, fs.files.Keys;
      var k := 0;
      while k < |cs|
        invariant 0 <= k <= |cs|
        invariant fs.Valid() && fs.files == old(fs.files)
        invariant CharDirsStrict(dirs, files, dir, cs[..k]) == (None, fs.dirs)
      {
        CharDirsStrictStep(dirs, files, dir, cs, k);
        var made := fs.MakeDir(CharDir(dir, cs[k]));
        if made.Raised? {
          CharDirsStrictFailurePersists(dirs, files, dir, cs, k + 1);
          return made;
        }
        k := k + 1;
      }
      assert cs[..k] == cs;
      return Done;
    }

    /**
     * `create_char_image`: the font object's `size` becomes the size searched
     * for `c` in a 32x32 fit, and the character is drawn with that object at its
     * jittered location in the cell.
     */
    method CreateCharImage(r: Renderer, sample: Pair, fuel: nat, c: char, fontName: string, jitter: Pair)
      returns (res: Result<Picture, Fault>)
      requires fontDct.Some? && fontName in fontDct.value
      requires WithinJitter(jitter, JitterBound(sample))
      modifies this
      ensures outDir == old(outDir) && charset == old(charset) && charsetSize == old(charsetSize)
      ensures var job, face := Job(Reassigning, r, sample, fuel), old(fontDct.value[fontName]);
        match job.Step(face, c)
        case Err(e) => res == Err(e) && fontDct == old(fontDct)
        case Ok(next) => fontDct == Some(old(fontDct.value)[fontName := next]) && res == Ok(job.CharPicture(next, c, jitter))
    {
      var face := fontDct.value[fontName];
      var est := EstimateFontSize(Probe(r, face, [c], sample), face, fuel);
      match est
      case Unopenable(s) =>
        return Err(FontUnusable(s));
      case Unsettled =>
        return Err(SizeSearchUnsettled);
      case Fitted(s) =>
        var sized := face.(size := s);
        fontDct := Some(fontDct.value[fontName := sized]);
        var loc := TextLocInSample(r, [c], sized, sample, Some(jitter));
        return Ok(Canvas(sample, [Mark([c], loc, sized)]));
    }

    /**
     * One pass of the inner loop of `create_and_save_charsets`: the image of `c`
     * (`drawn` is false when `create_char_image` raises), then its save.
     */
    method SaveCharImage(fs: FileSystem, r: Renderer, sample: Pair, fuel: nat, jitter: Pair, fontName: string, dir: string, c: char)
      returns (drawn: bool, out: Outcome<Fault>)
      requires fs.Valid() && WithinJitter(jitter, JitterBound(sample))
      requires fontDct.Some? && fontName in fontDct.value
      modifies this, fs
      ensures outDir == old(outDir) && charset == old(charset) && charsetSize == old(charsetSize)
      ensures fs.Valid() && fs.dirs == old(fs.dirs)
      ensures var job, face, path := Job(Reassigning, r, sample, fuel), old(fontDct.value[fontName]), CharImagePath(dir, c, fontName);
        match job.Step(face, c)
        case Err(_) => !drawn && out.Done? && fontDct == old(fontDct) && fs.files == old(fs.files)
        case Ok(next) =>
          && drawn && fontDct == Some(old(fontDct.value)[fontName := next])
          && out == AsOutcome(SaveFault(old(fs.dirs), old(fs.files.Keys), path))
          && fs.files == if out.Done? then old(fs.files)[path := job.CharPicture(next, c, jitter)] else old(fs.files)
    {
      var image := CreateCharImage(r, sample, fuel, c, fontName, jitter);
      if image.Err? {
        return false, Done;
      }
      out := fs.Save(CharImagePath(dir, c, fontName), image.value);
      return true, out;
    }

    /**
     * The inner loop of `create_and_save_charsets` for one font: each character's
     * image is saved to `<dir>/<code point>/<font>.png`; the first failing image
     * skips the rest of the font, a failing save raises.
     */
    method SaveFontImages(fs: FileSystem, r: Renderer, sample: Pair, fuel: nat, jitter: (string, nat) -> Pair,
                          fontName: string, dir: string, chars: seq<char>)
      returns (out: Outcome<Fault>)
      requires fs.Valid() && JitterOk(jitter, sample)
      requires fontDct.Some? && fontName in fontDct.value
      modifies this, fs
      ensures outDir == old(outDir) && charset == old(charset) && charsetSize == old(charsetSize)
      ensures fs.Valid() && fs.dirs == old(fs.dirs)
      ensures fontDct.Some? && fontName in fontDct.value && fontDct.value == old(fontDct.value)[fontName := fontDct.value[fontName]]
      ensures (out, fs.files, fontDct.value[fontName])
           == Job(Reassigning, r, sample, fuel).FontSaved(jitter, old(fs.dirs), old(fs.files), dir, fontName, old(fontDct.value[fontName]), chars, 0)
    {
      ghost var job := Job(Reassigning, r, sample, fuel);
      ghost var face := fontDct.value[fontName];
      ghost var table := fontDct.value;
      ghost var cur := face;
      assert table[fontName := cur] == table;
      assert chars[0..] == chars;
      var k := 0;
      while k < |chars|
        invariant 0 <= k <= |chars|
        invariant outDir == old(outDir) && charset == old(charset) && charsetSize == old(charsetSize)
        invariant fs.Valid() && fs.dirs == old(fs.dirs)
        invariant fontDct == Some(table[fontName := cur])
        invariant job.FontSaved(jitter, old(fs.dirs), old(fs.files), dir, fontName, face, chars, 0)
               == job.FontSaved(jitter, fs.dirs, fs.files, dir, fontName, cur, chars[k..], k)
      {
        var drawn, saved;
        ghost var next;
        drawn, saved, next := SaveCharImageAt(fs, r, sample, fuel, jitter, fontName, dir, chars, k, table, cur);
        if !drawn || saved.Raised? {
          return saved;
        }
        cur := next;
        k := k + 1;
      }
      assert chars[k..] == [];
      return Done;
    }

    /**
     * One pass of the character loop of SaveFontImages, `cur` being the font's
     * table entry: the image of character `k` and its save, which either end the
     * font's loop with what `FontSaved` gives or leave the rest of it to run from
     * the entry `next`.
     */
    method SaveCharImageAt(fs: FileSystem, r: Renderer, sample: Pair, fuel: nat, jitter: (string, nat) -> Pair,
                           fontName: string, dir: string, chars: seq<char>, k: nat, ghost table: map<string, Face>, ghost cur: Face)
      returns (drawn: bool, out: Outcome<Fault>, ghost next: Face)
      requires fs.Valid() && JitterOk(jitter, sample) && k < |chars|
      requires fontDct == Some(table[fontName := cur])
      modifies this, fs
      ensures outDir == old(outDir) && charset == old(charset) && charsetSize == old(charsetSize)
      ensures fs.Valid() && fs.dirs == old(fs.dirs)
      ensures fontDct == Some(table[fontName := next])
      ensures var job := Job(Reassigning, r, sample, fuel);
        && (drawn <==> job.Step(cur, chars[k]).Ok?)
        && (drawn ==> out == AsOutcome(SaveFault(old(fs.dirs), old(fs.files.Keys), CharImagePath(dir, chars[k], fontName))))
        && var rest := job.FontSaved(jitter, old(fs.dirs), old(fs.files), dir, fontName, cur, chars[k..], k);
           if drawn && out.Done? then rest == job.FontSaved(jitter, fs.dirs, fs.files, dir, fontName, next, chars[k + 1..], k + 1)
           else rest == (out, fs.files, next)
    {
      ghost var job := Job(Reassigning, r, sample, fuel);
      ghost var step := job.Step(cur, chars[k]);
      FontSavedAt(job, jitter, fs.dirs, fs.files, dir, fontName, cur, chars, k);
      drawn, out := SaveCharImage(fs, r, sample, fuel, jitter(fontName, k), fontName, dir, chars[k]);
      if !drawn {
        next := cur;
        return;
      }
      next := step.value;
      UpdateTwice(table, fontName, cur, next);
      assert job.DrawFace(cur, next) == next;
    }

    /**
     * `create_and_save_charsets`: the charset directory under `out_dir` (made
     * when missing), then for each font in the dict's order and each character
     * the image, saved to `<charset_dir>/<ord(char)>/<font_name>.png`, where an
     * existing charset directory makes `charset_dir` None and the paths start
     * with "None". A font whose image cannot be made is skipped from that
     * character on; a failing save raises.
     */
    method CreateAndSaveCharsets(fs: FileSystem, r: Renderer, sample: Pair, fuel: nat, jitter: (string, nat) -> Pair, order: seq<string>)
      returns (out: Outcome<Fault>)
      requires fs.Valid() && JitterOk(jitter, sample)
      requires fontDct.Some? ==> IsKeyOrder(order, fontDct.value)
      modifies this, fs
      ensures outDir == old(outDir) && charset == old(charset) && charsetSize == old(charsetSize)
      ensures fs.Valid()
      ensures var effect := CharsetDirEffect(old(fs.dirs), old(fs.files.Keys), charset, outDir, "charset", true);
        && fs.dirs == effect.1
        && (effect.0.Err? ==> out == Raised(effect.0.error) && fs.files == old(fs.files) && fontDct == old(fontDct))
        && (effect.0.Ok? && old(fontDct).None? ==> out == Raised(NoneValue) && fs.files == old(fs.files) && fontDct == old(fontDct))
        && (effect.0.Ok? && old(fontDct).Some? && charset.None? ==>
              out == (if order == [] then Done else Raised(NoneValue)) && fs.files == old(fs.files) && fontDct == old(fontDct))
        && (effect.0.Ok? && old(fontDct).Some? && charset.Some? ==>
              fontDct.Some? &&
              (out, fs.files, fontDct.value) == CharsetsSaved(Job(Reassigning, r, sample, fuel), jitter, effect.1, old(fs.files),
                                                              old(fontDct.value), Show(effect.0.value), charset.value, order))
    {
      var made := CreateCharsetDir(fs, charset, outDir, "charset", true);
      if made.Err? {
        return Raised(made.error);
      }
      if fontDct.None? {
        return Raised(NoneValue);
      }
      if charset.None? {
        return if order == [] then Done else Raised(NoneValue);
      }
      out := SaveCharsets(fs, r, sample, fuel, jitter, Show(made.value), charset.value, order);
    }

    /** The font loop of `create_and_save_charsets`, the charset directory being `dir`. */
    method SaveCharsets(fs: FileSystem, r: Renderer, sample: Pair, fuel: nat, jitter: (string, nat) -> Pair,
                        dir: string, chars: seq<char>, order: seq<string>)
      returns (out: Outcome<Fault>)
      requires fs.Valid() && JitterOk(jitter, sample)
      requires fontDct.Some? && forall n <- order :: n in fontDct.value
      modifies this, fs
      ensures outDir == old(outDir) && charset == old(charset) && charsetSize == old(charsetSize)
      ensures fs.Valid() && fs.dirs == old(fs.dirs)
      ensures fontDct.Some?
      ensures (out, fs.files, fontDct.value)
           == CharsetsSaved(Job(Reassigning, r, sample, fuel), jitter, old(fs.dirs), old(fs.files), old(fontDct.value), dir, chars, order)
    {
      ghost var job := Job(Reassigning, r, sample, fuel);
      ghost var files, table := fs.files, fontDct.value;
      var i := 0;
      while i < |order|
        invariant 0 <= i <= |order|
        invariant outDir == old(outDir) && charset == old(charset) && charsetSize == old(charsetSize)
        invariant fs.Valid() && fs.dirs == old(fs.dirs)
        invariant fontDct.Some? && fontDct.value.Keys == table.Keys
        invariant (Done, fs.files, fontDct.value) == CharsetsSaved(job, jitter, fs.dirs, files, table, dir, chars, order[..i])
      {
        CharsetsSavedStep(job, jitter, fs.dirs, files, table, dir, chars, order, i);
        var saved := SaveFontImages(fs, r, sample, fuel, jitter, order[i], dir, chars);
        if saved.Raised? {
          CharsetsSavedRaisedPersists(job, jitter, fs.dirs, files, table, dir, chars, order, i + 1);
          return saved;
        }
        i := i + 1;
      }
      assert order[..i] == order;
      return Done;
    }

    /**
     * `create_sprites`: with fonts and characters present, a sheet per font in
     * `<out_dir>/sprites` ("None/sprites" without an output directory), made
     * with `os.mkdir` when missing; boards that exist are skipped, the others
     * drawn on a `get_near_dim_2d(len(charset))` board and saved. Without fonts
     * or characters it does nothing.
     */
    method CreateSprites(fs: FileSystem, r: Renderer, sample: Pair, fuel: nat, jitter: (string, nat) -> Pair, order: seq<string>)
      returns (out: Outcome<Fault>)
      requires fs.Valid() && JitterOk(jitter, sample)
      requires fontDct.Some? ==> IsKeyOrder(order, fontDct.value)
      modifies this, fs
      ensures outDir == old(outDir) && charset == old(charset) && charsetSize == old(charsetSize)
      ensures fs.Valid()
      ensures old(fontDct.None? || fontDct.value == map[] || charset.None? || charset.value == []) ==>
        out.Done? && fs.dirs == old(fs.dirs) && fs.files == old(fs.files) && fontDct == old(fontDct)
      ensures var dir := Show(outDir) + "/sprites";
        old(fontDct.Some? && fontDct.value != map[] && charset.Some? && charset.value != []) ==>
          if !old(fs.IsDir(dir)) && MkDirFault(old(fs.dirs), old(fs.files.Keys), dir).Some? then
            out == Raised(MkDirFault(old(fs.dirs), old(fs.files.Keys), dir).value)
            && fs.dirs == old(fs.dirs) && fs.files == old(fs.files) && fontDct == old(fontDct)
          else
            var dirs := if old(fs.IsDir(dir)) then old(fs.dirs) else old(fs.dirs) + {Norm(dir)};
            var board := SpriteBoard(|charset.value|, sample);
            var after := SpriteSheets(Job(Reassigning, r, sample, fuel), jitter, dirs, old(fs.files), old(fontDct.value), dir, charset.value, board, order);
            out == after.0 && fs.dirs == dirs && fs.files == after.1 && fontDct == Some(after.2)
    {
      if fontDct.None? || fontDct.value == map[] || charset.None? || charset.value == [] {
        return Done;
      }
      var chars := charset.value;
      var shape := GetNearDim2d(|chars|, true);
      var board := CreateWhiteboard(None, Some(shape), sample).value;
      var dir := Show(outDir) + "/sprites";
      if !fs.IsDir(dir) {
        var made := fs.MakeDir(dir);
        if made.Raised? {
          return made;
        }
      }
      out := SaveSpriteSheets(fs, Job(Reassigning, r, sample, fuel), jitter, dir, chars, board, order);
    }

    /** The font loop of `create_sprites`, the sprites directory being `dir`. */
    method SaveSpriteSheets(fs: FileSystem, job: Job, jitter: (string, nat) -> Pair, dir: string, chars: seq<char>, board: Pair, order: seq<string>)
      returns (out: Outcome<Fault>)
      requires fs.Valid() && JitterOk(jitter, job.sample)
      requires fontDct.Some? && forall n <- order :: n in fontDct.value
      modifies this, fs
      ensures outDir == old(outDir) && charset == old(charset) && charsetSize == old(charsetSize)
      ensures fs.Valid() && fs.dirs == old(fs.dirs)
      ensures var after := SpriteSheets(job, jitter, old(fs.dirs), old(fs.files), old(fontDct.value), dir, chars, board, order);
        out == after.0 && fs.files == after.1 && fontDct == Some(after.2)
    {
      ghost var files, table := fs.files, fontDct.value;
      var i := 0;
      while i < |order|
        invariant 0 <= i <= |order|
        invariant outDir == old(outDir) && charset == old(charset) && charsetSize == old(charsetSize)
        invariant fs.Valid() && fs.dirs == old(fs.dirs)
        invariant fontDct.Some? && fontDct.value.Keys == table.Keys
        invariant (Done, fs.files, fontDct.value) == SpriteSheets(job, jitter, fs.dirs, files, table, dir, chars, board, order[..i])
      {
        out := SaveSpriteSheetAt(fs, job, jitter, dir, chars, board, order, i, files, table);
        if out.Raised? {
          SpriteSheetsRaisedPersists(job, jitter, fs.dirs, files, table, dir, chars, board, order, i + 1);
          return;
        }
        i := i + 1;
      }
      out := Done;
      assert order[..i] == order;
    }

    /**
     * One pass of the font loop of SaveSpriteSheets, the fonts before `i` being
     * done: font `order[i]`'s sheet is skipped, or sized, drawn and saved.
     */
    method SaveSpriteSheetAt(fs: FileSystem, job: Job, jitter: (string, nat) -> Pair, dir: string, chars: seq<char>, board: Pair,
                             order: seq<string>, i: nat, ghost files: map<string, Picture>, ghost table: map<string, Face>)
      returns (out: Outcome<Fault>)
      requires fs.Valid() && JitterOk(jitter, job.sample) && i < |order|
      requires (forall n <- order :: n in table) && fontDct.Some? && fontDct.value.Keys == table.Keys
      requires (Done, fs.files, fontDct.value) == SpriteSheets(job, jitter, fs.dirs, files, table, dir, chars, board, order[..i])
      modifies this, fs
      ensures outDir == old(outDir) && charset == old(charset) && charsetSize == old(charsetSize)
      ensures fs.Valid() && fs.dirs == old(fs.dirs)
      ensures fontDct.Some? && fontDct.value.Keys == table.Keys
      ensures (out, fs.files, fontDct.value) == SpriteSheets(job, jitter, fs.dirs, files, table, dir, chars, board, order[..i + 1])
    {
      SpriteSheetsStep(job, jitter, fs.dirs, files, table, dir, chars, board, order, i);
      var name := order[i];
      if fs.IsFile(BoardPath(dir, name)) {
        return Done;
      }
      var sized;
      sized, out := SaveSpriteSheet(fs, job, jitter, dir, name, fontDct.value[name], chars, board);
      fontDct := Some(fontDct.value[name := sized]);
    }
  }
}
