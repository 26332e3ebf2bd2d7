/**
 * The file system as the generator sees it through `os.walk`, `os.listdir`,
 * `os.path.isdir`, `os.path.isfile`, `os.mkdir`, `os.makedirs` and PIL's
 * `save`: a set of directory paths and a map from file paths to pictures.
 * Paths are compared as strings after removing trailing '/'s.
 */
module Disk {
  import opened Wrappers
  import opened Paths
  import opened Raster

  /** The exceptions the modelled code raises or catches. */
  datatype Fault =
    | FileExists(path: string)       // FileExistsError
    | FileNotFound(path: string)     // FileNotFoundError
    | NotADirectory(path: string)    // NotADirectoryError
    | IsADirectory(path: string)     // IsADirectoryError
    | FontUnusable(size: int)        // OSError from ImageFont.truetype
    | SizeSearchUnsettled            // the size search did not settle within its step budget
    | NoneValue                      // TypeError/AttributeError from using None as a list or dict
    | NoMatch                        // AttributeError from `.group` on a failed regex search
    | EmptyChoice                    // IndexError from random.choice on an empty list
    | NoLabel                        // IndexError from `rsplit('/')[-2]` on a one-component path
    | BadKeyword(name: string)       // TypeError from a call with an unexpected keyword argument

  /** One triple `(root, dirs, files)` of `os.walk`; the sub-directory names are not used. */
  datatype WalkEntry = WalkEntry(root: string, names: seq<string>)

  /** `os.path.isdir` over a set of directories. */
  predicate IsDirIn(dirs: set<string>, p: string) {
    var q := Norm(p);
    q in dirs || q == "." || q == "/"
  }

  /** The parent of `p` exists as a directory ("" is the working directory). */
  predicate ParentPresent(dirs: set<string>, p: string) {
    Parent(p) == "" || IsDirIn(dirs, Parent(p))
  }

  /** Some ancestor of `p` is a regular file, so resolving `p` fails with ENOTDIR. */
  predicate UnderFile(files: set<string>, p: string) {
    exists a <- DirChain(Parent(p)) :: a in files
  }

  /** Why `os.mkdir(p)` fails, if it does. */
  function MkDirFault(dirs: set<string>, files: set<string>, p: string): Option<Fault> {
    var q := Norm(p);
    if q == "" then Some(FileNotFound(p))
    else if IsDirIn(dirs, q) || q in files then Some(FileExists(p))
    else if ParentPresent(dirs, q) then None
    else if UnderFile(files, q) then Some(NotADirectory(p))
    else Some(FileNotFound(p))
  }

  /** Inside an existing directory, `os.mkdir` fails only on an existing entry. */
  lemma MkDirInExistingDir(dirs: set<string>, files: set<string>, p: string)
    requires Norm(p) == p && !IsRoot(p) && ParentPresent(dirs, p)
    ensures MkDirFault(dirs, files, p) == if p in dirs || p in files then Some(FileExists(p)) else None
  {
  }

  /** Why `os.makedirs(p, exist_ok=existOk)` fails, if it does. */
  function MakeDirsFault(dirs: set<string>, files: set<string>, p: string, existOk: bool): Option<Fault> {
    var q := Norm(p);
    if q in files then Some(FileExists(p))
    else if IsDirIn(dirs, q) then (if existOk then None else Some(FileExists(p)))
    else if q == "" then Some(FileNotFound(p))
    else if exists a <- DirChain(q) :: a in files then Some(NotADirectory(p))
    else None
  }

  /** The directories after a successful `os.makedirs(p)`. */
  function MakeDirsResult(dirs: set<string>, p: string): set<string> {
    if IsDirIn(dirs, p) then dirs else dirs + DirChain(Norm(p))
  }

  /** Why `os.listdir(p)` fails, if it does: only an existing directory can be listed. */
  function ListDirFault(dirs: set<string>, files: set<string>, p: string): (fault: Option<Fault>)
    ensures fault.None? <==> IsDirIn(dirs, p)
  {
    var q := Norm(p);
    if IsDirIn(dirs, p) then None
    else if q in files || UnderFile(files, q) then Some(NotADirectory(p))
    else Some(FileNotFound(p))
  }

  /** Listing below a regular file, or a file written with a trailing '/', fails with NotADirectoryError. */
  lemma ListDirBelowFile()
    ensures ListDirFault({}, {"f"}, "f/x") == Some(NotADirectory("f/x"))
    ensures ListDirFault({}, {"f"}, "f/") == Some(NotADirectory("f/"))
  {
    assert Norm("f/x") == "f/x";
    assert LastIndex("f/x", '/') == 1 by { LastIndexUnique("f/x", '/', 1); }
    assert Parent("f/x") == "f";
    assert "f" in DirChain("f");
    assert "f/"[..1] == "f";
    assert Norm("f/") == "f";
  }

  /** Why writing the file `p` fails, if it does. */
  function SaveFault(dirs: set<string>, files: set<string>, p: string): Option<Fault> {
    if p == "" then Some(FileNotFound(p))
    else if IsDirIn(dirs, p) then Some(IsADirectory(p))
    else if ParentPresent(dirs, p) then None
    else if UnderFile(files, p) then Some(NotADirectory(p))
    else Some(FileNotFound(p))
  }

  function AsOutcome(fault: Option<Fault>): Outcome<Fault> {
    match fault
    case None => Done
    case Some(e) => Raised(e)
  }

  class FileSystem {
    var dirs: set<string>
    var files: map<string, Picture>

    /** A tree: no path is both a file and a directory, and every entry's parent exists. */
    ghost predicate Valid()
      reads this
    {
      && dirs !! files.Keys
      && (forall d <- dirs :: Norm(d) == d)
      && (forall d <- dirs :: !IsRoot(d) && ParentPresent(dirs, d))
      && (forall f <- files :: !IsRoot(f) && ParentPresent(dirs, f))
    }

    constructor (dirs: set<string>, files: map<string, Picture>)
      requires dirs !! files.Keys
      requires forall d <- dirs :: Norm(d) == d
      requires forall d <- dirs :: !IsRoot(d) && ParentPresent(dirs, d)
      requires forall f <- files :: !IsRoot(f) && ParentPresent(dirs, f)
      ensures Valid() && this.dirs == dirs && this.files == files
    {
      this.dirs := dirs;
      this.files := files;
    }

    function IsDir(p: string): bool
      reads this
    {
      IsDirIn(dirs, p)
    }

    function IsFile(p: string): bool
      reads this
    {
      p in files
    }

    /** `bool(os.listdir(d))`: whether some file or directory lives directly in `d`. */
    function HasEntries(d: string): bool
      reads this
    {
      (exists e <- dirs :: Norm(Parent(e)) == Norm(d)) || (exists e <- files :: Norm(Parent(e)) == Norm(d))
    }

    /** `os.mkdir(p)`. */
    method MakeDir(p: string) returns (out: Outcome<Fault>)
      requires Valid()
      modifies this
      ensures Valid() && files == old(files)
      ensures out == AsOutcome(MkDirFault(old(dirs), old(files.Keys), p))
      ensures dirs == if out.Done? then old(dirs) + {Norm(p)} else old(dirs)
    {
      var q := Norm(p);
      if q == "" {
        return Raised(FileNotFound(p));
      }
      if IsDir(q) || q in files {
        return Raised(FileExists(p));
      }
      if ParentPresent(dirs, q) {
        dirs := dirs + {q};
        return Done;
      }
      if UnderFile(files.Keys, q) {
        return Raised(NotADirectory(p));
      }
      return Raised(FileNotFound(p));
    }

    /**
     * `os.makedirs(p, exist_ok=existOk)`: creates `p` and every missing ancestor.
     * An existing directory is an error only without `existOk`; an existing file
     * always is.
     */
    method MakeDirs(p: string, existOk: bool) returns (out: Outcome<Fault>)
      requires Valid()
      modifies this
      ensures Valid() && files == old(files)
      ensures out == AsOutcome(MakeDirsFault(old(dirs), old(files.Keys), p, existOk))
      ensures dirs == if out.Done? then MakeDirsResult(old(dirs), p) else old(dirs)
      ensures out.Done? ==> IsDir(p)
    {
      var q := Norm(p);
      if q in files {
        return Raised(FileExists(p));
      }
      if IsDir(q) {
        return if existOk then Done else Raised(FileExists(p));
      }
      if q == "" {
        return Raised(FileNotFound(p));
      }
      if exists a <- DirChain(q) :: a in files {
        return Raised(NotADirectory(p));
      }
      DirChainClosed(q);
      dirs := dirs + DirChain(q);
      return Done;
    }

    /** `picture.save(p)`: writes (or overwrites) the file `p`. */
    method Save(p: string, picture: Picture) returns (out: Outcome<Fault>)
      requires Valid()
      modifies this
      ensures Valid() && dirs == old(dirs)
      ensures out == AsOutcome(SaveFault(old(dirs), old(files.Keys), p))
      ensures files == if out.Done? then old(files)[p := picture] else old(files)
    {
      if p == "" {
        return Raised(FileNotFound(p));
      }
      if IsDir(p) {
        return Raised(IsADirectory(p));
      }
      if ParentPresent(dirs, p) {
        files := files[p := picture];
        return Done;
      }
      if UnderFile(files.Keys, p) {
        return Raised(NotADirectory(p));
      }
      return Raised(FileNotFound(p));
    }
  }

  /** A directory that does not exist has nothing in it. */
  lemma AbsentDirIsEmpty(fs: FileSystem, d: string)
    requires fs.Valid() && !fs.IsDir(d) && Norm(d) != ""
    ensures !fs.HasEntries(d)
  {
  }
}
