/**
 * The font discovery of `load_font_set`: the files `os.walk` reports whose
 * names the font pattern accepts, in walk order, and the table from file stem
 * to font object that the class-based generators build from them.
 */
module FontSet {
  import opened Wrappers
  import opened Paths
  import opened Raster
  import opened Disk

  /** A font file found by the walk: `os.path.join(root, file)` and `file`. */
  datatype FontFile = FontFile(path: string, name: string)

  function Found(root: string, name: string): FontFile {
    FontFile(Join(root, name), name)
  }

  /** A found file with the key `get_file_name` gives it (None where the pattern fails). */
  datatype KeyedFont = KeyedFont(path: string, stem: Option<string>)

  /** The found files keyed by stem, in order. */
  function Keyed(found: seq<FontFile>): (keyed: seq<KeyedFont>)
    ensures |keyed| == |found|
    decreases |found|
  {
    if found == [] then []
    else
      var f := found[|found| - 1];
      Keyed(found[..|found| - 1]) + [KeyedFont(f.path, FileStem(f.name))]
  }

  /** The accepted files of one directory, in listing order. */
  function Accepted(root: string, names: seq<string>): (found: seq<FontFile>)
    decreases |names|
  {
    if names == [] then []
    else
      var n := names[|names| - 1];
      Accepted(root, names[..|names| - 1]) + (if IsFontFileName(n) then [Found(root, n)] else [])
  }

  /** The accepted files of a whole walk, directory after directory. */
  function Candidates(walk: seq<WalkEntry>): (found: seq<FontFile>)
    decreases |walk|
  {
    if walk == [] then []
    else Candidates(walk[..|walk| - 1]) + Accepted(walk[|walk| - 1].root, walk[|walk| - 1].names)
  }

  /** `f` is found for an accepted name of the listing `names` of `root`. */
  predicate FoundIn(root: string, names: seq<string>, f: FontFile) {
    exists j :: 0 <= j < |names| && IsFontFileName(names[j]) && f == Found(root, names[j])
  }

  /** A directory contributes exactly its accepted names, joined to it. */
  lemma {:induction false} AcceptedMembers(root: string, names: seq<string>)
    ensures forall f :: f in Accepted(root, names) <==> FoundIn(root, names, f)
    decreases |names|
  {
    if names != [] {
      var m := |names| - 1;
      var prev := names[..m];
      AcceptedMembers(root, prev);
      forall f ensures f in Accepted(root, names) <==> FoundIn(root, names, f) {
        if FoundIn(root, names, f) {
          var j :| 0 <= j < |names| && IsFontFileName(names[j]) && f == Found(root, names[j]);
          if j < m {
            assert prev[j] == names[j];
            assert FoundIn(root, prev, f);
          }
        }
        if FoundIn(root, prev, f) {
          var j :| 0 <= j < m && IsFontFileName(prev[j]) && f == Found(root, prev[j]);
          assert prev[j] == names[j];
        }
      }
    }
  }

  /** `f` is found in some directory of the walk. */
  predicate FoundInWalk(walk: seq<WalkEntry>, f: FontFile) {
    exists i :: 0 <= i < |walk| && FoundIn(walk[i].root, walk[i].names, f)
  }

  /** The walk finds exactly the accepted names of every directory it visits, joined to that directory. */
  lemma {:induction false} CandidatesMembers(walk: seq<WalkEntry>)
    ensures forall f :: f in Candidates(walk) <==> FoundInWalk(walk, f)
    decreases |walk|
  {
    if walk != [] {
      var m := |walk| - 1;
      var prev := walk[..m];
      CandidatesMembers(prev);
      AcceptedMembers(walk[m].root, walk[m].names);
      forall f ensures f in Candidates(walk) <==> FoundInWalk(walk, f) {
        if FoundInWalk(walk, f) {
          var i :| 0 <= i < |walk| && FoundIn(walk[i].root, walk[i].names, f);
          if i < m {
            assert prev[i] == walk[i];
            assert FoundInWalk(prev, f);
          }
        }
        if FoundInWalk(prev, f) {
          var i :| 0 <= i < m && FoundIn(prev[i].root, prev[i].names, f);
          assert prev[i] == walk[i];
        }
      }
    }
  }

  /** The files of one directory seen so far come first among all of its files. */
  lemma {:induction false} AcceptedPrefix(root: string, names: seq<string>, j: nat)
    requires j <= |names|
    ensures Accepted(root, names[..j]) <= Accepted(root, names)
    decreases |names| - j
  {
    if j < |names| {
      AcceptedPrefix(root, names, j + 1);
      assert names[..j + 1][..j] == names[..j];
    } else {
      assert names[..j] == names;
    }
  }

  /** The files of the directories walked so far come first among all the walk's files. */
  lemma {:induction false} CandidatesPrefix(walk: seq<WalkEntry>, i: nat)
    requires i <= |walk|
    ensures Candidates(walk[..i]) <= Candidates(walk)
    decreases |walk| - i
  {
    if i < |walk| {
      CandidatesPrefix(walk, i + 1);
      assert walk[..i + 1][..i] == walk[..i];
    } else {
      assert walk[..i] == walk;
    }
  }

  lemma KeyedAppend(found: seq<FontFile>, f: FontFile)
    ensures Keyed(found + [f]) == Keyed(found) + [KeyedFont(f.path, FileStem(f.name))]
  {
    assert (found + [f])[..|found|] == found;
  }

  lemma {:induction false} KeyedPrefix(a: seq<FontFile>, b: seq<FontFile>)
    requires a <= b
    ensures Keyed(a) <= Keyed(b)
    decreases |b|
  {
    if |a| < |b| {
      assert a <= b[..|b| - 1];
      KeyedPrefix(a, b[..|b| - 1]);
    } else {
      assert a == b;
    }
  }

  /** `ImageFont.truetype(path)` succeeds at PIL's default size. */
  predicate Loads(r: Renderer, f: KeyedFont) {
    r.opens(f.path, DefaultFontSize)
  }

  function Loaded(f: KeyedFont): Face {
    Face(f.path, DefaultFontSize, DefaultFontSize)
  }

  /**
   * Adding one file to the `font_dct` built so far, keyed by `get_file_name`. A
   * later file with the same stem overwrites an earlier one. A name the stem
   * pattern rejects raises; a font that does not load is skipped, or raises
   * when `strict` (im_gen.py has no `except OSError`).
   */
  function AddFont(r: Renderer, f: KeyedFont, strict: bool, table: map<string, Face>): Result<map<string, Face>, Fault> {
    match f.stem
    case None => Err(NoMatch)
    case Some(stem) =>
      if Loads(r, f) then Ok(table[stem := Loaded(f)])
      else if strict then Err(FontUnusable(DefaultFontSize))
      else Ok(table)
  }

  /** The `font_dct` built from `files` in order; the first failure is final. */
  function FontTable(r: Renderer, files: seq<KeyedFont>, strict: bool): Result<map<string, Face>, Fault>
    decreases |files|
  {
    if files == [] then Ok(map[])
    else
      match FontTable(r, files[..|files| - 1], strict)
      case Err(e) => Err(e)
      case Ok(table) => AddFont(r, files[|files| - 1], strict, table)
  }

  /** One more file on a table built so far. */
  lemma FontTableAppend(r: Renderer, files: seq<KeyedFont>, f: KeyedFont, strict: bool, table: map<string, Face>)
    requires FontTable(r, files, strict) == Ok(table)
    ensures FontTable(r, files + [f], strict) == AddFont(r, f, strict, table)
  {
    assert (files + [f])[..|files|] == files;
  }

  /** Once the table fails on a prefix of the files, it fails the same way on all of them. */
  lemma {:induction false} FontTableFailurePersists(r: Renderer, a: seq<KeyedFont>, b: seq<KeyedFont>, strict: bool)
    requires a <= b && FontTable(r, a, strict).Err?
    ensures FontTable(r, b, strict) == FontTable(r, a, strict)
    decreases |b|
  {
    if |a| < |b| {
      assert a <= b[..|b| - 1];
      FontTableFailurePersists(r, a, b[..|b| - 1], strict);
    } else {
      assert a == b;
    }
  }

  /** Looking at one more name of a directory finds it when it is accepted. */
  lemma AcceptedStep(before: seq<FontFile>, root: string, names: seq<string>, j: nat)
    requires j < |names|
    ensures before + Accepted(root, names[..j + 1])
      == before + Accepted(root, names[..j]) + (if IsFontFileName(names[j]) then [Found(root, names[j])] else [])
  {
    assert names[..j + 1][..j] == names[..j];
  }

  /** A name the pattern rejects leaves the table as it is. */
  lemma TableScanSkip(r: Renderer, before: seq<FontFile>, root: string, names: seq<string>, j: nat, strict: bool, table: map<string, Face>)
    requires j < |names| && !IsFontFileName(names[j])
    requires FontTable(r, Keyed(before + Accepted(root, names[..j])), strict) == Ok(table)
    ensures FontTable(r, Keyed(before + Accepted(root, names[..j + 1])), strict) == Ok(table)
  {
    assert before + Accepted(root, names[..j + 1]) == before + Accepted(root, names[..j]) by {
      AcceptedStep(before, root, names, j);
    }
  }

  /** An accepted name adds its font to the table built before it. */
  lemma TableScanAdd(r: Renderer, before: seq<FontFile>, root: string, names: seq<string>, j: nat, strict: bool, table: map<string, Face>)
    requires j < |names| && IsFontFileName(names[j])
    requires FontTable(r, Keyed(before + Accepted(root, names[..j])), strict) == Ok(table)
    ensures FontTable(r, Keyed(before + Accepted(root, names[..j + 1])), strict)
      == AddFont(r, KeyedFont(Join(root, names[j]), FileStem(names[j])), strict, table)
  {
    var seen := before + Accepted(root, names[..j]);
    AcceptedStep(before, root, names, j);
    var f := Found(root, names[j]);
    KeyedAppend(seen, f);
    FontTableAppend(r, Keyed(seen), KeyedFont(f.path, FileStem(f.name)), strict, table);
  }

  /** The table after adding the fonts of the listing `names` of `root` to `table`, in order. */
  function DirTable(r: Renderer, root: string, names: seq<string>, strict: bool, table: map<string, Face>): Result<map<string, Face>, Fault>
    decreases |names|
  {
    if names == [] then Ok(table)
    else
      match DirTable(r, root, names[..|names| - 1], strict, table)
      case Err(e) => Err(e)
      case Ok(t) =>
        var n := names[|names| - 1];
        if IsFontFileName(n) then AddFont(r, KeyedFont(Join(root, n), FileStem(n)), strict, t) else Ok(t)
  }

  /** Scanning one more directory continues the table of everything found before it. */
  lemma {:induction false} DirTableExtends(r: Renderer, before: seq<FontFile>, root: string, names: seq<string>, strict: bool, table: map<string, Face>)
    requires FontTable(r, Keyed(before), strict) == Ok(table)
    ensures FontTable(r, Keyed(before + Accepted(root, names)), strict) == DirTable(r, root, names, strict, table)
    decreases |names|
  {
    if names == [] {
      assert before + Accepted(root, names) == before;
    } else {
      var prev := names[..|names| - 1];
      DirTableExtends(r, before, root, prev, strict, table);
      match DirTable(r, root, prev, strict, table)
      case Err(_) => DirTableFailureStep(r, before, root, names, strict, table);
      case Ok(t) => DirTableStep(r, before, root, names, strict, table, t);
    }
  }

  /** The step of `DirTableExtends` after a failure. */
  lemma DirTableFailureStep(r: Renderer, before: seq<FontFile>, root: string, names: seq<string>, strict: bool, table: map<string, Face>)
    requires names != []
    requires DirTable(r, root, names[..|names| - 1], strict, table).Err?
    requires FontTable(r, Keyed(before + Accepted(root, names[..|names| - 1])), strict) == DirTable(r, root, names[..|names| - 1], strict, table)
    ensures FontTable(r, Keyed(before + Accepted(root, names)), strict) == DirTable(r, root, names, strict, table)
  {
    var prev := names[..|names| - 1];
    AcceptedPrefix(root, names, |names| - 1);
    assert before + Accepted(root, prev) <= before + Accepted(root, names);
    KeyedPrefix(before + Accepted(root, prev), before + Accepted(root, names));
    FontTableFailurePersists(r, Keyed(before + Accepted(root, prev)), Keyed(before + Accepted(root, names)), strict);
  }

  /** The step of `DirTableExtends` on a table built so far. */
  lemma DirTableStep(r: Renderer, before: seq<FontFile>, root: string, names: seq<string>, strict: bool, table: map<string, Face>, t: map<string, Face>)
    requires names != []
    requires DirTable(r, root, names[..|names| - 1], strict, table) == Ok(t)
    requires FontTable(r, Keyed(before + Accepted(root, names[..|names| - 1])), strict) == Ok(t)
    ensures FontTable(r, Keyed(before + Accepted(root, names)), strict) == DirTable(r, root, names, strict, table)
  {
    var m := |names| - 1;
    assert names[..m + 1] == names;
    if IsFontFileName(names[m]) {
      TableScanAdd(r, before, root, names, m, strict, t);
    } else {
      TableScanSkip(r, before, root, names, m, strict, t);
    }
  }

  /** Once the table of a directory fails part-way, it fails the same way for the whole listing. */
  lemma {:induction false} DirTableFailurePersists(r: Renderer, root: string, names: seq<string>, j: nat, strict: bool, table: map<string, Face>)
    requires j <= |names| && DirTable(r, root, names[..j], strict, table).Err?
    ensures DirTable(r, root, names, strict, table) == DirTable(r, root, names[..j], strict, table)
    decreases |names| - j
  {
    if j == |names| {
      assert names[..j] == names;
    } else {
      assert names[..j + 1][..j] == names[..j];
      DirTableFailurePersists(r, root, names, j + 1, strict, table);
    }
  }

  /** The walk up to directory `i` included. */
  lemma CandidatesStep(walk: seq<WalkEntry>, i: nat)
    requires i < |walk|
    ensures Candidates(walk[..i + 1]) == Candidates(walk[..i]) + Accepted(walk[i].root, walk[i].names)
  {
    assert walk[..i + 1][..i] == walk[..i];
  }

  /** A failure after the first `k` directories is the failure of the whole walk. */
  lemma WalkFailurePersists(r: Renderer, walk: seq<WalkEntry>, k: nat, strict: bool)
    requires k <= |walk| && FontTable(r, Keyed(Candidates(walk[..k])), strict).Err?
    ensures FontTable(r, Keyed(Candidates(walk)), strict) == FontTable(r, Keyed(Candidates(walk[..k])), strict)
  {
    CandidatesPrefix(walk, k);
    KeyedPrefix(Candidates(walk[..k]), Candidates(walk));
    FontTableFailurePersists(r, Keyed(Candidates(walk[..k])), Keyed(Candidates(walk)), strict);
  }

  /** The table of directory `i` continues the table of the walk so far. */
  lemma WalkTableStep(r: Renderer, walk: seq<WalkEntry>, i: nat, strict: bool, table: map<string, Face>)
    requires i < |walk| && FontTable(r, Keyed(Candidates(walk[..i])), strict) == Ok(table)
    ensures FontTable(r, Keyed(Candidates(walk[..i + 1])), strict) == DirTable(r, walk[i].root, walk[i].names, strict, table)
  {
    CandidatesStep(walk, i);
    DirTableExtends(r, Candidates(walk[..i]), walk[i].root, walk[i].names, strict, table);
  }

  /** The last loadable file with the stem of file `i` is file `i` itself. */
  predicate LastLoadable(r: Renderer, files: seq<KeyedFont>, i: nat)
    requires i < |files|
  {
    forall j :: i < j < |files| && Loads(r, files[j]) ==> files[j].stem != files[i].stem
  }

  /** Every name has a stem and, when strict, every font loads. */
  predicate AllUsable(r: Renderer, files: seq<KeyedFont>, strict: bool) {
    forall i :: 0 <= i < |files| ==> files[i].stem.Some? && (strict ==> Loads(r, files[i]))
  }

  /** Some loadable file has stem `k`. */
  predicate HasLoadable(r: Renderer, files: seq<KeyedFont>, k: string) {
    exists i :: 0 <= i < |files| && Loads(r, files[i]) && files[i].stem == Some(k)
  }

  /** The table is built exactly when every name has a stem (and, when strict, every font loads). */
  lemma {:induction false} FontTableSucceeds(r: Renderer, files: seq<KeyedFont>, strict: bool)
    ensures FontTable(r, files, strict).Ok? <==> AllUsable(r, files, strict)
    decreases |files|
  {
    if files != [] {
      var m := |files| - 1;
      var prev := files[..m];
      FontTableSucceeds(r, prev, strict);
      if FontTable(r, files, strict).Ok? {
        forall i | 0 <= i < |files| ensures files[i].stem.Some? && (strict ==> Loads(r, files[i])) {
          if i < m {
            assert prev[i] == files[i];
          }
        }
      }
      if AllUsable(r, files, strict) {
        forall i | 0 <= i < m ensures prev[i].stem.Some? && (strict ==> Loads(r, prev[i])) {
          assert prev[i] == files[i];
        }
      }
    }
  }

  /** Its keys are the stems of the fonts that load. */
  lemma {:induction false} FontTableKeys(r: Renderer, files: seq<KeyedFont>, strict: bool)
    requires FontTable(r, files, strict).Ok?
    ensures forall k :: k in FontTable(r, files, strict).value <==> HasLoadable(r, files, k)
    decreases |files|
  {
    if files != [] {
      var m := |files| - 1;
      var prev := files[..m];
      FontTableKeys(r, prev, strict);
      var table := FontTable(r, files, strict).value;
      forall k ensures k in table <==> HasLoadable(r, files, k) {
        if HasLoadable(r, prev, k) {
          var i :| 0 <= i < m && Loads(r, prev[i]) && prev[i].stem == Some(k);
          assert files[i] == prev[i];
        }
        if HasLoadable(r, files, k) {
          var i :| 0 <= i < |files| && Loads(r, files[i]) && files[i].stem == Some(k);
          if i < m {
            assert files[i] == prev[i];
          }
        }
      }
    }
  }

  /** The entry of a stem is the font loaded from the last loadable file with that stem. */
  lemma {:induction false} FontTableValues(r: Renderer, files: seq<KeyedFont>, strict: bool, i: nat)
    requires FontTable(r, files, strict).Ok?
    requires i < |files| && Loads(r, files[i]) && LastLoadable(r, files, i)
    ensures files[i].stem.Some?
    ensures files[i].stem.value in FontTable(r, files, strict).value
    ensures FontTable(r, files, strict).value[files[i].stem.value] == Loaded(files[i])
    decreases |files|
  {
    var m := |files| - 1;
    var prev := files[..m];
    if i < m {
      assert prev[i] == files[i];
      assert LastLoadable(r, prev, i);
      FontTableValues(r, prev, strict, i);
    }
  }

  /** The paths `load_font_set` of the script version collects: the found files' paths, in walk order. */
  function PathsOf(found: seq<FontFile>): (paths: seq<string>)
    ensures |paths| == |found| && forall i :: 0 <= i < |found| ==> paths[i] == found[i].path
  {
    seq(|found|, i requires 0 <= i < |found| => found[i].path)
  }
}
