/**
 * src/generator/data_augmentation.py: the row-wise warp of an image, the choice
 * of input images by file suffix, and the loop of `apply_random_transformation`
 * that writes `limit` transformed copies, numbered from 0, into a directory per
 * label.
 */
module Augmentation {
  import opened Wrappers
  import opened Text
  import opened Paths
  import opened Raster
  import opened Disk
  import opened Sprites

  // ---------------------------------------------------------------------------
  // random_warp
  // ---------------------------------------------------------------------------

  /** `np.roll(row, shift)`: every element moves `shift` places to the right, cyclically. */
  function Roll<T>(row: seq<T>, shift: int): (rolled: seq<T>)
    ensures |rolled| == |row|
    ensures forall j :: 0 <= j < |row| ==> rolled[j] == row[(j - shift) % |row|]
  {
    if row == [] then []
    else
      var k := (-shift) % |row|;
      assert forall j :: 0 <= j < |row| ==> (row[k..] + row[..k])[j] == row[(j - shift) % |row|] by {
        forall j | 0 <= j < |row| ensures (row[k..] + row[..k])[j] == row[(j - shift) % |row|] {
          RollAt(row, shift, j);
        }
      }
      row[k..] + row[..k]
  }

  /** Position `j` of the row rotated left by `(-shift) % n` holds `row[(j - shift) % n]`. */
  lemma RollAt<T>(row: seq<T>, shift: int, j: int)
    requires 0 <= j < |row|
    ensures var k := (-shift) % |row|;
      (row[k..] + row[..k])[j] == row[(j - shift) % |row|]
  {
    var n := |row|;
    var k, q := (-shift) % n, (-shift) / n;
    assert -shift == q * n + k;
    if j < n - k {
      assert j - shift == q * n + (j + k);
      DivModUnique(j - shift, n, q, j + k);
    } else {
      assert (q + 1) * n == q * n + n;
      assert j - shift == (q + 1) * n + (j + k - n);
      DivModUnique(j - shift, n, q + 1, j + k - n);
    }
  }

  /** A roll only reorders a row: the multiset of its values is kept. */
  lemma RollPermutes<T>(row: seq<T>, shift: int)
    ensures multiset(Roll(row, shift)) == multiset(row)
  {
    if row != [] {
      var k := (-shift) % |row|;
      assert row == row[..k] + row[k..];
      assert Roll(row, shift) == row[k..] + row[..k];
    }
  }

  /** Rolling back by the same shift restores the row. */
  lemma RollInverse<T>(row: seq<T>, shift: int)
    ensures Roll(Roll(row, shift), -shift) == row
  {
    var n := |row|;
    if n > 0 {
      var once := Roll(row, shift);
      forall j | 0 <= j < n ensures Roll(once, -shift)[j] == row[j] {
        var m := (j + shift) % n;
        assert Roll(once, -shift)[j] == once[m];
        assert once[m] == row[(m - shift) % n];
        var q := (j + shift) / n;
        DivModUnique(m - shift, n, -q, j);
      }
    }
  }

  /** Row `i` of a two-dimensional array. */
  function RowOf(a: array2<real>, i: int): (row: seq<real>)
    requires 0 <= i < a.Length0
    reads a
    ensures |row| == a.Length1 && forall j :: 0 <= j < a.Length1 ==> row[j] == a[i, j]
  {
    seq(a.Length1, j requires 0 <= j < a.Length1 reads a => a[i, j])
  }

  /** `image_array.copy()`. */
  method CopyImage(image: array2<real>) returns (copy: array2<real>)
    ensures fresh(copy) && copy.Length0 == image.Length0 && copy.Length1 == image.Length1
    ensures forall i, j :: 0 <= i < image.Length0 && 0 <= j < image.Length1 ==> copy[i, j] == image[i, j]
  {
    copy := new real[image.Length0, image.Length1];
    var i := 0;
    while i < image.Length0
      invariant 0 <= i <= image.Length0
      invariant forall r, j :: 0 <= r < i && 0 <= j < image.Length1 ==> copy[r, j] == image[r, j]
    {
      var j := 0;
      while j < image.Length1
        invariant 0 <= j <= image.Length1
        invariant forall r, c :: 0 <= r < i && 0 <= c < image.Length1 ==> copy[r, c] == image[r, c]
        invariant forall c :: 0 <= c < j ==> copy[i, c] == image[i, c]
      {
        copy[i, j] := image[i, j];
        j := j + 1;
      }
      i := i + 1;
    }
  }

  /** `warped[i, :] = np.roll(warped[i, :], shift=shift)`: row `i` is rolled, every other row kept. */
  method RollRow(a: array2<real>, i: int, shift: int)
    requires 0 <= i < a.Length0
    modifies a
    ensures RowOf(a, i) == Roll(old(RowOf(a, i)), shift)
    ensures forall r, c :: 0 <= r < a.Length0 && r != i && 0 <= c < a.Length1 ==> a[r, c] == old(a[r, c])
  {
    var row := RowOf(a, i);
    var rolled := Roll(row, shift);
    var j := 0;
    while j < a.Length1
      invariant 0 <= j <= a.Length1
      invariant forall c :: 0 <= c < j ==> a[i, c] == rolled[c]
      invariant forall r, c :: 0 <= r < a.Length0 && r != i && 0 <= c < a.Length1 ==> a[r, c] == old(a[r, c])
    {
      a[i, j] := row[(j - shift) % a.Length1];
      j := j + 1;
    }
    assert RowOf(a, i) == rolled;
  }

  /**
   * `random_warp`, the shift of row `i` being `shift(i)` (the source computes it
   * from a random amplitude and frequency in floating point). An image with no
   * rows raises ZeroDivisionError, the frequency being divided by the row count:
   * `None`. Otherwise a new array of the same shape whose row `i` is input row `i`
   * rolled by `shift(i)`. The input is only read.
   */
  method RandomWarp(image: array2<real>, shift: int -> int) returns (warped: Option<array2<real>>)
    ensures warped.None? <==> image.Length0 == 0
    ensures warped.Some? ==> fresh(warped.value)
    ensures warped.Some? ==> warped.value.Length0 == image.Length0 && warped.value.Length1 == image.Length1
    ensures warped.Some? ==> forall i :: 0 <= i < image.Length0 ==> RowOf(warped.value, i) == Roll(RowOf(image, i), shift(i))
  {
    if image.Length0 == 0 {
      return None;
    }
    var a := CopyImage(image);
    var i := 0;
    while i < a.Length0
      invariant 0 <= i <= a.Length0
      invariant forall r, c :: 0 <= r < i && 0 <= c < a.Length1 ==> a[r, c] == Roll(RowOf(image, r), shift(r))[c]
      invariant forall r, c :: i <= r < a.Length0 && 0 <= c < a.Length1 ==> a[r, c] == image[r, c]
    {
      assert RowOf(a, i) == RowOf(image, i);
      RollRow(a, i, shift(i));
      i := i + 1;
    }
    forall r | 0 <= r < image.Length0 ensures RowOf(a, r) == Roll(RowOf(image, r), shift(r)) {
      assert forall c :: 0 <= c < a.Length1 ==> RowOf(a, r)[c] == Roll(RowOf(image, r), shift(r))[c];
    }
    return Some(a);
  }

  // ---------------------------------------------------------------------------
  // apply_random_transformation: the input images
  // ---------------------------------------------------------------------------

  /**
   * The non-recursive selection: `os.path.join(input_folder, f)` for each name
   * `f` of the listing `names` (`os.listdir`) that ends with the image type and
   * joins to a regular file.
   */
  function SelectFlat(files: map<string, Picture>, input: string, names: seq<string>, imgType: string): (sel: seq<string>)
    ensures |sel| <= |names|
    decreases |names|
  {
    if names == [] then []
    else
      var f := names[|names| - 1];
      var p := Join(input, f);
      SelectFlat(files, input, names[..|names| - 1], imgType) + (if p in files && EndsWith(f, imgType) then [p] else [])
  }

  /** The names of one directory of the walk that end with the image type, joined to it. */
  function SelectIn(root: string, names: seq<string>, imgType: string): (sel: seq<string>)
    ensures |sel| <= |names|
    decreases |names|
  {
    if names == [] then []
    else
      var f := names[|names| - 1];
      SelectIn(root, names[..|names| - 1], imgType) + (if EndsWith(f, imgType) then [Join(root, f)] else [])
  }

  /** The recursive selection: the matching files of every directory of the walk, in walk order. */
  function SelectTree(walk: seq<WalkEntry>, imgType: string): (sel: seq<string>)
    decreases |walk|
  {
    if walk == [] then []
    else SelectTree(walk[..|walk| - 1], imgType) + SelectIn(walk[|walk| - 1].root, walk[|walk| - 1].names, imgType)
  }

  /** The non-recursive selection holds exactly the listed names that end with the image type and are regular files. */
  lemma {:induction false} SelectFlatMembers(files: map<string, Picture>, input: string, names: seq<string>, imgType: string)
    ensures forall p :: p in SelectFlat(files, input, names, imgType) <==>
      exists f :: f in names && p == Join(input, f) && p in files && EndsWith(f, imgType)
    decreases |names|
  {
    if names != [] {
      var front := names[..|names| - 1];
      SelectFlatMembers(files, input, front, imgType);
      forall p ensures p in SelectFlat(files, input, names, imgType) <==>
        exists f :: f in names && p == Join(input, f) && p in files && EndsWith(f, imgType)
      {
        if exists f :: f in names && p == Join(input, f) && p in files && EndsWith(f, imgType) {
          var f :| f in names && p == Join(input, f) && p in files && EndsWith(f, imgType);
          if f != names[|names| - 1] {
            assert f in front;
          }
        }
      }
    }
  }

  /** `names` is what `os.listdir(input)` returns: the plain names of every entry directly in `input`. */
  ghost predicate ListsDir(files: map<string, Picture>, input: string, names: seq<string>) {
    && (forall f <- names :: f != "" && '/' !in f)
    && (forall f :: f != "" && '/' !in f && Join(input, f) in files ==> f in names)
  }

  /** With a full listing, the non-recursive selection is every regular file directly in `input` whose name ends with the image type. */
  lemma SelectFlatDirect(files: map<string, Picture>, input: string, names: seq<string>, imgType: string)
    requires ListsDir(files, input, names)
    ensures forall p :: p in SelectFlat(files, input, names, imgType) <==>
      exists f :: f != "" && '/' !in f && p == Join(input, f) && p in files && EndsWith(f, imgType)
  {
    SelectFlatMembers(files, input, names, imgType);
  }

  /** `p` is a file listed in `root` whose name ends with the image type. */
  ghost predicate InDir(root: string, names: seq<string>, imgType: string, p: string) {
    exists f :: f in names && EndsWith(f, imgType) && p == Join(root, f)
  }

  lemma {:induction false} SelectInMembers(root: string, names: seq<string>, imgType: string)
    ensures forall p :: p in SelectIn(root, names, imgType) <==> InDir(root, names, imgType, p)
    decreases |names|
  {
    if names != [] {
      var front := names[..|names| - 1];
      SelectInMembers(root, front, imgType);
      forall p ensures p in SelectIn(root, names, imgType) <==> InDir(root, names, imgType, p) {
        if InDir(root, names, imgType, p) {
          var f :| f in names && EndsWith(f, imgType) && p == Join(root, f);
          if f != names[|names| - 1] {
            assert f in front;
          }
        }
      }
    }
  }

  /** `p` is a file of some directory of the walk whose name ends with the image type. */
  ghost predicate InTree(walk: seq<WalkEntry>, imgType: string, p: string) {
    exists i :: 0 <= i < |walk| && InDir(walk[i].root, walk[i].names, imgType, p)
  }

  lemma InTreeLast(walk: seq<WalkEntry>, imgType: string, p: string)
    requires walk != []
    ensures var m := |walk| - 1;
      InTree(walk, imgType, p) <==> InTree(walk[..m], imgType, p) || InDir(walk[m].root, walk[m].names, imgType, p)
  {
    var m := |walk| - 1;
    var front := walk[..m];
    if InTree(walk, imgType, p) {
      var i :| 0 <= i < |walk| && InDir(walk[i].root, walk[i].names, imgType, p);
      if i < m {
        assert front[i] == walk[i];
        assert InTree(front, imgType, p);
      }
    }
    if InTree(front, imgType, p) {
      var i :| 0 <= i < |front| && InDir(front[i].root, front[i].names, imgType, p);
      assert front[i] == walk[i];
      assert InTree(walk, imgType, p);
    }
    if InDir(walk[m].root, walk[m].names, imgType, p) {
      assert InTree(walk, imgType, p);
    }
  }

  /** The recursive selection holds exactly the files of the whole tree whose names end with the image type. */
  lemma {:induction false} SelectTreeMembers(walk: seq<WalkEntry>, imgType: string)
    ensures forall p :: p in SelectTree(walk, imgType) <==> InTree(walk, imgType, p)
    decreases |walk|
  {
    if walk != [] {
      var m := |walk| - 1;
      SelectTreeMembers(walk[..m], imgType);
      SelectInMembers(walk[m].root, walk[m].names, imgType);
      forall p ensures p in SelectTree(walk, imgType) <==> InTree(walk, imgType, p) {
        InTreeLast(walk, imgType, p);
      }
    }
  }

  // ---------------------------------------------------------------------------
  // apply_random_transformation: the counter loop
  // ---------------------------------------------------------------------------

  /** `limit or len(image_files)`, and the number of passes `while n < limit` makes. */
  function Iterations(limit: Option<int>, count: nat): (n: nat)
    ensures limit.None? || limit.value == 0 ==> n == count
    ensures limit.Some? && limit.value != 0 ==> n == Max(limit.value, 0)
  {
    var l := if limit.None? || limit.value == 0 then count else limit.value;
    if l < 0 then 0 else l
  }

  /** The label directory of an image: its second-to-last path component, or "" with `ignore_label`. */
  function LabelOf(path: string, ignoreLabel: bool): (tag: Option<string>)
    ensures tag.Some? ==> '/' !in tag.value
    ensures ignoreLabel ==> tag == Some("")
  {
    if ignoreLabel then Some("") else Label(path)
  }

  /** `augmented_image_{id}.jpg`. */
  function OutName(id: nat): string {
    "augmented_image_" + Decimal(id) + ".jpg"
  }

  /** `<join(output_folder, label)>/augmented_image_{id}.jpg`. */
  function OutPath(output: string, tag: string, id: nat): string {
    Join(output, tag) + "/" + OutName(id)
  }

  /** A path ending in `/` and a '/'-free name has that name after its last '/'. */
  lemma BaseName(dir: string, name: string)
    requires '/' !in name
    ensures var p := dir + "/" + name; LastIndex(p, '/') == |dir| && p[|dir| + 1..] == name
  {
    var p := dir + "/" + name;
    forall j | |dir| < j < |p| ensures p[j] != '/' {
      assert p[j] == name[j - |dir| - 1];
    }
    LastIndexUnique(p, '/', |dir|);
  }

  /** Different ids give different output paths, whatever the labels: no pass overwrites another's image. */
  lemma OutPathInjective(output: string, a: string, i: nat, b: string, j: nat)
    requires OutPath(output, a, i) == OutPath(output, b, j)
    ensures i == j
  {
    var x, y := OutName(i), OutName(j);
    forall id: nat ensures '/' !in OutName(id) {
      var d := Decimal(id);
      assert forall c :: 0 <= c < |d| ==> d[c] != '/';
      assert OutName(id) == "augmented_image_" + d + ".jpg";
    }
    BaseName(Join(output, a), x);
    BaseName(Join(output, b), y);
    assert x == y;
    var di, dj := Decimal(i), Decimal(j);
    assert |di| == |dj|;
    assert di == x[16..16 + |di|] && dj == y[16..16 + |dj|];
    DecimalInjective(i, j);
  }

  /** The file system and the outcome of the loop so far. */
  datatype Progress = Progress(out: Outcome<Fault>, dirs: set<string>, files: map<string, Picture>)

  /**
   * Pass `k`: choose an image, apply transformation `kind(k)` to it, create its
   * label directory (existing ones are fine) and save the result there under id `k`.
   */
  function AugmentStep(output: string, sel: seq<string>, ignoreLabel: bool, choice: nat -> nat, kind: nat -> Transform,
                       k: nat, dirs: set<string>, files: map<string, Picture>): (after: Progress)
  {
    if sel == [] then Progress(Raised(EmptyChoice), dirs, files)
    else
      var path := sel[choice(k) % |sel|];
      match LabelOf(path, ignoreLabel)
      case None => Progress(Raised(NoLabel), dirs, files)
      case Some(tag) =>
        var outDir := Join(output, tag);
        match MakeDirsFault(dirs, files.Keys, outDir, true)
        case Some(e) => Progress(Raised(e), dirs, files)
        case None =>
          var made := MakeDirsResult(dirs, outDir);
          var p := OutPath(output, tag, k);
          match SaveFault(made, files.Keys, p)
          case Some(e) => Progress(Raised(e), made, files)
          case None => Progress(Done, made, files[p := Transformed(kind(k), path)])
  }

  /** The image pass `k` transforms. */
  function Source(sel: seq<string>, choice: nat -> nat, k: nat): string
    requires sel != []
  {
    sel[choice(k) % |sel|]
  }

  /** A pass that completes writes exactly its one image; one that raises writes nothing. */
  lemma AugmentStepFiles(output: string, sel: seq<string>, ignoreLabel: bool, choice: nat -> nat, kind: nat -> Transform,
                         k: nat, dirs: set<string>, files: map<string, Picture>)
    ensures var after := AugmentStep(output, sel, ignoreLabel, choice, kind, k, dirs, files);
      && (after.out.Raised? ==> after.files == files)
      && (after.out.Done? ==>
            && sel != [] && LabelOf(Source(sel, choice, k), ignoreLabel).Some?
            && after.files == files[OutPath(output, LabelOf(Source(sel, choice, k), ignoreLabel).value, k)
                                    := Transformed(kind(k), Source(sel, choice, k))])
  {
    if sel != [] {
      var path := Source(sel, choice, k);
      match LabelOf(path, ignoreLabel)
      case None =>
      case Some(tag) =>
        var outDir := Join(output, tag);
        if MakeDirsFault(dirs, files.Keys, outDir, true).None? {
          var made := MakeDirsResult(dirs, outDir);
          var p := OutPath(output, tag, k);
          if SaveFault(made, files.Keys, p).None? {
            assert AugmentStep(output, sel, ignoreLabel, choice, kind, k, dirs, files).files
              == files[p := Transformed(kind(k), path)];
          }
        }
    }
  }

  // ---------------------------------------------------------------------------
  // The counter loop as a sequence of passes, each run only while no earlier one raised
  // ---------------------------------------------------------------------------

  /** `n` passes of `step` from `start`; once a pass raises, the rest are not run. */
  function Passes(step: (nat, Progress) -> Progress, start: Progress, n: nat): (after: Progress)
  {
    if n == 0 then start
    else
      var before := Passes(step, start, n - 1);
      if before.out.Raised? then before else step(n - 1, before)
  }

  lemma {:induction false} PassesRaisedPersists(step: (nat, Progress) -> Progress, start: Progress, n: nat, m: nat)
    requires n <= m && Passes(step, start, n).out.Raised?
    ensures Passes(step, start, m) == Passes(step, start, n)
    decreases m - n
  {
    if n < m {
      PassesRaisedPersists(step, start, n, m - 1);
    }
  }

  /** Every pass leaves the files alone when it raises, and writes `image(k)` at `target(k)` when it completes. */
  ghost predicate WritesOne(step: (nat, Progress) -> Progress, target: nat -> string, image: nat -> Picture) {
    forall k, before :: step(k, before).files ==
      if step(k, before).out.Done? then before.files[target(k) := image(k)] else before.files
  }

  ghost predicate Injective(target: nat -> string) {
    forall i, j :: target(i) == target(j) ==> i == j
  }

  lemma {:induction false} PassesKeepPaths(step: (nat, Progress) -> Progress, target: nat -> string, image: nat -> Picture,
                                           start: Progress, n: nat)
    requires WritesOne(step, target, image)
    ensures start.files.Keys <= Passes(step, start, n).files.Keys
  {
    if n > 0 {
      PassesKeepPaths(step, target, image, start, n - 1);
    }
  }

  lemma {:induction false} PassesWrite(step: (nat, Progress) -> Progress, target: nat -> string, image: nat -> Picture,
                                       start: Progress, n: nat, k: nat)
    requires WritesOne(step, target, image) && Injective(target)
    requires k < n && Passes(step, start, n).out.Done?
    ensures step(k, Passes(step, start, k)).out.Done?
    ensures var after := Passes(step, start, n).files; target(k) in after && after[target(k)] == image(k)
  {
    if k < n - 1 {
      PassesWrite(step, target, image, start, n - 1, k);
    }
  }

  lemma {:induction false} PassesNewFile(step: (nat, Progress) -> Progress, target: nat -> string, image: nat -> Picture,
                                         start: Progress, n: nat, p: string)
    requires WritesOne(step, target, image)
    requires p in Passes(step, start, n).files && p !in start.files
    ensures exists k :: 0 <= k < n && p == target(k) && step(k, Passes(step, start, k)).out.Done?
  {
    if n > 0 {
      var before := Passes(step, start, n - 1);
      if p in before.files {
        PassesNewFile(step, target, image, start, n - 1, p);
      } else {
        assert p == target(n - 1) && step(n - 1, before).out.Done?;
      }
    }
  }

  /** Pass `k` of `apply_random_transformation`. */
  function Pass(output: string, sel: seq<string>, ignoreLabel: bool, choice: nat -> nat, kind: nat -> Transform): (nat, Progress) -> Progress {
    (k: nat, before: Progress) => AugmentStep(output, sel, ignoreLabel, choice, kind, k, before.dirs, before.files)
  }

  /** The label directory pass `k` writes into ("" when it has none, and then it raises). */
  function Tag(sel: seq<string>, ignoreLabel: bool, choice: nat -> nat, k: nat): string {
    if sel == [] then ""
    else match LabelOf(Source(sel, choice, k), ignoreLabel)
      case Some(tag) => tag
      case None => ""
  }

  /** Where pass `k` saves its image, and what it saves there. */
  function Target(output: string, sel: seq<string>, ignoreLabel: bool, choice: nat -> nat): nat -> string {
    (k: nat) => OutPath(output, Tag(sel, ignoreLabel, choice, k), k)
  }

  function Image(sel: seq<string>, choice: nat -> nat, kind: nat -> Transform): nat -> Picture {
    (k: nat) => Transformed(kind(k), if sel == [] then "" else Source(sel, choice, k))
  }

  lemma PassWritesOne(output: string, sel: seq<string>, ignoreLabel: bool, choice: nat -> nat, kind: nat -> Transform)
    ensures WritesOne(Pass(output, sel, ignoreLabel, choice, kind), Target(output, sel, ignoreLabel, choice), Image(sel, choice, kind))
  {
    var step, target, image := Pass(output, sel, ignoreLabel, choice, kind), Target(output, sel, ignoreLabel, choice), Image(sel, choice, kind);
    forall k, before ensures step(k, before).files ==
      if step(k, before).out.Done? then before.files[target(k) := image(k)] else before.files
    {
      AugmentStepFiles(output, sel, ignoreLabel, choice, kind, k, before.dirs, before.files);
    }
  }

  lemma TargetInjective(output: string, sel: seq<string>, ignoreLabel: bool, choice: nat -> nat)
    ensures Injective(Target(output, sel, ignoreLabel, choice))
  {
    var target := Target(output, sel, ignoreLabel, choice);
    forall i, j | target(i) == target(j) ensures i == j {
      OutPathInjective(output, Tag(sel, ignoreLabel, choice, i), i, Tag(sel, ignoreLabel, choice, j), j);
    }
  }

  /** The first `n` passes, stopping at the first exception. */
  function Augmented(output: string, sel: seq<string>, ignoreLabel: bool, choice: nat -> nat, kind: nat -> Transform,
                     dirs: set<string>, files: map<string, Picture>, n: nat): (after: Progress)
  {
    Passes(Pass(output, sel, ignoreLabel, choice, kind), Progress(Done, dirs, files), n)
  }

  /** Pass `n` runs on what the first `n` passes left, unless one of them raised. */
  lemma AugmentedNext(output: string, sel: seq<string>, ignoreLabel: bool, choice: nat -> nat, kind: nat -> Transform,
                      dirs: set<string>, files: map<string, Picture>, n: nat)
    ensures var before := Augmented(output, sel, ignoreLabel, choice, kind, dirs, files, n);
      Augmented(output, sel, ignoreLabel, choice, kind, dirs, files, n + 1)
        == if before.out.Raised? then before else AugmentStep(output, sel, ignoreLabel, choice, kind, n, before.dirs, before.files)
  {
  }

  lemma AugmentedRaisedPersists(output: string, sel: seq<string>, ignoreLabel: bool, choice: nat -> nat,
                                kind: nat -> Transform, dirs: set<string>, files: map<string, Picture>, n: nat, m: nat)
    requires n <= m
    requires Augmented(output, sel, ignoreLabel, choice, kind, dirs, files, n).out.Raised?
    ensures Augmented(output, sel, ignoreLabel, choice, kind, dirs, files, m) == Augmented(output, sel, ignoreLabel, choice, kind, dirs, files, n)
  {
    PassesRaisedPersists(Pass(output, sel, ignoreLabel, choice, kind), Progress(Done, dirs, files), n, m);
  }

  /** The output path of pass `k`, when its label exists. */
  predicate WroteAt(output: string, sel: seq<string>, ignoreLabel: bool, choice: nat -> nat, k: nat, p: string)
  {
    sel != [] && LabelOf(Source(sel, choice, k), ignoreLabel).Some?
    && p == OutPath(output, LabelOf(Source(sel, choice, k), ignoreLabel).value, k)
  }

  /**
   * When `n` passes complete, pass `k < n` has left its image, the chosen image
   * under transformation `kind(k)`, at its own path with id `k`.
   */
  lemma AugmentedWrites(output: string, sel: seq<string>, ignoreLabel: bool, choice: nat -> nat,
                        kind: nat -> Transform, dirs: set<string>, files: map<string, Picture>, n: nat, k: nat)
    requires k < n
    requires Augmented(output, sel, ignoreLabel, choice, kind, dirs, files, n).out.Done?
    ensures sel != [] && LabelOf(Source(sel, choice, k), ignoreLabel).Some?
    ensures var p := OutPath(output, LabelOf(Source(sel, choice, k), ignoreLabel).value, k);
      var after := Augmented(output, sel, ignoreLabel, choice, kind, dirs, files, n).files;
      p in after && after[p] == Transformed(kind(k), Source(sel, choice, k))
  {
    var step, start := Pass(output, sel, ignoreLabel, choice, kind), Progress(Done, dirs, files);
    PassWritesOne(output, sel, ignoreLabel, choice, kind);
    TargetInjective(output, sel, ignoreLabel, choice);
    PassesWrite(step, Target(output, sel, ignoreLabel, choice), Image(sel, choice, kind), start, n, k);
    var before := Passes(step, start, k);
    AugmentStepFiles(output, sel, ignoreLabel, choice, kind, k, before.dirs, before.files);
  }

  /** Files are only ever added or overwritten, never removed. */
  lemma AugmentedKeepsPaths(output: string, sel: seq<string>, ignoreLabel: bool, choice: nat -> nat,
                            kind: nat -> Transform, dirs: set<string>, files: map<string, Picture>, n: nat)
    ensures files.Keys <= Augmented(output, sel, ignoreLabel, choice, kind, dirs, files, n).files.Keys
  {
    PassWritesOne(output, sel, ignoreLabel, choice, kind);
    PassesKeepPaths(Pass(output, sel, ignoreLabel, choice, kind), Target(output, sel, ignoreLabel, choice), Image(sel, choice, kind),
                    Progress(Done, dirs, files), n);
  }

  /** Every new file is the output of one of the passes. */
  lemma AugmentedNewFiles(output: string, sel: seq<string>, ignoreLabel: bool, choice: nat -> nat,
                          kind: nat -> Transform, dirs: set<string>, files: map<string, Picture>, n: nat, p: string)
    requires p in Augmented(output, sel, ignoreLabel, choice, kind, dirs, files, n).files && p !in files
    ensures exists k :: 0 <= k < n && WroteAt(output, sel, ignoreLabel, choice, k, p)
  {
    var step, start := Pass(output, sel, ignoreLabel, choice, kind), Progress(Done, dirs, files);
    PassWritesOne(output, sel, ignoreLabel, choice, kind);
    PassesNewFile(step, Target(output, sel, ignoreLabel, choice), Image(sel, choice, kind), start, n, p);
    var k :| 0 <= k < n && p == Target(output, sel, ignoreLabel, choice)(k) && step(k, Passes(step, start, k)).out.Done?;
    var before := Passes(step, start, k);
    AugmentStepFiles(output, sel, ignoreLabel, choice, kind, k, before.dirs, before.files);
    assert WroteAt(output, sel, ignoreLabel, choice, k, p);
  }

  /** With nothing selected, a pass-making limit raises on the first `random.choice`, having written nothing. */
  lemma AugmentedEmptySelection(output: string, ignoreLabel: bool, choice: nat -> nat, kind: nat -> Transform,
                                dirs: set<string>, files: map<string, Picture>, n: nat)
    requires n > 0
    ensures Augmented(output, [], ignoreLabel, choice, kind, dirs, files, n) == Progress(Raised(EmptyChoice), dirs, files)
  {
    AugmentedNext(output, [], ignoreLabel, choice, kind, dirs, files, 0);
    AugmentedRaisedPersists(output, [], ignoreLabel, choice, kind, dirs, files, 1, n);
  }

  /** The images `apply_random_transformation` chooses from. */
  function Selection(files: map<string, Picture>, input: string, recurse: bool, names: seq<string>, walk: seq<WalkEntry>, imgType: string): seq<string> {
    if recurse then SelectTree(walk, imgType) else SelectFlat(files, input, names, imgType)
  }

  /**
   * `apply_random_transformation`: the output folder is created if missing; the
   * listing of an input folder that is not a directory raises; then `Iterations` passes run.
   */
  function Apply(dirs: set<string>, files: map<string, Picture>, input: string, output: string, recurse: bool, limit: Option<int>,
                 ignoreLabel: bool, imgType: string, names: seq<string>, walk: seq<WalkEntry>,
                 choice: nat -> nat, kind: nat -> Transform): (after: Progress)
  {
    var fault := if IsDirIn(dirs, output) then None else MakeDirsFault(dirs, files.Keys, output, true);
    if fault.Some? then Progress(Raised(fault.value), dirs, files)
    else
      var made := if IsDirIn(dirs, output) then dirs else MakeDirsResult(dirs, output);
      var listing := ListDirFault(made, files.Keys, input);
      if !recurse && listing.Some? then
        Progress(Raised(listing.value), made, files)
      else
        var sel := Selection(files, input, recurse, names, walk, imgType);
        Augmented(output, sel, ignoreLabel, choice, kind, made, files, Iterations(limit, |sel|))
  }

  /**
   * The method: `names` is `os.listdir(input_folder)`, `walk` is
   * `os.walk(input_folder)`, `choice(k)` the draw of `random.choice` in pass
   * `k` (the image at that index modulo the list's length), and `kind(k)` the transformation it draws.
   */
  method ApplyRandomTransformation(fs: FileSystem, input: string, output: string, recurse: bool, limit: Option<int>,
                                   ignoreLabel: bool, imgType: string, names: seq<string>, walk: seq<WalkEntry>,
                                   choice: nat -> nat, kind: nat -> Transform)
    returns (out: Outcome<Fault>)
    requires fs.Valid()
    modifies fs
    ensures fs.Valid()
    ensures Progress(out, fs.dirs, fs.files)
      == Apply(old(fs.dirs), old(fs.files), input, output, recurse, limit, ignoreLabel, imgType, names, walk, choice, kind)
  {
    if !fs.IsDir(output) {
      out := fs.MakeDirs(output, true);
      if out.Raised? {
        return;
      }
    }
    var imageFiles: seq<string>;
    if !recurse {
      var listing := ListDirFault(fs.dirs, fs.files.Keys, input);
      if listing.Some? {
        return Raised(listing.value);
      }
      imageFiles := SelectFlat(fs.files, input, names, imgType);
    } else {
      imageFiles := SelectTree(walk, imgType);
    }
    var lim := if limit.None? || limit.value == 0 then |imageFiles| else limit.value;
    out := AugmentPasses(fs, output, imageFiles, ignoreLabel, choice, kind, lim);
  }

  /** The counter loop: passes run while fewer than `lim` have completed, until one raises. */
  method AugmentPasses(fs: FileSystem, output: string, imageFiles: seq<string>, ignoreLabel: bool,
                       choice: nat -> nat, kind: nat -> Transform, lim: int)
    returns (out: Outcome<Fault>)
    requires fs.Valid()
    modifies fs
    ensures fs.Valid()
    ensures Progress(out, fs.dirs, fs.files)
      == Augmented(output, imageFiles, ignoreLabel, choice, kind, old(fs.dirs), old(fs.files), if lim < 0 then 0 else lim)
  {
    ghost var dirs, files := fs.dirs, fs.files;
    var generated := 0;
    while generated < lim
      invariant 0 <= generated && (generated <= lim || generated == 0)
      invariant fs.Valid()
      invariant Progress(Done, fs.dirs, fs.files) == Augmented(output, imageFiles, ignoreLabel, choice, kind, dirs, files, generated)
    {
      AugmentedNext(output, imageFiles, ignoreLabel, choice, kind, dirs, files, generated);
      out := AugmentAt(fs, output, imageFiles, ignoreLabel, choice, kind, generated);
      if out.Raised? {
        AugmentedRaisedPersists(output, imageFiles, ignoreLabel, choice, kind, dirs, files, generated + 1, lim);
        return;
      }
      generated := generated + 1;
    }
    out := Done;
  }

  /** Pass `k` of the counter loop. */
  method AugmentAt(fs: FileSystem, output: string, imageFiles: seq<string>, ignoreLabel: bool,
                   choice: nat -> nat, kind: nat -> Transform, k: nat)
    returns (out: Outcome<Fault>)
    requires fs.Valid()
    modifies fs
    ensures fs.Valid()
    ensures Progress(out, fs.dirs, fs.files) == AugmentStep(output, imageFiles, ignoreLabel, choice, kind, k, old(fs.dirs), old(fs.files))
  {
    if imageFiles == [] {
      return Raised(EmptyChoice);
    }
    var imagePath := imageFiles[choice(k) % |imageFiles|];
    var transformation := kind(k);
    var tag := "";
    if !ignoreLabel {
      var component := Label(imagePath);
      if component.None? {
        return Raised(NoLabel);
      }
      tag := component.value;
    }
    var outDir := Join(output, tag);
    out := fs.MakeDirs(outDir, true);
    if out.Raised? {
      return;
    }
    var newFilePath := outDir + "/" + OutName(k);
    out := fs.Save(newFilePath, Transformed(transformation, imagePath));
  }
}
