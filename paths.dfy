/**
 * Path strings as the generator builds them: `os.path.join`, `str.split('/')`,
 * the file-stem regular expression of `get_file_name`, the font-file pattern
 * of `load_font_set`, and the `<dir>/<code point>` directory naming.
 * Paths are plain strings: no normalisation of `.`, `..` or repeated slashes.
 */
module Paths {
  import opened Wrappers
  import opened Text

  /** Index of the last occurrence of `c` in `s`, or -1 when there is none. */
  function LastIndex(s: string, c: char): (i: int)
    ensures -1 <= i < |s|
    ensures i >= 0 ==> s[i] == c
    ensures forall j :: i < j < |s| ==> s[j] != c
  {
    if s == [] then -1
    else if s[|s| - 1] == c then |s| - 1
    else LastIndex(s[..|s| - 1], c)
  }

  lemma LastIndexUnique(s: string, c: char, i: int)
    requires -1 <= i < |s|
    requires i >= 0 ==> s[i] == c
    requires forall j :: i < j < |s| ==> s[j] != c
    ensures LastIndex(s, c) == i
  {
  }

  /** `os.path.join(a, b)`: an absolute `b` wins; otherwise one separator is inserted when needed. */
  function Join(a: string, b: string): (p: string)
    ensures b != [] && b[0] == '/' ==> p == b
    ensures (b == [] || b[0] != '/') ==> |a| <= |p| && p[..|a|] == a && EndsWith(p, b)
  {
    if b != [] && b[0] == '/' then b
    else if a == [] || a[|a| - 1] == '/' then a + b
    else a + "/" + b
  }

  /** Python's `'%s' % x` / `format` of a path that may be None. */
  function Show(p: Option<string>): string {
    match p
    case Some(s) => s
    case None => "None"
  }

  /** Paths that always exist as directories or stand for the working directory. */
  predicate IsRoot(p: string) {
    p == "" || p == "." || p == "/"
  }

  /** The directory a path lives in; "" stands for the working directory. */
  function Parent(p: string): (q: string)
    ensures !IsRoot(p) ==> |q| < |p|
  {
    var i := LastIndex(p, '/');
    if i < 0 then "" else if i == 0 then "/" else p[..i]
  }

  /** A path without its trailing '/'s ("out/" names the directory "out"; "/" stays). */
  function Norm(p: string): (q: string)
    ensures |q| <= |p|
    ensures |q| <= 1 || q[|q| - 1] != '/'
    ensures p == "" <==> q == ""
  {
    if |p| > 1 && p[|p| - 1] == '/' then Norm(p[..|p| - 1]) else p
  }

  lemma NormIdempotent(p: string)
    ensures Norm(Norm(p)) == Norm(p)
  {
  }

  /** A path and every ancestor that `os.makedirs` may have to create, without trailing '/'s. */
  function DirChain(p: string): (chain: set<string>)
    ensures forall d <- chain :: !IsRoot(d) && Norm(d) == d
    decreases |p|
  {
    var q := Norm(p);
    if IsRoot(q) then {} else {q} + DirChain(Parent(q))
  }

  /** `os.makedirs` creates nothing longer than the path it was given. */
  lemma {:induction false} DirChainShorter(p: string)
    ensures forall d <- DirChain(p) :: |d| <= |p|
    decreases |p|
  {
    var q := Norm(p);
    if !IsRoot(q) {
      DirChainShorter(Parent(q));
    }
  }

  /** Every directory of a chain has its parent in the chain or is just below a root. */
  lemma {:induction false} DirChainClosed(p: string)
    ensures forall d <- DirChain(p) :: IsRoot(Norm(Parent(d))) || Norm(Parent(d)) in DirChain(p)
    decreases |p|
  {
    var q := Norm(p);
    if !IsRoot(q) {
      DirChainClosed(Parent(q));
      NormIdempotent(Parent(q));
      assert DirChain(Parent(q)) == DirChain(Norm(Parent(q)));
    }
  }

  /** `s.split(sep)`: the pieces between separators, empty pieces included. */
  function SplitOn(s: string, sep: char): (parts: seq<string>)
    ensures |parts| >= 1
    ensures forall part <- parts :: sep !in part
  {
    var i := LastIndex(s, sep);
    if i < 0 then [s] else SplitOn(s[..i], sep) + [s[i + 1..]]
  }

  /** The last piece of `s.split(sep)`: what follows the last separator. */
  lemma SplitOnLast(s: string, sep: char)
    ensures var parts := SplitOn(s, sep);
      parts[|parts| - 1] == s[LastIndex(s, sep) + 1..]
  {
  }

  /** `path.rsplit('/')[-2]`, literally: split at every '/' and take the second-to-last piece. */
  function RSplitLabel(path: string): Option<string> {
    var parts := SplitOn(path, '/');
    if |parts| >= 2 then Some(parts[|parts| - 2]) else None
  }

  /**
   * The label of an image, read off the last two separators: the piece between
   * them, or everything before the only one; a path without '/' has none.
   */
  function Label(path: string): (tag: Option<string>)
    ensures tag.Some? ==> '/' !in tag.value
  {
    var i := LastIndex(path, '/');
    if i < 0 then None
    else
      var dir := path[..i];
      var j := LastIndex(dir, '/');
      var tag := dir[j + 1..];
      assert '/' !in tag by {
        forall m | 0 <= m < |tag| ensures tag[m] != '/' {
          assert tag[m] == dir[j + 1 + m];
        }
      }
      Some(tag)
  }

  /** Reading the last two separators gives exactly the second-to-last piece of the split. */
  lemma LabelIsRSplitLabel(path: string)
    ensures Label(path) == RSplitLabel(path)
  {
    var i := LastIndex(path, '/');
    if i >= 0 {
      var dir := path[..i];
      assert SplitOn(path, '/') == SplitOn(dir, '/') + [path[i + 1..]];
      SplitOnLast(dir, '/');
    }
  }

  /** An image stored as `<dir>/<name>` is labelled with the last component of `dir`. */
  lemma LabelOfStoredImage(dir: string, tag: string, name: string)
    requires '/' !in tag && '/' !in name
    ensures Label(dir + "/" + tag + "/" + name) == Some(tag)
  {
    var p := dir + "/" + tag + "/" + name;
    var q := dir + "/" + tag;
    assert p == q + "/" + name;
    LastIndexUnique(p, '/', |q|);
    assert p[..|q|] == q;
    LastIndexUnique(q, '/', |dir|);
    assert q[|dir| + 1..] == tag;
  }

  /** The ASCII word characters of `\w`: letters, digits and '_'. */
  predicate IsWordChar(c: char) {
    'a' <= c <= 'z' || 'A' <= c <= 'Z' || '0' <= c <= '9' || c == '_'
  }

  predicate IsWord(s: string) {
    s != [] && forall i :: 0 <= i < |s| ==> IsWordChar(s[i])
  }

  /**
   * `get_file_name`: group 1 of `re.search(r"([^/]+)\.(\w+)$", name)`. The extension is
   * what follows the last '.', the stem what lies between the last '/' and that '.';
   * `$` also matches before one final newline. None when the search fails (the source
   * then raises AttributeError on `.group`).
   */
  function FileStem(name: string): (stem: Option<string>)
    ensures stem.Some? ==> stem.value != [] && '/' !in stem.value
  {
    var s := if name != [] && name[|name| - 1] == '\n' then name[..|name| - 1] else name;
    var d := LastIndex(s, '.');
    var p := LastIndex(s, '/') + 1;
    if 0 <= d && p < d && IsWord(s[d + 1..]) then Some(s[p..d]) else None
  }

  lemma {:induction false} LastIndexAppend(a: string, b: string, c: char)
    ensures c in b ==> LastIndex(a + b, c) == |a| + LastIndex(b, c)
    ensures c !in b ==> LastIndex(a + b, c) == LastIndex(a, c)
  {
    var i := LastIndex(b, c);
    if i >= 0 {
      LastIndexUnique(a + b, c, |a| + i);
    } else {
      assert forall j :: 0 <= j < |b| ==> b[j] != c;
      LastIndexUnique(a + b, c, LastIndex(a, c));
    }
  }

  /**
   * `get_file_name` undoes `<dir>/<stem>.<ext>`: the stem may itself contain dots
   * ("d/a.b.ttf" gives "a.b").
   */
  lemma FileStemOfName(dir: string, stem: string, ext: string)
    requires dir == [] || dir[|dir| - 1] == '/'
    requires stem != [] && '/' !in stem
    requires IsWord(ext)
    ensures FileStem(dir + stem + "." + ext) == Some(stem)
  {
    var s := dir + stem + "." + ext;
    var d := |dir| + |stem|;
    WordHasNoSeparators(ext);
    LastDotOfName(dir, stem, ext);
    LastSlashOfName(dir, stem, ext);
    assert s[|s| - 1] == ext[|ext| - 1];
    assert s[d + 1..] == ext && s[|dir|..d] == stem;
    FileStemAt(s, d, |dir|);
  }

  /** No `c` past the end of `front` when `back` has none. */
  lemma AbsentAfter(front: string, back: string, c: char)
    requires c !in back
    ensures forall j :: |front| <= j < |front + back| ==> (front + back)[j] != c
  {
    forall j | |front| <= j < |front + back| ensures (front + back)[j] != c {
      assert (front + back)[j] == back[j - |front|];
    }
  }

  lemma LastDotOfName(dir: string, stem: string, ext: string)
    requires '.' !in ext
    ensures LastIndex(dir + stem + "." + ext, '.') == |dir| + |stem|
  {
    var front := dir + stem + ".";
    AbsentAfter(front, ext, '.');
    LastIndexUnique(front + ext, '.', |front| - 1);
  }

  lemma LastSlashOfName(dir: string, stem: string, ext: string)
    requires dir == [] || dir[|dir| - 1] == '/'
    requires '/' !in stem && '/' !in ext
    ensures LastIndex(dir + stem + "." + ext, '/') == |dir| - 1
  {
    var rest := stem + "." + ext;
    assert '/' !in rest;
    LastIndexAppend(dir, rest, '/');
    LastIndexUnique(dir, '/', |dir| - 1);
    assert dir + stem + "." + ext == dir + rest;
  }

  /** `get_file_name` of a name not ending in a newline, given where its last '.' and its last '/' are. */
  lemma FileStemAt(name: string, d: int, p: int)
    requires name == [] || name[|name| - 1] != '\n'
    requires LastIndex(name, '.') == d && LastIndex(name, '/') + 1 == p
    requires 0 <= d && p < d && IsWord(name[d + 1..])
    ensures FileStem(name) == Some(name[p..d])
  {
    assert !(name != [] && name[|name| - 1] == '\n');
  }

  lemma WordHasNoSeparators(w: string)
    requires IsWord(w)
    ensures '.' !in w && '/' !in w && w[|w| - 1] != '\n'
  {
    forall i | 0 <= i < |w| ensures w[i] != '.' && w[i] != '/' {
      assert IsWordChar(w[i]);
    }
    assert IsWordChar(w[|w| - 1]);
  }

  predicate IsFontExtensionChar(c: char) {
    c == 'o' || c == 'd' || c == 't' || c == 'f' || c == 'O' || c == 'T' || c == 'F'
  }

  /** Whether `re.match(r'(.+)\.[odtfOTF]{3}', name)` succeeds: a prefix match, not anchored at the end. */
  predicate IsFontFileName(name: string) {
    exists d :: 1 <= d && d + 3 < |name| && name[d] == '.' && FontDotAt(name, d)
  }

  /** A '.' at `d` preceded by newline-free text and followed by three extension letters. */
  predicate FontDotAt(name: string, d: int)
    requires 1 <= d && d + 3 < |name|
  {
    && IsFontExtensionChar(name[d + 1]) && IsFontExtensionChar(name[d + 2]) && IsFontExtensionChar(name[d + 3])
    && forall i :: 0 <= i < d ==> name[i] != '\n'
  }

  /** Because the pattern is only matched at the start, anything may follow an accepted name. */
  lemma FontFileNamePrefixClosed(name: string, tail: string)
    requires IsFontFileName(name)
    ensures IsFontFileName(name + tail)
  {
    var d :| 1 <= d && d + 3 < |name| && name[d] == '.' && FontDotAt(name, d);
    var s := name + tail;
    assert s[d] == '.' && FontDotAt(s, d);
  }

  /** A name with a non-empty, newline-free stem and an extension of three font letters is accepted. */
  lemma FontFileNameWithExtension(stem: string, ext: string)
    requires stem != [] && '\n' !in stem
    requires |ext| == 3 && IsFontExtensionChar(ext[0]) && IsFontExtensionChar(ext[1]) && IsFontExtensionChar(ext[2])
    ensures IsFontFileName(stem + "." + ext)
  {
    var s := stem + "." + ext;
    assert s[|stem|] == '.' && FontDotAt(s, |stem|);
  }

  /** A '.' in front is not enough: the pattern needs at least one character before it. */
  lemma FontFileNameNeedsStem()
    ensures !IsFontFileName(".ttf")
  {
  }

  /** The directory of one character: `<dir>/<ord(c)>`. */
  function CharDir(dir: string, c: char): (p: string)
    ensures |p| > |dir| + 1 && p[..|dir|] == dir && p[|dir| + 1..] == Decimal(c as nat)
    ensures IsDigit(p[|p| - 1])
  {
    dir + "/" + Decimal(c as nat)
  }

  /** A character directory lives directly in `dir`. */
  lemma CharDirParent(dir: string, c: char)
    requires dir != []
    ensures Parent(CharDir(dir, c)) == dir
  {
    var code := Decimal(c as nat);
    var p := CharDir(dir, c);
    forall j | |dir| < j < |p| ensures p[j] != '/' {
      assert p[j] == code[j - |dir| - 1];
      assert IsDigit(code[j - |dir| - 1]);
    }
    LastIndexUnique(p, '/', |dir|);
  }

  /** A character directory ends in a digit, so no trailing '/' is removed from it. */
  lemma CharDirNorm(dir: string, c: char)
    ensures Norm(CharDir(dir, c)) == CharDir(dir, c)
  {
    var d := CharDir(dir, c);
    assert d[|d| - 1] != '/';
  }

  /** Different characters get different directories. */
  lemma CharDirInjective(dir: string, a: char, b: char)
    requires CharDir(dir, a) == CharDir(dir, b)
    ensures a == b
  {
    var pa, pb := CharDir(dir, a), CharDir(dir, b);
    assert pa[|dir| + 1..] == Decimal(a as nat);
    assert pb[|dir| + 1..] == Decimal(b as nat);
    DecimalInjective(a as nat, b as nat);
  }
}
