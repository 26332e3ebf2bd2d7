# char-generator in Dafny

A model of the core of char-generator, a Python tool that builds image datasets of characters. For each character of a charset and each font of a fonts directory, it renders one small image and saves it in a Keras-style `<out_dir>/charset/<code point>/<font>.png` tree. It also draws one sprite sheet per font that holds the whole charset, and it can make augmented copies of an image dataset (rotation, noise, translation or a row-wise warp).

The model covers the integer geometry, the string and path handling and the directory bookkeeping of five Python files:

- `src/generator/utils.py`:
  - the near-square factoring `get_near_dim_2d`;
  - the unit-step font-size search `estimate_font_size`;
  - `create_whiteboard`;
  - the glyph centring of `get_text_loc_in_sample`;
  - `get_file_name`.
- `src/generator/imgen.py` and `src/generator/im_gen.py`: the two class-based versions of `CharImageGenerator`.
- `generator/im_gen.py`: the older script version.
- `src/generator/data_augmentation.py`: `random_warp` and the selection, labelling and counter loop of `apply_random_transformation`.

Modules:

| file | module | what it holds |
|---|---|---|
| `wrappers.dfy` | `Wrappers` | `Option`, `Result` and `Outcome`, for None returns and raised exceptions |
| `text.dfy` | `Text` | `str.split()`, `str(int)`, `str.endswith` |
| `paths.dfy` | `Paths` | `os.path.join`, `split('/')`, the `get_file_name` stem, the font-file pattern, `<dir>/<ord(c)>` |
| `raster.dfy` | `Raster` | font objects, the render primitive as a parameter, pictures as the list of what was drawn where |
| `disk.dfy` | `Disk` | the file system as a class with a set of directories and a map of files; `os.mkdir`, `os.makedirs` and `save` as methods |
| `sprites.dfy` | `Sprites` | the row-major `init_pos` walk shared by the three generators |
| `utils.dfy` | `Utils` | `src/generator/utils.py` |
| `fontset.dfy` | `FontSet` | the `os.walk` font discovery and the font table of `load_font_set` |
| `charimages.dfy` | `CharImages` | what both `CharImageGenerator` classes share: the per-font run, the image paths, the sprite loop |
| `imgen.dfy` | `Imgen` | `src/generator/imgen.py` |
| `im_gen.dfy` | `ImGen` | `src/generator/im_gen.py` |
| `legacy_im_gen.dfy` | `LegacyImGen` | `generator/im_gen.py` |
| `augmentation.dfy` | `Augmentation` | `src/generator/data_augmentation.py` |

How the outside world is represented:

- **Fonts.** A font object is `Face(path, size, loadedAt)`. `size` is the Python attribute. `loadedAt` is the size FreeType instantiated the font at, which is what `getsize` and `getoffset` measure with. So `font.size = x` in `im_gen.py` changes the attribute but not the rendering, as in PIL.
- **Rendering.** `Renderer` holds `getsize`, `getoffset` and "does `ImageFont.truetype` succeed at this size" as function-valued parameters.
- **The file system.** `Disk.FileSystem` is a class with `dirs: set<string>` and `files: map<string, Picture>`, kept a tree by `Valid()`. `os.walk` and `os.listdir` results are parameters; whether `os.listdir` raises, and which error, is `ListDirFault`. The charset file's text is a parameter too.
- **Randomness.** Every random draw is a parameter within its stated bounds:
  - the jitter of a character is `jitter(font, k)`;
  - `random.choice` in pass `k` of the augmentation is `choice(k)`, taken modulo the list length;
  - the transformation drawn in pass `k` is `kind(k)`.
- **Dict order.** The iteration order of a font dict is a parameter `order`, required to list each key once.

Two things the source does, as written, show up directly in the model:

- **Draw font in `imgen.py`.** `create_char_image` draws with the font it fetched at the start of the call, not with the resized one it stores (`CharImages.Job.DrawFace`).
- **`None` paths in `im_gen.py`.** When the charset directory already exists, `create_and_save_charsets` builds its image paths from a `None` directory ("None/<code point>/<font>.png"). `create_sprites` without an output directory writes under "None/sprites". The paths are modelled as `Show(None) == "None"`.

Augmentation output: all images with the same label go into one sub-directory `join(output_folder, label)`. For a single-label input the output folder therefore holds one entry, not `limit` of them (`AugmentedWrites`; compare tests/test_data_augmentation.py:80).

## Model

| member | source | states |
|---|---|---|
| Text.Split | src/generator/imgen.py:39-42 | `load_char_set`'s `read().split()`: every token is non-empty and holds no whitespace character |
| Text.SplitKeepsInk | src/generator/imgen.py:40 | the tokens, concatenated, are exactly the non-whitespace characters of the file in order: splitting loses only whitespace |
| Text.SplitLines | tests/test_generator.py:17-24 | a file holding each token followed by a newline splits back into the same list of tokens |
| Text.CharsOf | src/generator/imgen.py:79-80 | a list of one-character strings read as characters: same length, position `i` holds the `i`-th string's only character |
| Text.Decimal | src/generator/imgen.py:80-81 | `str(ord(c))`: a non-empty run of decimal digits, one digit exactly for values below 10 |
| Text.DecimalInjective | src/generator/imgen.py:80-81 | different code points are printed differently |
| Paths.Join | src/generator/imgen.py:65 | `os.path.join`: an absolute second part wins; otherwise the result starts with the first part and ends with the second |
| Paths.Norm | src/generator/imgen.py:70-72 | removing trailing '/'s: never longer, empty only for "", and no trailing '/' left except on "/" |
| Paths.Parent | src/generator/imgen.py:72 | the parent of a path other than "", "." or "/" is strictly shorter, so the ancestor chain `os.makedirs` walks is finite |
| Paths.DirChain | src/generator/imgen.py:72 | the directories `os.makedirs` may create: none is a root and none has a trailing '/' |
| Paths.CharDirNorm | src/generator/imgen.py:79-83 | a character directory has no trailing '/' |
| Paths.DirChainShorter | src/generator/imgen.py:72 | no directory of the chain is longer than the path it leads to |
| Paths.DirChainClosed | src/generator/imgen.py:72 | every directory of the chain has its parent in the chain or directly below a root, so `makedirs` leaves a tree |
| Paths.SplitOn | src/generator/data_augmentation.py:105 | `str.split('/')`: at least one piece, and no piece contains the separator |
| Paths.SplitOnLast | src/generator/data_augmentation.py:105 | the last piece of the split is what follows the last separator |
| Paths.Label | src/generator/data_augmentation.py:105 | the label read off the last two separators contains no '/' |
| Paths.LabelIsRSplitLabel | src/generator/data_augmentation.py:105 | that label is exactly `path.rsplit('/')[-2]`, and is absent exactly when the split has fewer than two pieces |
| Paths.LabelOfStoredImage | src/generator/data_augmentation.py:103-105 | an image stored as `<dir>/<label>/<name>` is labelled with `<label>` |
| Paths.FileStem | src/generator/utils.py:7-10 | `get_file_name`: when the search matches, the stem is non-empty and holds no '/' |
| Paths.FileStemOfName | src/generator/utils.py:7-10 | `get_file_name(<dir>/<stem>.<ext>)` is `<stem>` for a word-character extension, even when the stem contains dots |
| Paths.FontFileNamePrefixClosed | src/generator/imgen.py:50 | `re.match` is not anchored at the end: whatever follows an accepted name, the name stays accepted |
| Paths.FontFileNameWithExtension | src/generator/imgen.py:50 | `<stem>.<ext>` is accepted when the stem is non-empty and newline-free and the extension is three of the letters o, d, t, f, O, T, F |
| Paths.FontFileNameNeedsStem | src/generator/imgen.py:50 | ".ttf" is rejected: `(.+)` needs a character before the dot |
| Paths.CharDir | src/generator/imgen.py:81 | `<dir>/<ord(c)>`: the directory, one separator, then the decimal code point |
| Paths.CharDirParent | src/generator/imgen.py:79-83 | a character directory lives directly in the charset directory |
| Paths.CharDirInjective | src/generator/imgen.py:79-83 | different characters get different directories |
| Raster.Renderer.TrueType | src/generator/imgen.py:106 | `ImageFont.truetype(path, size)` gives a font exactly when the file opens at that size; the font has that path and is instantiated at that size |
| Disk.MkDirInExistingDir | src/generator/imgen.py:82-86 | inside an existing directory, `os.mkdir` can only fail with FileExistsError, on an existing entry |
| Disk.FileSystem.MakeDir | src/generator/im_gen.py:84 | `os.mkdir`: raises what `MkDirFault` says (FileExistsError on an existing entry, NotADirectoryError when some ancestor is a regular file, FileNotFoundError when the parent is missing); otherwise adds exactly that directory; files untouched; the tree invariant kept |
| Disk.FileSystem.MakeDirs | src/generator/imgen.py:72 | `os.makedirs`: raises what `MakeDirsFault` says, with `exist_ok` deciding only about an existing target; otherwise adds the missing ancestors and the target, which then exists |
| Disk.FileSystem.Save | src/generator/imgen.py:147 | `save`: writes or overwrites exactly that file, or raises what `SaveFault` says (IsADirectoryError on a directory, NotADirectoryError when some ancestor is a regular file, FileNotFoundError when the parent is missing) and changes nothing; directories untouched |
| Disk.ListDirFault | src/generator/data_augmentation.py:78 | `os.listdir` succeeds exactly on an existing directory; otherwise NotADirectoryError when the path is a regular file or lies below one, FileNotFoundError when it is missing |
| Disk.ListDirBelowFile | src/generator/data_augmentation.py:78 | listing "f/x" or "f/" where `f` is a regular file raises NotADirectoryError |
| Disk.AbsentDirIsEmpty | src/generator/imgen.py:163 | a directory that does not exist has no entries |
| Sprites.NextCellWalk | src/generator/imgen.py:205-208 | one `init_pos` step from the origin of cell `k` lands on the origin of cell `k + 1` on a board `w` cells wide |
| Sprites.CellWalkIsRowMajor | src/generator/imgen.py:191-208 | after `k` characters, `init_pos` is `((k mod w)·sw, (k div w)·sh)` |
| Sprites.CellInsideBoard | src/generator/imgen.py:158-159 | each of the first `w·h` cells lies entirely on a `w·sw` by `h·sh` board |
| Sprites.CellBelowBoard | generator/im_gen.py:119-122 | a cell after the first `w·h` starts below the board |
| Sprites.CellsDistinct | src/generator/imgen.py:191-208 | different characters get different cells |
| Utils.WalkShape | src/generator/utils.py:20-22 | the shape of the `argmin` walk at a given side sum: the first side equals the second or exceeds it by one, and both are at least 2 |
| Utils.AreaGrows | src/generator/utils.py:21-22 | each step of the walk grows the product |
| Utils.AreaMonotone | src/generator/utils.py:21-22 | the product never shrinks along the walk |
| Utils.CoveringLevel | src/generator/utils.py:21 | the loop exits at the first shape whose product reaches `n`: that shape covers `n` and no earlier shape does |
| Utils.CoveringLevelUnique | src/generator/utils.py:21-22 | a shape that covers `n` while its predecessor does not is the one the loop exits at |
| Utils.NearDimCovers | src/generator/utils.py:20-24 | for `n > 2`: the product is at least `n`; the sides differ by at most one, larger first in 'wide' mode and second otherwise; the previous shape of the walk does not cover `n` |
| Utils.NearDimSmall | src/generator/utils.py:17-18 | `(n, 1)` for `n <= 2` |
| Utils.NearDim210 | tests/test_utils.py:8-12 | 210 gives (15, 14) in 'wide' mode and (14, 15) otherwise |
| Utils.NearDimMinimisesLongerSide | src/generator/utils.py:20-24 | no shape of positive sides holding `n` cells has a shorter longer side |
| Utils.GetNearDim2d | src/generator/utils.py:13-24 | the list-mutating loop returns `NearDim2d`, the shape the lemmas above describe |
| Utils.SizeSearchKeepsFittingFont | src/generator/utils.py:33-39 | when the loaded font already fits within `eps`, its `size` attribute is returned unchanged |
| Utils.VisitStep | src/generator/utils.py:43 | each step changes the size by exactly +1 when the error is positive and by -1 otherwise |
| Utils.SettleIsFirstFitPlusStep | src/generator/utils.py:39-46 | the loop returns `r` exactly when some step within the budget is the first size that fits, every size opened on the way opens, and `r` is the size one step past it |
| Utils.ReturnedSizeFitsWhenGradual | src/generator/utils.py:39-46 | if the measure grows by at most one pixel per size and `eps >= 1`, the returned size still fits |
| Utils.SettleConvergesUpward | src/generator/utils.py:39-44 | text too small at the start, a fitting size above, a gradual measure and fonts that open: the search settles within that many steps |
| Utils.SettleConvergesDownward | src/generator/utils.py:39-44 | the same from above, for text too large at the start |
| Utils.EstimateFontSize | src/generator/utils.py:27-46 | the `while` loop computes `SizeSearch`: first error measured with the font as loaded, walk from its `size`, result the last font's size |
| Utils.CreateWhiteboard | src/generator/utils.py:49-63 | None exactly when neither `shape` nor `n_samples` is given; an explicit `shape` verbatim; otherwise `n_samples` cells of the sample's size |
| Utils.TextLocInSample | src/generator/utils.py:66-86 | the ink box, shifted by the offset and the jitter, leaves equal margins on each axis, the odd pixel on the far side |
| Utils.TextLocUnclamped | src/generator/utils.py:83-84 | no clamping: the location is negative on exactly the axes where text and offset overflow the cell |
| Utils.TextLocDeterministic | src/generator/utils.py:82-84 | without jitter, `loc = floor((sample - size - offset) / 2)` per axis |
| Utils.JitterMovesLocation | src/generator/utils.py:74-80 | a jitter `j` within `min(sample) // 10` moves the location by `-j/2`, rounded, per axis |
| FontSet.AcceptedMembers | src/generator/imgen.py:49-50 | a directory contributes exactly its names the font pattern accepts, joined to it |
| FontSet.CandidatesMembers | src/generator/imgen.py:48-50 | the walk finds exactly the accepted names of every directory it visits |
| FontSet.FontTableSucceeds | src/generator/im_gen.py:51-55 | the table is built exactly when every accepted name has a stem and, where a load failure raises, every font loads |
| FontSet.FontTableKeys | src/generator/imgen.py:51-56 | the keys are the stems of the fonts that load |
| FontSet.FontTableValues | src/generator/imgen.py:53 | the entry of a stem is the font loaded from the last loadable file with that stem: later files overwrite earlier ones |
| FontSet.FontTableFailurePersists | src/generator/im_gen.py:51-55 | once the table fails on some files, it fails the same way whatever files follow |
| FontSet.DirTableExtends | src/generator/imgen.py:48-56 | scanning one more directory continues the table of everything found before it |
| FontSet.DirTableFailurePersists | src/generator/im_gen.py:52-55 | a failure part-way through a directory is the failure of the whole directory |
| FontSet.WalkFailurePersists | src/generator/im_gen.py:51-55 | a failure after some directories is the failure of the whole walk |
| FontSet.PathsOf | generator/im_gen.py:52 | the collected paths are the found files' paths, position by position |
| CharImages.CharImagePathInjective | src/generator/imgen.py:142-146 | different character and font pairs never share an image file |
| CharImages.BoardPathInjective | src/generator/imgen.py:169-171 | different fonts get different boards |
| CharImages.Job.Step | src/generator/imgen.py:95-109 | a character's search gives a table entry exactly for a settled search; the entry keeps the font file and takes the searched size; when the size is unchanged, or the size is only reassigned, the entry always exists |
| CharImages.Job.CharPicture | src/generator/imgen.py:111-122 | a character image is a canvas of the sample's size showing exactly that character |
| CharImages.Job.Run | src/generator/imgen.py:134-139 | a font's run saves at most one image per character |
| CharImages.Job.RunShowsChars | src/generator/imgen.py:133-147 | image `i` of a run shows character `i`, alone, on a cell of the sample's size |
| CharImages.StepKeepsFittingFont | src/generator/imgen.py:104-106 | an entry that already fits the character is kept as it is |
| CharImages.RunKeepsFontFile | src/generator/im_gen.py:99 | a run never changes the file of a font entry, and reassigning `size` never re-instantiates the font |
| CharImages.Job.SpriteFace | src/generator/imgen.py:178-187 | sizing for "H" changes only the `size` attribute, never the file or the instantiated font |
| CharImages.Job.BoardMark | src/generator/imgen.py:192-203 | the `k`-th mark of a sheet draws character `k` with the font |
| CharImages.Job.Board | src/generator/imgen.py:177-203 | a sheet is a canvas of the board's size with one mark per character, in charset order |
| CharImages.SpriteCellsOnBoard | src/generator/imgen.py:158-208 | on the `get_near_dim_2d(n)` board every character's cell lies on the board and no two share a cell |
| CharImages.WrittenKeys | src/generator/imgen.py:142-147 | saving a run adds exactly its images' paths |
| CharImages.WrittenKeeps | src/generator/imgen.py:147 | a file no image is saved to keeps its contents |
| CharImages.WrittenLast | src/generator/imgen.py:142-147 | for a repeated character the image kept is that of its last occurrence |
| CharImages.WrittenForOtherFont | src/generator/imgen.py:142-146 | a path written for one font is no image path of another font |
| CharImages.Job.FontSaved | src/generator/imgen.py:134-147 | one font's loop: the font's path never changes and files are only added |
| CharImages.FontSavedDone | src/generator/imgen.py:134-147 | a font loop that completes saves the run's images in order and leaves the run's last font |
| CharImages.FontSavedKeeps | src/generator/imgen.py:142-147 | a file that is no image path of the font keeps its contents, whether the loop completes or raises |
| CharImages.FontSavedRaised | src/generator/imgen.py:147 | the exception a font loop raises is the save fault of one of its characters' image paths |
| CharImages.CharImagePathParent | src/generator/imgen.py:142-146 | an image path lies directly in its character's directory and has no trailing '/' |
| CharImages.CharImageSaves | src/generator/imgen.py:147 | a save into an existing character directory, at a path that is no directory, succeeds |
| CharImages.FontSavedSucceeds | src/generator/imgen.py:134-147 | when every character directory exists and no image path is a directory, the font loop completes |
| CharImages.CharsetsSaved | src/generator/imgen.py:133-147 | the font loop, with the first save fault as its outcome: it keeps the set of fonts in the table and only adds files |
| CharImages.CharsetsSavedStep | src/generator/imgen.py:133-147 | a raise ends the loop; otherwise each font's run starts from its table entry as the earlier fonts left it |
| CharImages.CharsetsSavedRaisedPersists | src/generator/imgen.py:147 | a failing save ends the font loop: later fonts change nothing |
| CharImages.CharsetsSavedDoneBefore | src/generator/imgen.py:133-147 | a loop that completes completed every prefix of it |
| CharImages.CharsetsSavedSucceeds | src/generator/imgen.py:133-147 | when every character directory exists, no image path is a directory and no font name holds '/', the font loop completes |
| CharImages.CharsetsSavedKeepsOtherFonts | src/generator/imgen.py:133 | a font outside the loop keeps its entry |
| CharImages.CharsetsSavedKeepsOtherFiles | src/generator/imgen.py:142-147 | a file that is no image path of a looped font keeps its contents, whether the loop completes or raises |
| CharImages.CharsetsSavedFontImage | src/generator/imgen.py:133-147 | other fonts do not interfere: with distinct font names, when the loop completes every image a font saved is still there |
| CharImages.CharsetsSavedFontImageBefore | src/generator/imgen.py:133-147 | an image an earlier font saved is still there, unchanged, after the last font's loop completes |
| CharImages.SpriteSheets | src/generator/imgen.py:168-211 | the sprite loop keeps the set of fonts in the table |
| CharImages.SpriteSheetsRaisedPersists | src/generator/imgen.py:211 | a failing save ends the loop: later fonts change nothing |
| CharImages.SpriteSheetsDoneBefore | src/generator/imgen.py:168-211 | a loop that completes completed every prefix of it |
| CharImages.SpriteSheetsKeepFiles | src/generator/imgen.py:172-174 | an existing file is never overwritten: existing boards are skipped |
| CharImages.SpriteSheetsNewFiles | src/generator/imgen.py:169-171 | every new file is the board of a looped font |
| CharImages.SpriteSheetsComplete | src/generator/imgen.py:168-211 | when the loop completes, every looped font has its board |
| CharImages.SpriteSheetsKeepOtherFonts | src/generator/imgen.py:168 | a font outside the loop keeps its entry |
| CharImages.SpriteSheetsBoard | src/generator/imgen.py:177-211 | a font whose board was missing gets the sheet drawn with its entry resized for "H" |
| CharImages.DrawBoard | src/generator/imgen.py:191-208 | the drawing loop puts character `k` at its cell's `init_pos` plus its location in the cell |
| CharImages.SaveSpriteSheet | src/generator/imgen.py:177-211 | one font's sheet: sized for "H" (unchanged on OSError), drawn, and saved at its board path or the save's exception |
| CharImages.SpriteBoard | src/generator/imgen.py:158-159 | the board is `create_whiteboard(n_samples=get_near_dim_2d(n))` |
| Imgen.CharsetDirEffect | src/generator/imgen.py:60-88 | directories are only added; success returns the target, which then exists, and needs a charset |
| Imgen.CharDirsMadeMembers | src/generator/imgen.py:79-86 | the character loop makes the directory of every character not blocked by a file, and nothing else |
| Imgen.CharsetDirMakesCharDirs | src/generator/imgen.py:65-88 | after success every character has its directory under the target, and every new directory is the target, one of its ancestors or a character directory |
| Imgen.CharsetDirLetsImagesSave | src/generator/imgen.py:131-147 | after a successful `create_charset_dir`, every save of the font loop succeeds unless a file blocks a character directory, a directory holds an image's name or a font name holds '/' |
| Imgen.CharsetDirIgnoresCreateFlag | src/generator/imgen.py:70-77 | `create_parent_dir` changes nothing: `makedirs` always creates parents and runs only for a missing target |
| Imgen.CharsetDirIdempotent | src/generator/imgen.py:70-86 | after a successful call a second call succeeds and creates nothing |
| Imgen.CharImageGenerator.constructor | src/generator/imgen.py:18-24 | `out_dir or default_out_dir`; the table and charset as given; `charset_size` 0 for None, else the charset's length |
| Imgen.CharImageGenerator.Load | src/generator/imgen.py:26-33 | the charset is the split file; the table is `load_font_set`'s, its exception propagated; the output directory as in the constructor |
| Imgen.CharImageGenerator.LoadFontSet | src/generator/imgen.py:44-58 | the nested walk loops compute `FontTable`, skipping fonts that do not load |
| Imgen.CharImageGenerator.ScanDirectory | src/generator/imgen.py:49-56 | the inner loop adds one directory's files to the table built so far |
| Imgen.CharImageGenerator.CreateCharsetDir | src/generator/imgen.py:60-88 | returns or raises, and changes the directories, as `CharsetDirEffect` on the target `join(out_dir, dir_name)`, the generator's charset standing in for None; files untouched |
| Imgen.CharImageGenerator.MakeCharDirs | src/generator/imgen.py:79-86 | the `mkdir` loop adds exactly the directories `CharDirsMade` names |
| Imgen.CharImageGenerator.MakeCharDir | src/generator/imgen.py:82-86 | one `mkdir`, FileExistsError skipped: the directory is added unless a file holds its name |
| Imgen.CharImageGenerator.CreateCharImage | src/generator/imgen.py:90-122 | re-raises the search's failure with the table untouched; otherwise the entry is replaced by the step's font and the image is drawn with the font fetched at the start |
| Imgen.CharImageGenerator.SaveCharImage | src/generator/imgen.py:134-147 | a character whose image fails leaves files and table alone; otherwise its image is saved at `<dir>/<code point>/<font>.png` or the save raises |
| Imgen.CharImageGenerator.SaveFontImages | src/generator/imgen.py:134-147 | one font's loop: its outcome, files and the font's entry are `FontSaved` (replacing the entry at each step); no other entry changes |
| Imgen.CharImageGenerator.SaveCharImageAt | src/generator/imgen.py:134-147 | one pass of that loop: an image is drawn exactly when the step succeeds, the outcome is that path's save fault, and the rest of `FontSaved` from here is unchanged |
| Imgen.CharImageGenerator.CreateAndSaveCharsets | src/generator/imgen.py:129-147 | the charset directory first (its exception raised); then a None table raises; otherwise outcome, files and table are `CharsetsSaved` over the directories it left |
| Imgen.CharImageGenerator.SaveCharsets | src/generator/imgen.py:133-147 | the font loop: outcome, files and table are `CharsetsSaved` |
| Imgen.CharImageGenerator.CreateSprites | src/generator/imgen.py:149-212 | nothing without fonts or characters; FileExistsError for a non-empty sprites directory; the `makedirs` exception; otherwise the directory is made and files and table are as `SpriteSheets` says |
| Imgen.CharImageGenerator.SaveSpriteSheets | src/generator/imgen.py:168-211 | the sprite loop's outcome, files and table are `SpriteSheets` |
| Imgen.CharImageGenerator.SaveSpriteSheetAt | src/generator/imgen.py:168-211 | one pass of the sprite loop extends `SpriteSheets` by one font |
| ImGen.PrefixDir | src/generator/im_gen.py:73-77 | None becomes "."; a prefix ending in '/' loses exactly that one '/'; any other prefix is kept |
| ImGen.CharDirsStrict | src/generator/im_gen.py:86-89 | the strict `mkdir` loop only adds directories |
| ImGen.CharDirsStrictStep | src/generator/im_gen.py:86-89 | after a failure the loop is over; otherwise the next character's `mkdir` raises or adds its directory |
| ImGen.CharDirsStrictFailurePersists | src/generator/im_gen.py:86-89 | the first failure is the loop's result |
| ImGen.CharDirMkDir | src/generator/im_gen.py:89 | with only the directories of the earlier characters made, `mkdir` raises FileExistsError exactly for a character seen before |
| ImGen.CharDirsStrictSucceedsIffNoRepeats | src/generator/im_gen.py:84-91 | in a fresh directory the loop succeeds exactly when no character repeats, making one directory per character; a repeat raises FileExistsError |
| ImGen.CharsetDirEffect | src/generator/im_gen.py:59-91 | directories are only added; a bare `return` adds at most the prefix; a returned path is `<prefix>/<dir_name>` and exists |
| ImGen.CharsetDirAt | src/generator/im_gen.py:79-91 | an existing target returns None and creates nothing; a returned path is the target, which exists |
| ImGen.CharsetDirRefusals | src/generator/im_gen.py:63-82 | a missing prefix without `create_prefix_dir`, or an existing target, returns None with nothing created; when asked, the missing prefix is created |
| ImGen.CharsetDirFresh | src/generator/im_gen.py:84-91 | on a fresh target the call returns it exactly when no character repeats, having made it and one directory per character; a repeat raises FileExistsError |
| ImGen.FreshCharsetReady | src/generator/im_gen.py:80-91 | on a fresh target with no repeated character the call returns it, every character directory exists afterwards and no image path became a directory |
| ImGen.FreshCharsetLetsImagesSave | src/generator/im_gen.py:130-144 | into a fresh charset directory with no repeated character, every save of the font loop succeeds unless a directory holds an image's name or a font name holds '/' |
| ImGen.ImagePathsOutside | src/generator/im_gen.py:139-143 | an image path is neither the charset directory nor one of its character directories |
| ImGen.CharsetDirSecondCall | src/generator/im_gen.py:80-82 | a second call after a successful one returns None and creates nothing |
| ImGen.NewDirHasNoCharDirs | src/generator/im_gen.py:84-86 | a directory that does not exist yet has no character directories below it |
| ImGen.CharImageGenerator.constructor | src/generator/im_gen.py:17-23 | fields as given, `out_dir` with no default; `charset_size` 0 for None, else the charset's length |
| ImGen.CharImageGenerator.Load | src/generator/im_gen.py:25-36 | as written: the table's exception, then `create_charset_dir`'s, and otherwise always TypeError for the `fontset` keyword; directories changed only by `create_charset_dir` |
| ImGen.CharImageGenerator.LoadFixed | src/generator/im_gen.py:25-36 | as intended: a fresh generator with the table, the split charset and, when asked, the directory `create_charset_dir` returned |
| ImGen.CharImageGenerator.LoadFontSet | src/generator/im_gen.py:47-57 | the nested walk loops compute `FontTable` with a font that does not load raising |
| ImGen.CharImageGenerator.ScanDirectory | src/generator/im_gen.py:52-55 | the inner loop adds one directory's files to the table built so far |
| ImGen.CharImageGenerator.CreateCharsetDir | src/generator/im_gen.py:59-91 | returns or raises, and changes the directories, as `CharsetDirEffect`; files untouched |
| ImGen.CharImageGenerator.MakeCharsetDir | src/generator/im_gen.py:79-91 | the part after the prefix is settled is `CharsetDirAt` |
| ImGen.CharImageGenerator.MakeCharDirs | src/generator/im_gen.py:86-89 | the strict `mkdir` loop is `CharDirsStrict` |
| ImGen.CharImageGenerator.CreateCharImage | src/generator/im_gen.py:93-121 | re-raises the search's failure with the table untouched; otherwise the entry's `size` is reassigned and the image drawn with that font object |
| ImGen.CharImageGenerator.SaveCharImage | src/generator/im_gen.py:133-144 | a character whose image fails leaves files and table alone; otherwise its image is saved or the save raises |
| ImGen.CharImageGenerator.SaveFontImages | src/generator/im_gen.py:133-144 | one font's loop: its outcome, files and the font's entry are `FontSaved` (reassigning the entry at each step); no other entry changes |
| ImGen.CharImageGenerator.SaveCharImageAt | src/generator/im_gen.py:133-144 | one pass of that loop: an image is drawn exactly when the step succeeds, the outcome is that path's save fault, and the rest of `FontSaved` from here is unchanged |
| ImGen.CharImageGenerator.CreateAndSaveCharsets | src/generator/im_gen.py:128-144 | the charset directory under `out_dir` first; a None table or charset raises; otherwise outcome, files and table are `CharsetsSaved` over the directories it left, under "None" when the directory existed |
| ImGen.CharImageGenerator.SaveCharsets | src/generator/im_gen.py:132-144 | the font loop: outcome, files and table are `CharsetsSaved` |
| ImGen.CharImageGenerator.CreateSprites | src/generator/im_gen.py:146-206 | nothing without fonts or characters; a missing sprites directory is made with `mkdir` (its exception raised) with no emptiness check; then files and table are as `SpriteSheets` says |
| ImGen.CharImageGenerator.SaveSpriteSheets | src/generator/im_gen.py:162-205 | the sprite loop's outcome, files and table are `SpriteSheets` |
| ImGen.CharImageGenerator.SaveSpriteSheetAt | src/generator/im_gen.py:162-205 | one pass of the sprite loop extends `SpriteSheets` by one font |
| LegacyImGen.Script.constructor | generator/im_gen.py:10 | `CHARSET_SIZE` starts at 0 |
| LegacyImGen.Script.LoadCharSet | generator/im_gen.py:38-45 | the tokens are the split file, `CHARSET_SIZE` becomes their count, and they spell out every non-blank character |
| LegacyImGen.LoadFontSet | generator/im_gen.py:48-54 | the full paths of the accepted files in walk order: exactly the files the walk reports under an accepted name |
| LegacyImGen.FontOf | generator/im_gen.py:23-35 | a font object exactly for a settled search, instantiated at the final size; OSError for a size that does not open |
| LegacyImGen.LegacySearchIsUtilsSearch | generator/im_gen.py:22-35 | the script's search is the utils search on the font loaded at the start size |
| LegacyImGen.LegacySearchResult | generator/im_gen.py:22-35 | the start size when it fits, otherwise one step past the first fitting size of the walk; nothing when the start size does not open |
| LegacyImGen.EstimateFontSize | generator/im_gen.py:22-35 | the loop returns `FontOf` of that search |
| LegacyImGen.Whiteboard | generator/im_gen.py:57-61 | 15 by 14 cells of the sample's size, whatever the charset |
| LegacyImGen.WhiteboardFor210 | generator/im_gen.py:58-59 | the fixed board is the one the class-based generators compute for 210 characters |
| LegacyImGen.CharLoc | generator/im_gen.py:102-109 | per axis `floor((sample - font.size - (offset + jitter)) / 2)`, the scalar `size` subtracted on both axes |
| LegacyImGen.BoardJitterWithinBound | generator/im_gen.py:104-106 | the draws in [-3, 1] and [1, 3] lie within the utils jitter bound of a 32 x 32 cell |
| LegacyImGen.CharLocAsUtils | generator/im_gen.py:108-109 | compared with the utils centring: equal when the measured box is a square of the font's size, otherwise off by half the difference |
| LegacyImGen.BoardMark | generator/im_gen.py:111-117 | the `k`-th mark draws the `k`-th text with the searched font |
| LegacyImGen.Fontboard | generator/im_gen.py:98-122 | a board of `Whiteboard` size with one mark per text, in order |
| LegacyImGen.BoardMarkCell | generator/im_gen.py:100-122 | text `k` is in cell `(k mod 15, k div 15)`: on the board for the first 210, below it after |
| LegacyImGen.BoardCellsDistinct | generator/im_gen.py:100-122 | different texts are in different cells |
| LegacyImGen.DrawFontboard | generator/im_gen.py:98-122 | the drawing loop produces `Fontboard` |
| LegacyImGen.BoardProbe | generator/im_gen.py:87-93 | the search of a font file is for "H" with tolerance 8 |
| LegacyImGen.FontboardsStep | generator/im_gen.py:75-126 | after an exception the loop is over; otherwise one more font file is handled |
| LegacyImGen.FontboardsRaisedPersists | generator/im_gen.py:75-126 | the first exception ends the loop |
| LegacyImGen.BoardEffectFiles | generator/im_gen.py:76-125 | one font file keeps every file and adds at most its board; when it completes its stem matched, and a font whose search succeeds has its board |
| LegacyImGen.FontboardsKeepFiles | generator/im_gen.py:80-82 | an existing file, a board in particular, is never overwritten |
| LegacyImGen.FontboardsNewFiles | generator/im_gen.py:86-96 | every new file is the board of a font file whose search succeeded, drawn with the searched font |
| LegacyImGen.FontboardsComplete | generator/im_gen.py:75-126 | when the loop completes every stem matched and every font whose search succeeds has its board |
| LegacyImGen.CreateFontboard | generator/im_gen.py:64-126 | the font loop's outcome and files are `Fontboards`; directories untouched |
| LegacyImGen.CreateFontboardAt | generator/im_gen.py:75-126 | one pass of the font loop extends `Fontboards` by one font file |
| Augmentation.Roll | src/generator/data_augmentation.py:48-51 | `np.roll`: same length, position `j` holds the element `shift` places before it, cyclically |
| Augmentation.RollPermutes | src/generator/data_augmentation.py:48-51 | a roll keeps the multiset of the row's values |
| Augmentation.RollInverse | src/generator/data_augmentation.py:48-51 | rolling back by the same shift restores the row |
| Augmentation.RowOf | src/generator/data_augmentation.py:48 | `a[i, :]`: the row's values in column order |
| Augmentation.CopyImage | src/generator/data_augmentation.py:45 | `copy()`: a fresh array of the same shape and values |
| Augmentation.RollRow | src/generator/data_augmentation.py:48-51 | row `i` is rolled in place, every other row kept |
| Augmentation.RandomWarp | src/generator/data_augmentation.py:39-53 | an image with no rows raises (the division by `shape[0]`); otherwise a fresh array of the input's shape whose row `i` is input row `i` rolled by `shift(i)`; the input is only read |
| Augmentation.SelectFlat | src/generator/data_augmentation.py:77-80 | at most one selected path per listed name |
| Augmentation.SelectFlatMembers | src/generator/data_augmentation.py:77-80 | the non-recursive selection is exactly the listed names ending in the image type whose joined path is a regular file |
| Augmentation.SelectFlatDirect | src/generator/data_augmentation.py:77-80 | with a full listing: every regular file directly in the input folder whose name ends in the image type |
| Augmentation.SelectIn | src/generator/data_augmentation.py:83-86 | at most one selected path per name of a directory |
| Augmentation.SelectInMembers | src/generator/data_augmentation.py:83-86 | one directory of the walk contributes exactly its names ending in the image type, joined to it |
| Augmentation.SelectTreeMembers | src/generator/data_augmentation.py:82-86 | the recursive selection is exactly the files of the whole walk whose names end in the image type |
| Augmentation.Iterations | src/generator/data_augmentation.py:88-91 | `limit or len(image_files)`: the count for None or 0, otherwise the limit, and no passes for a negative limit |
| Augmentation.LabelOf | src/generator/data_augmentation.py:103-105 | the label has no '/', and is "" with `ignore_label` |
| Augmentation.OutPathInjective | src/generator/data_augmentation.py:106-112 | different ids give different output paths, whatever the labels |
| Augmentation.AugmentStepFiles | src/generator/data_augmentation.py:93-115 | a pass that raises writes nothing; one that completes writes exactly the chosen image, transformed, at its label's path with its id |
| Augmentation.PassesRaisedPersists | src/generator/data_augmentation.py:90-117 | after a pass raises, more passes change nothing |
| Augmentation.PassesKeepPaths | src/generator/data_augmentation.py:90-117 | passes that each write one file never remove a file |
| Augmentation.PassesWrite | src/generator/data_augmentation.py:90-117 | with injective targets, when `n` passes complete, pass `k` completed and its image is still at its target |
| Augmentation.PassesNewFile | src/generator/data_augmentation.py:90-117 | every new file is the target of a pass that completed |
| Augmentation.AugmentedNext | src/generator/data_augmentation.py:90-117 | pass `n` runs on what the first `n` passes left, unless one of them raised |
| Augmentation.AugmentedRaisedPersists | src/generator/data_augmentation.py:90-117 | the first exception ends the loop |
| Augmentation.AugmentedWrites | src/generator/data_augmentation.py:90-117 | when `n` passes complete, for every `k < n` the file `join(output, label)/augmented_image_k.jpg` holds the `k`-th chosen image under the `k`-th transformation |
| Augmentation.AugmentedKeepsPaths | src/generator/data_augmentation.py:90-117 | files are only added or overwritten, never removed |
| Augmentation.AugmentedNewFiles | src/generator/data_augmentation.py:90-117 | every new file is the output of one of the passes |
| Augmentation.AugmentedEmptySelection | src/generator/data_augmentation.py:93 | with nothing selected, the first pass raises on `random.choice` and nothing is written |
| Augmentation.ApplyRandomTransformation | src/generator/data_augmentation.py:56-117 | outcome, directories and files are `Apply`: the output folder made when missing; without `recurse`, the listing of an input folder that is not a directory raises what `ListDirFault` says (NotADirectoryError for a file or a path below one, FileNotFoundError for a missing folder); then the selection and `Iterations` passes |
| Augmentation.AugmentPasses | src/generator/data_augmentation.py:90-117 | the counter loop's outcome and file system are `Augmented` for `max(limit, 0)` passes |
| Augmentation.AugmentAt | src/generator/data_augmentation.py:93-117 | one pass of the counter loop is `AugmentStep` |

## Left out

- Rendering is not modelled. Pixels, colours, `Image.new`, `ImageDraw.text` and `io.imread` are left out. A picture records its size and what was drawn where. `getsize`, `getoffset` and whether `ImageFont.truetype` opens a file are parameters.
- The rotation, noise and translation transformations are PIL and skimage internals. A transformed image is the tag `Transformed(kind, source)`. Only `random_warp`'s row loop is modelled on arrays.
- `random_warp`'s shift, `ceil(a * sin(2 pi i w))`, is floating point and random. It is the parameter `shift: int -> int`, any integer per row.
- Randomness enters as parameters within the source's bounds: the jitter draws, `random.choice` (an index taken modulo the list's length) and the transformation drawn.
- Console output (`print` to stdout and stderr) is not modelled. So are the exception messages, such as the `sys.stderr` that `imgen.py`'s FileExistsError formats into its text.
- The command-line parts are not modelled: `parse_args` and `main` of data_augmentation.py, run.py, scraper/font-scrape.py, and the `__main__` block and module-level `exit` of generator/im_gen.py. The string-typed `--limit` that `main` passes is not modelled either: `limit` is an optional integer.
- The `generate_char_images` functions of the three generators are empty stubs and are not modelled.
- Utils.EstimateFontSize: the search may never stop in the source. It runs with a step budget (`fuel`), and running out is `Unsettled`. It is the fault `SizeSearchUnsettled`. In src/generator/imgen.py and src/generator/im_gen.py it ends the font's character loop, as an OSError does. In generator/im_gen.py it is raised and ends the font loop, where an OSError only skips the font. `SettleConvergesUpward` and `SettleConvergesDownward` give conditions under which the budget suffices.
- CharImages.Job.SpriteFace: in `create_sprites` (src/generator/imgen.py:178-187 and src/generator/im_gen.py:172-181) a search that runs out of budget is treated like the caught OSError: the font keeps its size and its sheet is still drawn and saved. The source would keep searching and never reach the save, so `SpriteSheetsComplete` and `SpriteSheetsNewFiles` count a board for such a font that the source never writes.
- Imgen.CharImageGenerator.Load: requires every charset token to be one character, because the charset is modelled as a sequence of characters. A longer token makes `ord` raise TypeError later, which is not modelled.
- ImGen.CharImageGenerator.Load: requires every charset token to be one character, for the same reason; the `ord` TypeError a longer token would cause later is not modelled.
- ImGen.CharImageGenerator.LoadFixed: requires every charset token to be one character, for the same reason; the `ord` TypeError a longer token would cause later is not modelled.
- Paths.FileStem: `\w` is modelled as the ASCII letters, digits and '_'. Python 3's `\w` also matches non-ASCII letters and digits, so an extension holding one ("a.ttfé") gives no stem here where the source gives "a". Unicode character classes are not modelled.
- The charset file is not read through the file system model: `Imgen.CharImageGenerator.Load`, `ImGen.CharImageGenerator.Load`, `ImGen.CharImageGenerator.LoadFixed` and `LegacyImGen.Script.LoadCharSet` take its text as the parameter `content`. The FileNotFoundError or IsADirectoryError that `open(path)` raises (src/generator/imgen.py:39, src/generator/im_gen.py:42, generator/im_gen.py:39), which in src/generator/imgen.py comes before any error of `load_font_set`, and read or decoding errors are not modelled.
- Paths are compared as strings after removing trailing '/'s. `.`, `..`, repeated separators and symbolic links are not resolved.
- `os.walk`'s sub-directory lists are not used, and the walk's visiting order is the order of the given entries.
- Python's `ImageFont` caches and `encoding='utf-8'` are not modelled. Neither is the `test_train_split` parameter, which `create_charset_dir` never reads.
- tests/test_data_augmentation.py:49 calls `random_warp` in the test named for translation. The tests are used only as evidence for the properties above.

## Findings

| source | as written | input that shows it | evidently intended | confidence | as-written member | corrected member |
|---|---|---|---|---|---|---|
| src/generator/im_gen.py:36 | `load` calls the constructor with the keyword `fontset=`, which `__init__` (line 17) does not accept, so every call that reaches it raises TypeError | any charset file and a font directory whose fonts all load, e.g. an empty one | pass the table as `font_dct=fontset` and return the generator | not executed | ImGen.CharImageGenerator.Load | ImGen.CharImageGenerator.LoadFixed |
