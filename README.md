# Icon sprite pipeline of the Flynt theme, in Dafny

This project models the icon sprite pipeline of a WordPress theme. Four
parts of the theme handle icons, and each is modelled as it is written:

- **The runtime repository** (`lib/Utils/IconSprite.php`, module
  `RuntimeSprite`). It is a class with two static maps: cached sprite
  documents by sprite id, and the icon map from sprite id to icon id to
  `{viewBox, sprite}`. The PHP code:
  - derives icon ids from file paths;
  - normalises SVG text (prolog removal, first `<svg…>…</svg>` region, viewBox fallbacks);
  - assembles sprites and builds each one at most once;
  - looks up an icon's first holder and renders `<svg …><use href="#id"></use></svg>`.
- **The build script** (`scripts/build-icons.js`, module `BuildIcons`). It
  has its own file collection, id rule and normaliser. It generates each
  sprite with its manifest. Its driver loop writes one sprite per set with
  files, then one combined manifest. It also has the watch-mode file filter
  and the command-line flag test.
- **The manifest-backed render helpers** (`inc/iconSprite.php`, module
  `ManifestHelpers`). These are:
  - the Twig `icon` closure, with its size mapping and its legacy "array in the size position" shortcut;
  - `get_icon`, which reads only the `icons` key;
  - the `sprite` filter of `get_available_icons`;
  - the class appender of `get_icon_sized`;
  - the memoised, fallback-guarded `get_icon_manifest`.
- **The Wistia id extractor** (`Components/BlockLargeMedia/functions.php`,
  module `Wistia`). It tries an ordered list of patterns and falls back to
  the input unchanged. The `addComponentData` filter uses it to set `videoId`.

Supporting modules:

| module | what it models |
|---|---|
| `Text` | `str_replace`, `trim` and `String.prototype.trim`, joining |
| `OrderedMap` | PHP arrays and JS objects with string keys, in insertion order; `array_merge` |
| `FileTree` | an ordered directory tree, and the two extension rules |
| `SvgScan` | hand-written scanners for the three regular expressions |
| `Markup` | the shared markup formats |
| `JsNumber` | what `${parseFloat(x)}` prints for a decimal literal |
| `Agreement` | compares the implementations: where they agree it proves it; where they differ it states both results |

File systems are given as data:
- The runtime and the build take the directory tree as a value.
- The build takes the file system as a function from a path to what is there.
- The manifest helpers take the result of reading and decoding the manifest file as an input.
- Written files are returned values.

## Behaviours worth knowing

The model follows the code in these places, where it may surprise a reader:
- **Where the viewBox comes from.** Both normalisers take the first
  `viewBox`, `width` and `height` anywhere in the prolog-stripped text, not
  only inside the opening `<svg>` tag (lib/Utils/IconSprite.php:112-117,
  scripts/build-icons.js:76-87; `RuntimeSprite.CleanExplicitViewBox`,
  `BuildIcons.JsCleanParts`).
- **One size attribute missing.** The PHP normaliser fills each missing side
  with `24` on its own, so a lone width gives `0 0 W 24`; the build script
  needs both sides (lib/Utils/IconSprite.php:116-117;
  `Agreement.OneSideDiverges`).
- **No `<svg>` region.** The build script reads the viewBox from the text
  even when there is no region to take content from
  (scripts/build-icons.js:77-79; `BuildIcons.JsViewBoxExplicit`,
  `Agreement.NoRegionDiverges`).
- **Non-numeric width or height.** The build script prints `NaN` into the
  viewBox (scripts/build-icons.js:85-87; `JsNumber.NoDigitsNaN`).
- **`relativePath`.** The build script takes it relative to the directory
  being scanned, so it is the bare file name (scripts/build-icons.js:60;
  `BuildIcons.CollectedAreSvgFiles`).
- **Duplicate ids.** The build script writes one `<symbol>` per file,
  duplicates included; only its manifest keeps the last entry
  (scripts/build-icons.js:108-119; `BuildIcons.JsSymbolsAt`,
  `BuildIcons.ManifestLastWins`).
- **The id `__proto__`.** Assigning `__proto__` on an object made by `{}`
  replaces its prototype and stores no key. So a readable `__proto__.svg`
  gets its `<symbol>` in the sprite, but no manifest entry and no share of
  the total. A sprite set with the sprite id `__proto__` likewise writes its
  sprite but leaves no key in the combined manifest
  (scripts/build-icons.js:113-119, 176, 187; `BuildIcons.ProtoIconUnlisted`,
  `BuildIcons.ManifestIds`, `BuildIcons.ManifestsKeys`).
- **Lookup misses.** The runtime renders an HTML comment naming the icon;
  `get_icon` of the manifest helpers returns `''`
  (lib/Utils/IconSprite.php:186, inc/iconSprite.php:133-135;
  `Agreement.MissDiffers`).
- **Manifest keys.** The combined manifest is keyed by sprite id, but the
  helpers read only the `icons` key, so icons of other sets are never
  rendered or listed by them (inc/iconSprite.php:101-116;
  `Agreement.OtherSpritesInvisible`).
- **A trailing `/` on the icon directory.** The directory iterator drops one
  trailing `/` from the paths it reports, so the base no longer matches and
  stays in the id: `/t/icons/` with `a.svg` gives `-t-icons-a`, where the
  build script gives `a` (lib/Utils/IconSprite.php:90;
  `Agreement.TrailingSlashDiverges`).

## Model

| member | source | states |
|---|---|---|
| RuntimeSprite.IconSprite.constructor | lib/Utils/IconSprite.php:18-25 | both static maps start empty and the class invariant holds |
| RuntimeSprite.IconSprite.GenerateSprite | lib/Utils/IconSprite.php:35-46 | a cached id returns the cached document and changes nothing, whatever directory or flag is passed; otherwise the document of the collected icons is built, cached under the id, and the icons are filed in the icon map; earlier cached documents never change; every sprite with icons has a document, and every icon entry names its sprite |
| RuntimeSprite.IconIdOfFile | lib/Utils/IconSprite.php:88-93 | for a file below a base directory given without a trailing `/`, whose path below the base does not contain the text `BASE/` anywhere (the source deletes every occurrence), the id is that path joined by `-` with every `.svg` deleted |
| RuntimeSprite.CleanWithoutRegion | lib/Utils/IconSprite.php:107-130 | with no `<svg…>…</svg>` region the result is empty content and `0 0 24 24`, whatever attributes the text has |
| RuntimeSprite.CleanContent | lib/Utils/IconSprite.php:104-122 | the content is the PHP-trimmed text between the leftmost `<svg…>` and the next `</svg>` of the prolog-stripped text |
| RuntimeSprite.CleanExplicitViewBox | lib/Utils/IconSprite.php:112-113 | the first `viewBox="…"` anywhere in the prolog-stripped text is kept byte for byte |
| RuntimeSprite.CleanSynthesisedViewBox | lib/Utils/IconSprite.php:114-119 | without a viewBox it is `0 0 W H`, where W and H are the first width and height values as written, each `24` when absent |
| RuntimeSprite.CollectIcons | lib/Utils/IconSprite.php:55-79 | the loop leaves the assignments of the kept files applied in walk order from an empty array |
| RuntimeSprite.IconPairsStep | lib/Utils/IconSprite.php:67-76 | one more visited file adds its id and content only if it is kept |
| RuntimeSprite.CollectedFromNonDirectory | lib/Utils/IconSprite.php:59-61 | a path that is not a directory yields no icons |
| RuntimeSprite.CollectedIds | lib/Utils/IconSprite.php:67-73 | an id is collected exactly when a visited file with extension `svg` and truthy content produces it |
| RuntimeSprite.IconPairsIds | lib/Utils/IconSprite.php:67-73 | the ids assigned are exactly those produced by kept files |
| RuntimeSprite.CollectedLastWins | lib/Utils/IconSprite.php:73 | for a duplicate id, the last kept file's normalised content is the one kept |
| RuntimeSprite.IconSprite.BuildSprite | lib/Utils/IconSprite.php:140-163 | the document wraps one symbol per icon in icon order; the icon map becomes the merge of the sprite's old entries with the icons' references; the cache is unchanged |
| RuntimeSprite.AssembleSprite | lib/Utils/IconSprite.php:140-163 | the same document and icon map, computed on values |
| RuntimeSprite.FileIcons | lib/Utils/IconSprite.php:144-157 | the `foreach` yields the symbols in icon order and files the icons one nested assignment at a time |
| RuntimeSprite.SymbolsOfIcons | lib/Utils/IconSprite.php:144-150 | there is one symbol per icon, and the i-th carries the i-th icon's id, viewBox and content |
| RuntimeSprite.Refs | lib/Utils/IconSprite.php:153-156 | the references have the icons' keys in the icons' order, each with its viewBox and the sprite id |
| RuntimeSprite.Register | lib/Utils/IconSprite.php:153-156 | with no icons the map is unchanged; the sprite joins the sprite order only when it is new and has icons; other sprites keep their presence and their entries |
| RuntimeSprite.RegisterUpToPrefix | lib/Utils/IconSprite.php:153-156 | after n nested assignments the sprite holds its old entries with the first n references assigned, in order |
| RuntimeSprite.RefsPrefixStep | lib/Utils/IconSprite.php:153-156 | the next assignment stores the next icon's viewBox and the sprite id |
| RuntimeSprite.FileIconOnPut | lib/Utils/IconSprite.php:153 | `$iconMap[$s][$id] = …` on a sprite just stored assigns into that sprite's entries |
| RuntimeSprite.RegisterComplete | lib/Utils/IconSprite.php:144-157 | filing every icon one by one equals the merged form `Register` |
| RuntimeSprite.RegisterEntries | lib/Utils/IconSprite.php:153-156 | after filing, the sprite holds the old ids and the icons' ids; each icon maps to its viewBox and the sprite; untouched old entries keep their values; new ids follow in icon order |
| RuntimeSprite.RegisterFresh | lib/Utils/IconSprite.php:153-156 | a sprite not yet in the map holds exactly its icons, in their order |
| RuntimeSprite.RegisterNamesSprite | lib/Utils/IconSprite.php:155 | the filed sprite's entries all name that sprite |
| RuntimeSprite.RegisterKeepsHolder | lib/Utils/IconSprite.php:153-156 | filing keeps every entry of every sprite naming the sprite that holds it |
| RuntimeSprite.FindHolder | lib/Utils/IconSprite.php:178-184 | the loop stops at the first sprite, in map order, holding the id, and runs off the end exactly when none does |
| RuntimeSprite.HeldHasFirst | lib/Utils/IconSprite.php:178-184 | an id some sprite holds has a first holder |
| RuntimeSprite.IconSprite.GetIcon | lib/Utils/IconSprite.php:172-212 | a miss gives `<!-- Icon 'ID' not found -->`; a hit gives the use element with the first holder's viewBox and the defaults overlaid by the caller's attributes |
| RuntimeSprite.DefaultUseAttributes | lib/Utils/IconSprite.php:191-204 | with no caller attributes it prints `class`, `width`, `height`, `aria-hidden` with `icon`, `24`, `24`, `true`, in that order |
| RuntimeSprite.IconSprite.GetAvailableIcons | lib/Utils/IconSprite.php:220-232 | a truthy sprite id gives that sprite's ids in order, or none when unknown; otherwise it gives every sprite's ids, keyed by sprite in map order |
| RuntimeSprite.DefaultConfig | lib/Utils/IconSprite.php:241-252 | the defaults are `icons` (recursive) then `large-icons` (not recursive), below the template directory |
| RuntimeSprite.ConfigsCovered | lib/Utils/IconSprite.php:256-262 | generating each configuration in order covers every configuration |
| RuntimeSprite.IconSprite.Init | lib/Utils/IconSprite.php:239-263 | the new state is `generateSprite` applied to each configuration of the defaults overlaid by the caller's, in order, starting from the old state; every such sprite id is then cached; sprites already cached keep their documents; the class invariant is kept |
| RuntimeSprite.GenerateAllIds | lib/Utils/IconSprite.php:256-262 | after the loop the cached sprite ids are the earlier ones and those the configurations name, and no others |
| RuntimeSprite.GenerateAllKeeps | lib/Utils/IconSprite.php:37-39 | a sprite cached before the loop keeps its document and its icon entries |
| RuntimeSprite.InitCovers | lib/Utils/IconSprite.php:256-262 | every configuration's sprite id is cached after the loop, and documents cached before it are kept |
| RuntimeSprite.GenerateAllFiled | lib/Utils/IconSprite.php:256-262 | the loop keeps icons filed only under cached sprites |
| RuntimeSprite.GenerateAllFirst | lib/Utils/IconSprite.php:256-262 | a sprite id not cached before the loop gets the document and the icon entries of the first configuration naming it; it has icon entries exactly when that configuration finds icons |
| RuntimeSprite.GenerateFresh | lib/Utils/IconSprite.php:41-44 | `generateSprite` of an id neither cached nor filed caches the document of the collected icons, and files exactly their references, or nothing when there are none |
| RuntimeSprite.RegisterFreshRefs | lib/Utils/IconSprite.php:153-156 | a sprite filed while absent from the icon map holds exactly the references of its icons |
| RuntimeSprite.IconSprite.OutputSprites | lib/Utils/IconSprite.php:268-273 | the output is the cached documents concatenated, in the order they were generated |
| FileTree.FilesShallow | lib/Utils/IconSprite.php:63-65 | without recursion the walk reaches exactly the top-level files |
| FileTree.FilesUnder | lib/Utils/IconSprite.php:63-67 | every file the walk reaches lies under the starting directories, and all names on its path are well formed |
| FileTree.PhpExtensionSvg | lib/Utils/IconSprite.php:68 | `getExtension() === 'svg'` exactly when the name ends in `.svg` |
| FileTree.JsExtnameSvg | scripts/build-icons.js:55 | `path.extname(item) === '.svg'` exactly when the name ends in `.svg` and is longer than `.svg` |
| FileTree.LastDotOfSvgName | scripts/build-icons.js:55 | the last dot of a name ending in `.svg` is the one before `svg` |
| Text.FindFrom | lib/Utils/IconSprite.php:90-91 | the first occurrence of the needle at or after `from`, or none |
| Text.ReplaceAllAbsent | lib/Utils/IconSprite.php:90-91 | `str_replace` with a needle that does not occur changes nothing |
| Text.ReplaceAllLeading | lib/Utils/IconSprite.php:90 | a leading needle is replaced, then the scan goes on after it |
| Text.ReplaceAllSplit | lib/Utils/IconSprite.php:91 | replacement splits at a character the needle does not contain |
| Text.ReplaceAllTrailing | lib/Utils/IconSprite.php:91 | deleting a needle with no self-overlap that ends the text, and occurs nowhere else, removes just that suffix |
| Text.ReplaceAllCharConcat | lib/Utils/IconSprite.php:91 | replacing a single character distributes over concatenation |
| Text.JoinReplaceSeparator | lib/Utils/IconSprite.php:91 | turning `/` into `-` in `/`-joined parts without `/` gives the `-`-joined parts |
| Text.TrimStart | lib/Utils/IconSprite.php:122 | the result is a suffix; everything removed is white space; the result does not start with white space |
| Text.TrimEnd | lib/Utils/IconSprite.php:122 | the result is a prefix; everything removed is white space; the result does not end with white space |
| Text.TrimAgree | scripts/build-icons.js:93 | two white-space classes that agree on the characters of the text trim it alike |
| SvgScan.PrologEnd | lib/Utils/IconSprite.php:104 | the end of the prolog `<?xml[^>]*?>` at the start, which is unique, or none |
| SvgScan.StripPrologPlain | lib/Utils/IconSprite.php:104 | text without `<?xml` is unchanged |
| SvgScan.SvgRegion | lib/Utils/IconSprite.php:107 | the leftmost `<svg`, the first `>` after it, and the first `</svg>` after that; none exactly when no such triple exists |
| SvgScan.SvgInner | lib/Utils/IconSprite.php:107-108 | the captured inner markup of the region, present exactly when the region is |
| SvgScan.AttrSpan | lib/Utils/IconSprite.php:112 | the leftmost `name="…"` whose value has no quote; none exactly when there is none |
| SvgScan.AttrValue | lib/Utils/IconSprite.php:112-117 | the captured value of that occurrence, which has no quote |
| SvgScan.SvgInnerIsFirstMatch | lib/Utils/IconSprite.php:107-108 | the leftmost match determines the capture |
| SvgScan.SvgInnerNone | lib/Utils/IconSprite.php:107 | there is no capture exactly when nothing matches |
| SvgScan.AttrValueIsFirstMatch | lib/Utils/IconSprite.php:112-117 | the leftmost occurrence determines the captured value |
| SvgScan.AttrValueNone | lib/Utils/IconSprite.php:112-117 | there is no value exactly when the attribute does not occur |
| Markup.AttributeString | lib/Utils/IconSprite.php:201-204 | the loop prints every attribute, key then escaped value, in key order |
| Markup.DefaultAttributes | lib/Utils/IconSprite.php:191-196 | the four defaults, in their order, with their values |
| Markup.MergedAttributes | lib/Utils/IconSprite.php:198 | `array_merge` keeps the default keys first in order and appends new caller keys; caller values win and defaults fill the rest |
| OrderedMap.Empty | lib/Utils/IconSprite.php:57 | the empty array has no keys and no values |
| OrderedMap.Put | lib/Utils/IconSprite.php:73 | an assignment sets the value; a present key keeps its place and a new key is appended |
| OrderedMap.Values | lib/Utils/IconSprite.php:270 | the values in key order |
| OrderedMap.Merge | lib/Utils/IconSprite.php:198 | `array_merge` on string keys: B's values override A's; A's key order comes first, then B's new keys |
| OrderedMap.PutTwice | lib/Utils/IconSprite.php:153 | a second assignment to the same key overrides the first |
| OrderedMap.PutPrefixValues | lib/Utils/IconSprite.php:153 | after assigning B's first n keys, each of them maps to B's value and every other key of A keeps its value |
| OrderedMap.PutPrefixKeys | lib/Utils/IconSprite.php:153 | after assigning B's first n keys, the order is A's keys followed by the new ones |
| OrderedMap.PutAllValues | lib/Utils/IconSprite.php:153 | assigning all of B is `array_merge` on values |
| OrderedMap.PutAllKeys | lib/Utils/IconSprite.php:153 | assigning all of B is `array_merge` on key order |
| OrderedMap.FromPairsKeys | lib/Utils/IconSprite.php:73 | assignments from an empty array leave exactly the assigned keys |
| OrderedMap.FromPairsKeyOrder | lib/Utils/IconSprite.php:73 | keys are in order of first assignment: an earlier key is assigned before the later key is assigned at all |
| OrderedMap.FromPairsLastWins | lib/Utils/IconSprite.php:73 | the last assignment to a key decides its value |
| OrderedMap.FromPairsValues | lib/Utils/IconSprite.php:73 | every stored value was assigned to its key |
| OrderedMap.FromPairsDropKey | scripts/build-icons.js:115-119 | leaving out every assignment to one key leaves out exactly that key and changes no other key's value |
| OrderedMap.MapValues | scripts/build-icons.js:183 | mapping the values keeps the keys and their order |
| BuildIcons.CollectSvgFiles | scripts/build-icons.js:38-66 | a missing path gives no files, a non-directory throws, and a directory gives its listing's files |
| BuildIcons.CollectListing | scripts/build-icons.js:48-63 | the loop with its recursive calls returns the files of the listing in listing order |
| BuildIcons.JsFilesStep | scripts/build-icons.js:48-63 | the files from position i on are the entry's own, then the rest |
| BuildIcons.CollectedAreSvgFiles | scripts/build-icons.js:48-63 | the files returned are the `.svg` files the walk reaches, in walk order; each id is built from its directories (`BuildIcons.JsIconId`); each `relativePath` is the bare file name |
| BuildIcons.JsIconIdShape | scripts/build-icons.js:53-56 | a top-level file's id is its stem; a nested file's id is its directories joined by `-`, then `-`, then its stem |
| BuildIcons.SubPathJoin | scripts/build-icons.js:53 | descending into a directory extends the base path by `-` and its name |
| BuildIcons.JoinDashEmpty | scripts/build-icons.js:53 | the base path is empty exactly at the top |
| BuildIcons.FileAgrees | scripts/build-icons.js:55-61 | a listed file is recorded with its id, its name as `relativePath`, and its content, only when it is `.svg` |
| BuildIcons.JsViewAppend | scripts/build-icons.js:54 | the records of two walks in a row are concatenated |
| BuildIcons.JsViewBoxExplicit | scripts/build-icons.js:76-79 | the first `viewBox="…"` is kept byte for byte, whether or not a sprite region exists |
| BuildIcons.JsViewBoxBothSides | scripts/build-icons.js:80-88 | without a viewBox but with both sides, the viewBox is `0 0 ${parseFloat(w)} ${parseFloat(h)}` |
| BuildIcons.SidesViewBox | scripts/build-icons.js:82-87 | the same, once the three attribute reads are known |
| BuildIcons.JsViewBoxOneSideMissing | scripts/build-icons.js:80-89 | without a viewBox and with a side missing, the viewBox is `0 0 24 24` |
| BuildIcons.JsContentRegion | scripts/build-icons.js:92-93 | the content is the JS-trimmed leftmost region, or empty when there is none |
| BuildIcons.JsCleanParts | scripts/build-icons.js:71-99 | content and viewBox are both read from the text after every prolog is removed |
| BuildIcons.Readable | scripts/build-icons.js:108-124 | files whose read fails are skipped; the rest keep their order |
| BuildIcons.JsSymbolsAt | scripts/build-icons.js:108-113 | one symbol per readable file, in order, duplicates included |
| BuildIcons.AssignPairsAt | scripts/build-icons.js:115-119 | one assignment `manifest[file.id] = …` per readable file, in order |
| BuildIcons.JsAssign | scripts/build-icons.js:115-119 | assigning a key of an object made by `{}`: `__proto__` leaves its own keys and values as they were; any other key gets the value, and a new key goes last (also `allManifests[spriteId]`, line 176) |
| BuildIcons.EntryPairsDropped | scripts/build-icons.js:115-119 | the assignments that store an own key are all of them but those to `__proto__` |
| BuildIcons.GenerateSprite | scripts/build-icons.js:104-130 | the loop pushes one symbol per readable file, `__proto__` included; the sprite wraps them; the manifest is the stored assignments applied in order, so it has no `__proto__` key |
| BuildIcons.GenerateStep | scripts/build-icons.js:108-125 | a readable file adds its symbol and assigns its entry under its id (storing nothing for `__proto__`); an unreadable one adds nothing |
| BuildIcons.AssignedIds | scripts/build-icons.js:115-119 | before `__proto__` is set apart: assigning every readable file's entry leaves exactly the ids read |
| BuildIcons.ManifestIds | scripts/build-icons.js:115-119 | an id is in the manifest exactly when a readable file carries it and it is not `__proto__` |
| BuildIcons.ManifestLastWins | scripts/build-icons.js:115-119 | for a duplicate id, the manifest keeps the entry of the last readable file with it; the id `__proto__` is never stored |
| BuildIcons.ProtoIconUnlisted | scripts/build-icons.js:113-119 | a readable `__proto__.svg` alone gives a sprite with its symbol and a manifest with no key |
| BuildIcons.EntriesNameSprite | scripts/build-icons.js:117 | every manifest entry names the sprite id passed in |
| BuildIcons.DefaultEntries | scripts/build-icons.js:19-33 | `Object.entries(config)`: `icons`, then `largeIcons`, then `manifestFile`, with their paths |
| BuildIcons.BuildSprites | scripts/build-icons.js:145-189 | the loop meets its specification: the sprites written, then the combined manifest and the total; a throw from a listing or a sprite write stops the loop and fails the build after the sprites written before it; a failed manifest write fails it after all the sprites |
| BuildIcons.BuildTurn | scripts/build-icons.js:151-179 | one turn of the loop: the entry is skipped, or generated, written and recorded, or it throws; it reports a throw exactly when the loop over this entry throws, and after a throw later entries change nothing |
| BuildIcons.Conclude | scripts/build-icons.js:181-188 | after a throw nothing more is written and the build fails; a failed manifest write fails it too; otherwise the combined manifest is written with the total of its manifests' sizes |
| BuildIcons.BuildUpToNext | scripts/build-icons.js:151-179 | the loop over one more entry is one more turn |
| BuildIcons.BuildThrownStays | scripts/build-icons.js:156-172 | once the run has thrown (a failed listing or sprite write), later entries change nothing |
| BuildIcons.SkippedEntries | scripts/build-icons.js:152-164 | the `manifestFile` entry and a set without files write nothing and add no manifest key |
| BuildIcons.UnwritableEntry | scripts/build-icons.js:171-172 | an entry with files is a sprite set; when its sprite file cannot be written the loop throws with nothing more recorded |
| BuildIcons.BuiltEntry | scripts/build-icons.js:168-176 | a set with files writes its sprite and stores its manifest under its sprite id, replacing an earlier one and leaving other ids alone; under the sprite id `__proto__` nothing is stored |
| BuildIcons.GeneratedStep | scripts/build-icons.js:172-176 | one more generated set adds one write and one manifest assignment |
| BuildIcons.ManifestsKeys | scripts/build-icons.js:176 | a sprite id is stored exactly when some generated set has it and it is not `__proto__` |
| BuildIcons.DoneSpriteIds | scripts/build-icons.js:151-179 | the generated sets carry exactly the sprite ids of the entries with files |
| BuildIcons.ManifestKeys | scripts/build-icons.js:151-179 | a sprite id is a key of `allManifests` exactly when some entry with files has it and it is not `__proto__` |
| BuildIcons.ManifestSize | scripts/build-icons.js:115-119 | a manifest has one key per distinct id other than `__proto__` among the readable files |
| BuildIcons.DoneDistinct | scripts/build-icons.js:151-179 | when no two sprite sets share a sprite id, the generated sets carry distinct sprite ids |
| BuildIcons.TotalOfDistinct | scripts/build-icons.js:176-187 | when the generated sets carry distinct sprite ids, the stored manifests' sizes sum to the distinct readable ids other than `__proto__` of each set, a set with sprite id `__proto__` counting none |
| BuildIcons.GeneratedIconsOfEntries | scripts/build-icons.js:151-179 | the generated sets' icons are the entries' icons summed; skipped entries count none |
| BuildIcons.BuildTotal | scripts/build-icons.js:187 | when no two sprite sets share a sprite id, the reported total is the number of distinct readable ids other than `__proto__` of each set, summed over the entries; a set with sprite id `__proto__` adds none |
| BuildIcons.DefaultBuildTotal | scripts/build-icons.js:187 | with the default configuration the total is the distinct readable ids other than `__proto__` of `icons` plus those of `large-icons` |
| BuildIcons.ManifestsNamed | scripts/build-icons.js:117-176 | every stored entry names the sprite id it is stored under |
| BuildIcons.RebuildOnSvg | scripts/build-icons.js:202 | the watch callback rebuilds exactly for a reported file name ending in `.svg` |
| BuildIcons.WatchDirs | scripts/build-icons.js:197-200 | a directory is watched exactly when it is one of the two input directories and exists; `icons` comes before `large-icons` |
| BuildIcons.Cli | scripts/build-icons.js:212-224 | the run exits with failure exactly when the build fails (a listing, a sprite write or the manifest write throws) and then reports the sprites written before; otherwise it completes with the build's outcome; watching happens only with `--watch` or `-w`, and then covers the existing input directories |
| JsNumber.ParseFloat | scripts/build-icons.js:85-86 | a parsed decimal has digit-only whole and fraction parts, not both empty |
| JsNumber.ReadLiteral | scripts/build-icons.js:85-86 | the literal read has digit-only parts, not both empty |
| JsNumber.ParseCanonical | scripts/build-icons.js:85-87 | a canonical decimal parses back to its own parts |
| JsNumber.RenderDecimalCanonical | scripts/build-icons.js:87 | every parsed decimal renders in canonical form |
| JsNumber.RenderCanonical | scripts/build-icons.js:85-87 | canonical text prints as itself |
| JsNumber.NumberTextIdempotent | scripts/build-icons.js:85-87 | printing the parsed value of printed text changes nothing |
| JsNumber.NaNText | scripts/build-icons.js:85 | `parseFloat("NaN")` is not a number |
| JsNumber.InfinityText | scripts/build-icons.js:85 | a signed `Infinity` parses to that infinity |
| JsNumber.WholeNumberText | scripts/build-icons.js:85-87 | a canonical whole number such as `24` prints as itself |
| JsNumber.TrailingTextIgnored | scripts/build-icons.js:85-86 | parsing stops at the first character that cannot extend the literal (for example `16px` reads as `16`) |
| JsNumber.WholeThen | scripts/build-icons.js:85 | digits followed by such a character read as a whole number |
| JsNumber.DigitsThen | scripts/build-icons.js:85 | the digit run is read up to the first non-digit |
| JsNumber.NoDigitsNaN | scripts/build-icons.js:85-87 | text without a literal prints `NaN` |
| ManifestHelpers.Fallback | inc/iconSprite.php:24-27 | the fallback is `['icons' => []]` |
| ManifestHelpers.Loaded | inc/iconSprite.php:17-28 | a decoded file is stored as decoded (JSON `null` as null); a missing or undecodable one stores the fallback |
| ManifestHelpers.ManifestCache.constructor | inc/iconSprite.php:15 | nothing is memoised and nothing has been read |
| ManifestHelpers.ManifestCache.GetIconManifest | inc/iconSprite.php:13-32 | with a manifest memoised, it is returned and the file is not read; otherwise the file is read once and what it yields is memoised and returned |
| ManifestHelpers.LoadsOnce | inc/iconSprite.php:13-32 | after a non-null load a second call returns the same manifest without reading; only a null result is loaded again |
| ManifestHelpers.IconsOf | inc/iconSprite.php:101-137 | `$manifest['icons']`, empty when the key or the manifest is missing |
| ManifestHelpers.ManifestCache.GetIcon | inc/iconSprite.php:128-161 | the result is the markup of the memoised manifest, and the manifest is loaded at most once |
| ManifestHelpers.IconMarkupEmptyIff | inc/iconSprite.php:133-135 | `get_icon` is `''` exactly when the `icons` table lacks the id |
| ManifestHelpers.IconMarkupHit | inc/iconSprite.php:137-160 | a hit prints the merged attributes (defaults in order, then new caller keys, caller values winning), the stored viewBox, then `<use href="#ID">` |
| ManifestHelpers.IconMarkupOnlyIcons | inc/iconSprite.php:133-137 | changing any key other than `icons` does not change the markup |
| ManifestHelpers.ManifestCache.GetAvailableIcons | inc/iconSprite.php:97-119 | the loop returns the filtered ids of the memoised manifest; the manifest is loaded at most once |
| ManifestHelpers.FilteredMembers | inc/iconSprite.php:111-116 | the filter keeps exactly the ids whose `sprite` field equals the id asked for |
| ManifestHelpers.FilteredNone | inc/iconSprite.php:111-116 | with no entry naming the sprite, the filter keeps nothing |
| ManifestHelpers.FilteredOrdered | inc/iconSprite.php:111-116 | the kept ids keep manifest order |
| ManifestHelpers.AvailableBySprite | inc/iconSprite.php:101-118 | with an `icons` table and a sprite id, it returns exactly the matching ids, once each, in manifest order |
| ManifestHelpers.SizeAttributes | inc/iconSprite.php:63-75 | `width` then `height` are both set to the token's side |
| ManifestHelpers.SizeMapping | inc/iconSprite.php:64-75 | `small` gives 20, `large` gives 32, and every other token gives 24 |
| ManifestHelpers.TwigLegacyArray | inc/iconSprite.php:57-60 | an array as the second argument means size `medium` with that array as the attributes, and the third argument is ignored |
| ManifestHelpers.SideValue | inc/iconSprite.php:78 | a side is the caller's value, else the token's side |
| ManifestHelpers.ClassAfterSize | inc/iconSprite.php:78 | `class` survives the size merge as the caller gave it |
| ManifestHelpers.DefaultValue | inc/iconSprite.php:140-147 | a default key is the caller's value, else the default |
| ManifestHelpers.TwigRenderedOrder | inc/iconSprite.php:78-147 | the four default keys still come first, in order, whatever the caller passes |
| ManifestHelpers.TwigRenderedSide | inc/iconSprite.php:78-147 | a side prints the caller's value, else the token's side, never the default `24` of `get_icon` |
| ManifestHelpers.TwigRenderedClass | inc/iconSprite.php:78-147 | the class prints the caller's value, else `icon` |
| ManifestHelpers.TwigCallerWins | inc/iconSprite.php:78-147 | every attribute the caller passes is printed with the caller's value |
| ManifestHelpers.ManifestCache.TwigIcon | inc/iconSprite.php:55-81 | the Twig `icon` function is `get_icon` with the size-merged attributes |
| ManifestHelpers.SizedClassShape | inc/iconSprite.php:184-196 | the class is the caller's (or `icon`) plus ` icon--SIZE` exactly for the four known sizes; only `class` changes |
| ManifestHelpers.ManifestCache.GetIconSized | inc/iconSprite.php:182-199 | `get_icon_sized` is `get_icon` with the class appended |
| Wistia.AlnumRun | Components/BlockLargeMedia/functions.php:23 | the longest `[a-zA-Z0-9]*` run at a position |
| Wistia.FirstMatchFrom | Components/BlockLargeMedia/functions.php:29 | the leftmost position where a pattern matches, or none |
| Wistia.PatternMatchAt | Components/BlockLargeMedia/functions.php:29 | a match of the pattern starts at its position |
| Wistia.CaptureMeaning | Components/BlockLargeMedia/functions.php:29-30 | the capture is the maximal run after the leftmost match; none exactly when nothing matches |
| Wistia.CaptureShape | Components/BlockLargeMedia/functions.php:23-25 | a capture is non-empty and alphanumeric |
| Wistia.ExtractOrder | Components/BlockLargeMedia/functions.php:22-35 | embed/iframe, then `wistia.com/medias/`, then `wistia.net/medias/`; the first that matches decides; with none the input comes back unchanged |
| Wistia.FirstCaptureShape | Components/BlockLargeMedia/functions.php:28-32 | a matched result is non-empty and alphanumeric |
| Wistia.NoCaptureInAlnum | Components/BlockLargeMedia/functions.php:23-25 | no pattern matches inside an alphanumeric string |
| Wistia.ExtractIdempotent | Components/BlockLargeMedia/functions.php:16-36 | extracting twice is the same as extracting once |
| Wistia.AddComponentDataEffect | Components/BlockLargeMedia/functions.php:7-14 | `videoId` is set from the URL exactly when `videoUrl` is non-empty; every other key keeps its value and its place |
| Agreement.SvgUnbordered | lib/Utils/IconSprite.php:91 | `.svg` has no proper prefix that is also a suffix |
| Agreement.JoinWithoutSvg | lib/Utils/IconSprite.php:91 | deleting `.svg` from joined parts that do not contain it changes nothing |
| Agreement.StemBySvgDeletion | lib/Utils/IconSprite.php:91 | deleting `.svg` from a name whose only `.svg` is its suffix leaves the JS stem |
| Agreement.IdsAgree | lib/Utils/IconSprite.php:88-93 | for a base without a trailing `/` and a path below it that does not contain the text `BASE/` anywhere, the PHP and JS id rules agree on paths whose names contain `.svg` only as the file's suffix |
| Agreement.IdsDivergeOnRepeatedSuffix | lib/Utils/IconSprite.php:91 | for `x.svg.svg` PHP gives `x` and JS gives `x.svg` |
| Agreement.ExplicitViewBoxAgrees | lib/Utils/IconSprite.php:112-113 | with a region and an explicit viewBox, both normalisers keep the same viewBox |
| Agreement.NoRegionDiverges | lib/Utils/IconSprite.php:127-130 | with no region PHP gives the default viewBox, while JS still reads the explicit one |
| Agreement.OneSideDiverges | lib/Utils/IconSprite.php:116-118 | with only a width, PHP gives `0 0 W 24` and JS gives `0 0 24 24` |
| Agreement.OneSideRuntime | lib/Utils/IconSprite.php:116-118 | with only a width, the runtime's viewBox is the written width and `24` |
| Agreement.BothSidesRuntime | lib/Utils/IconSprite.php:116-118 | with both sides, the runtime's viewBox takes each side as written |
| Agreement.WholeSidesAgree | scripts/build-icons.js:84-87 | sides written as canonical whole numbers give the same synthesised viewBox on both sides |
| Agreement.ContentAgrees | lib/Utils/IconSprite.php:122 | the contents agree when `trim()` and `String.prototype.trim` classify the region's characters alike |
| Agreement.MissDiffers | inc/iconSprite.php:133-135 | a missing icon gives `''` from the helpers and an HTML comment from the runtime |
| Agreement.EntryFields | scripts/build-icons.js:115-119 | a manifest entry as decoded: `viewBox`, `sprite`, `source` in that order |
| Agreement.OtherSpritesInvisible | inc/iconSprite.php:101-116 | filtering a built manifest by any sprite id other than `icons` finds nothing |
| Agreement.TrailingSlashDiverges | lib/Utils/IconSprite.php:90 | with the directory `/t/icons/` and the file `a.svg` the runtime id is `-t-icons-a`, while the build script's id is `a` |
| Agreement.OnlyIconsSetRenders | inc/iconSprite.php:133-137 | `get_icon` on a built manifest renders exactly the ids of the `icons` set |

## Left out

- File-system calls are not modelled as effects. This covers `is_dir`, the directory iterators, `file_get_contents`, `fs.existsSync`, `readdirSync`, `statSync`, `readFileSync`, `writeFileSync`, `ensureDir`/`mkdirSync` and `file_exists`.
  - The directory tree is a value: an ordered list of directories and files with optional content.
  - The build's file system is a function from a path to a tree, a non-directory or nothing.
  - A write is returned as its path and the symbols it wraps; `SpriteWrite.Text` gives its text.
  - Whether `ensureDir` and `writeFileSync` succeed for a path is a parameter `writable`. A write that fails throws, as in the script; the errors themselves (permissions, a full disk) are not modelled.
  - Listing order is a given order in each tree. The two sides can list the same directory differently: Node's `readdirSync` returns names sorted by byte, and PHP's `RecursiveDirectoryIterator` returns the raw `readdir` order. The order decides the order of the symbols and which file wins a duplicate id, so the runtime and the build agree on these only when their trees list in the same order.
  - A symbolic link or a failing `statSync` is not modelled.
- `JSON.stringify` and `json_decode` are not modelled as text.
  - The build returns the combined manifest as a map.
  - The helpers take the decoding result as an input: absent, malformed, or decoded to a table of string fields.
  - Other JSON shapes (numbers, nested values, non-object tables) are not modelled.
  - `Agreement.DecodedManifest` states how the helpers see a manifest the build wrote.
- PHP arrays and JS objects are modelled with string keys in insertion order. The JS key `__proto__`, which stores nothing, is modelled (`BuildIcons.JsAssign`). Two other behaviours are left out:
  - PHP turns decimal-integer keys such as `"1"` into integers, and `array_merge` renumbers them.
  - JS lists integer-like keys first.
  - These matter only for icon ids or configuration keys that are decimal integers.
- `esc_attr` is a function parameter `esc`. `get_template_directory` is a parameter of `Init`. The build's theme root is a parameter.
- Output and hooks are not modelled:
  - console output and `echo`; `OutputSprites` returns the text instead;
  - the `wp_footer` action and the `timber/twig` registration;
  - `the_icon` and `the_icon_sized`, which only echo;
  - the `get_available_icons` Twig wrapper, a pass-through;
  - the `Twig\Markup` wrapper, which keeps the string.
- Watch mode is modelled as its file-name filter and the list of directories watched. `fs.watch` itself, event delivery and the rebuild it triggers are not modelled. `process.exit(1)` becomes `ExitFailure`.
- JsNumber.NumberText: models `${parseFloat(x)}` only for plain decimal literals with exact digits. Exponent notation, rounding to double precision, and the exponent form `Number::toString` uses for very large or very small values are not modelled.
- ManifestHelpers.TwigIcon: the size argument is a string token or an attribute array. Other PHP types (null, numbers) in that position are not modelled.
- Wistia.AddComponentDataEffect: component data values are scalars (null, booleans, integers, strings). An array or object as `videoUrl` is not modelled.
- Strings are sequences of characters for both languages. PHP byte strings and JS UTF-16 code units are not distinguished, and there is no encoding.
- The static state of the PHP class is one object of class `RuntimeSprite.IconSprite`. The memoised `static $manifest` is one object of class `ManifestHelpers.ManifestCache`. Concurrency is not part of the code and is not modelled.
- The theme's other components (navigation, FAQ, text and image blocks) are not part of this model. Nor are their field declarations, `getACFLayout`, or the DOM scripts: they hold no icon logic.
