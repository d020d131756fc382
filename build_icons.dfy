/**
 * The build-time sprite builder of scripts/build-icons.js: it collects the
 * `.svg` files of each configured icon set, normalises them, writes one
 * sprite document per set and one combined manifest, and can watch the icon
 * directories. The file system is a supplied function from a path to what is
 * there; written files are returned as (path, text) pairs in the order they
 * are written.
 */
module BuildIcons {
  import opened Wrappers
  import opened Text
  import opened OrderedMap
  import opened FileTree
  import opened SvgScan
  import opened Markup
  import opened JsNumber

  /** `{id, path, relativePath}` of a collected file; `content` is what reading `path` later yields. */
  datatype SvgFile = SvgFile(id: string, relativePath: string, content: Option<string>)

  // ------------------------------------------------------ collectSvgFiles

  /** `basePath ? `${basePath}-${item}` : item`. */
  function SubPath(basePath: string, item: string): string {
    if basePath != "" then basePath + "-" + item else item
  }

  /** `path.basename(item, '.svg')` of a name whose extname is `.svg`. */
  function Stem(name: string): string
    requires JsExtname(name) == ".svg"
  {
    JsExtnameSvg(name);
    name[..|name| - 4]
  }

  /** The entries `collectSvgFiles` returns for the listing `es` of a directory, in listing order. */
  function JsFiles(es: seq<Entry>, recursive: bool, basePath: string): seq<SvgFile> {
    if es == [] then []
    else
      (match es[0]
       case Dir(n, ch) => if recursive then JsFiles(ch, recursive, SubPath(basePath, n)) else []
       case File(n, c) => if JsExtname(n) == ".svg" then [SvgFile(SubPath(basePath, Stem(n)), n, c)] else [])
      + JsFiles(es[1..], recursive, basePath)
  }

  /** The outcome of listing a path: the files found, or the exception `readdirSync` throws on a non-directory. */
  datatype Listing = Listed(files: seq<SvgFile>) | ListFailed

  /** `collectSvgFiles(dir, recursive, basePath)` on what `dir` turns out to be. */
  function CollectedFiles(root: Root, recursive: bool, basePath: string): Listing {
    match root
    case Missing => Listed([])
    case NotADirectory => ListFailed
    case Directory(es) => Listed(JsFiles(es, recursive, basePath))
  }

  /** `collectSvgFiles`: an existence check, then the listing. */
  method CollectSvgFiles(root: Root, recursive: bool, basePath: string) returns (r: Listing)
    ensures r == CollectedFiles(root, recursive, basePath)
  {
    match root
    case Missing => r := Listed([]);
    case NotADirectory => r := ListFailed;
    case Directory(es) =>
      var files := CollectListing(es, recursive, basePath);
      r := Listed(files);
  }

  /**
   * The `for … of` over a directory listing, recursing into directories when
   * `recursive`; a listed subdirectory exists, so the recursive call goes
   * straight to its listing.
   */
  method CollectListing(items: seq<Entry>, recursive: bool, basePath: string) returns (files: seq<SvgFile>)
    decreases items
    ensures files == JsFiles(items, recursive, basePath)
  {
    files := [];
    var i := 0;
    while i < |items|
      invariant 0 <= i <= |items|
      invariant files + JsFiles(items[i..], recursive, basePath) == JsFiles(items, recursive, basePath)
      decreases |items| - i
    {
      JsFilesStep(items, recursive, basePath, i);
      var head := [];
      match items[i] {
        case Dir(n, ch) =>
          if recursive {
            assert items[i] in items;
            head := CollectListing(ch, recursive, SubPath(basePath, n));
          }
        case File(n, c) =>
          if JsExtname(n) == ".svg" {
            head := [SvgFile(SubPath(basePath, Stem(n)), n, c)];
          }
      }
      assert head == HeadFiles(items[i], recursive, basePath);
      AppendAssoc(files, head, JsFiles(items[i + 1..], recursive, basePath));
      files := files + head;
      i := i + 1;
    }
    assert items[i..] == [];
  }

  lemma AppendAssoc(a: seq<SvgFile>, b: seq<SvgFile>, c: seq<SvgFile>)
    ensures (a + b) + c == a + (b + c)
  {
  }

  /** What one entry of a listing contributes. */
  function HeadFiles(e: Entry, recursive: bool, basePath: string): seq<SvgFile> {
    if e.Dir? then (if recursive then JsFiles(e.children, recursive, SubPath(basePath, e.name)) else [])
    else if JsExtname(e.name) == ".svg" then [SvgFile(SubPath(basePath, Stem(e.name)), e.name, e.content)]
    else []
  }

  /** The listing from position `i` on: the entry at `i`, then the rest. */
  lemma JsFilesStep(items: seq<Entry>, recursive: bool, basePath: string, i: nat)
    requires i < |items|
    ensures JsFiles(items[i..], recursive, basePath) == HeadFiles(items[i], recursive, basePath) + JsFiles(items[i + 1..], recursive, basePath)
  {
    assert items[i..][0] == items[i];
    assert items[i..][1..] == items[i + 1..];
  }

  /** The id `collectSvgFiles` gives a file found below the directories `dirs`. */
  function JsIconId(dirs: seq<string>, name: string): string
    requires JsExtname(name) == ".svg"
  {
    Join(dirs + [Stem(name)], "-")
  }

  /** How `collectSvgFiles` records one file a traversal reaches: only a `.svg` file is kept. */
  function ViewOf(f: Located): seq<SvgFile> {
    if JsExtname(f.name) == ".svg" then [SvgFile(JsIconId(f.dirs, f.name), f.name, f.content)] else []
  }

  /** The `.svg` files among those a traversal reaches, as `collectSvgFiles` records them. */
  function JsView(fs: seq<Located>): seq<SvgFile> {
    if fs == [] then [] else ViewOf(fs[0]) + JsView(fs[1..])
  }

  lemma {:induction false} JsViewAppend(a: seq<Located>, b: seq<Located>)
    ensures JsView(a + b) == JsView(a) + JsView(b)
  {
    if a != [] {
      assert (a + b)[0] == a[0];
      assert (a + b)[1..] == a[1..] + b;
      JsViewAppend(a[1..], b);
      AppendAssoc(ViewOf(a[0]), JsView(a[1..]), JsView(b));
    } else {
      assert a + b == b;
    }
  }

  /** With non-empty directory names, the `-`-joined path is empty exactly at the top. */
  lemma JoinDashEmpty(dirs: seq<string>)
    requires forall d :: d in dirs ==> d != ""
    ensures Join(dirs, "-") == "" <==> dirs == []
  {
    if |dirs| > 1 {
      assert |Join(dirs, "-")| >= 1;
    } else if |dirs| == 1 {
      assert dirs[0] in dirs;
    }
  }

  /** Descending into directory `n` extends the base path as `dirs + [n]` joined by `-`. */
  lemma SubPathJoin(dirs: seq<string>, n: string)
    requires forall d :: d in dirs ==> d != ""
    ensures SubPath(Join(dirs, "-"), n) == Join(dirs + [n], "-")
  {
    JoinDashEmpty(dirs);
    if dirs == [] {
      assert dirs + [n] == [n];
    } else {
      JoinSnoc(dirs, n, "-");
    }
  }

  /** A listed file contributes what the traversal's record of it contributes. */
  lemma FileAgrees(recursive: bool, dirs: seq<string>, n: string, c: Option<string>)
    requires NameOk(n) && forall d :: d in dirs ==> d != ""
    ensures HeadFiles(File(n, c), recursive, Join(dirs, "-")) == JsView([Located(dirs, n, c)])
  {
    if JsExtname(n) == ".svg" {
      SubPathJoin(dirs, Stem(n));
    }
    assert [Located(dirs, n, c)][1..] == [];
  }

  /** The entries after the first of a well-named listing are well named. */
  lemma WellNamedTail(es: seq<Entry>)
    requires es != [] && WellNamed(es)
    ensures WellNamed(es[1..]) && NameOk(es[0].name) && (es[0].Dir? ==> WellNamed(es[0].children))
  {
    assert forall i :: 0 <= i < |es[1..]| ==> es[1..][i] == es[i + 1];
  }

  /**
   * `collectSvgFiles` lists the files the traversal of the same tree reaches
   * whose extname is exactly `.svg`, in the same order; each id is the
   * directory names below the sprite root joined by `-`, then the basename
   * without `.svg`; the relative path is the bare file name.
   */
  lemma {:induction false} CollectedAreSvgFiles(es: seq<Entry>, recursive: bool, dirs: seq<string>)
    requires WellNamed(es) && forall d :: d in dirs ==> d != ""
    ensures JsFiles(es, recursive, Join(dirs, "-")) == JsView(Files(es, recursive, dirs))
  {
    if es != [] {
      var base := Join(dirs, "-");
      var here := match es[0]
        case File(n, c) => [Located(dirs, n, c)]
        case Dir(n, ch) => if recursive then Files(ch, recursive, dirs + [n]) else [];
      assert Files(es, recursive, dirs) == here + Files(es[1..], recursive, dirs);
      assert JsFiles(es, recursive, base) == HeadFiles(es[0], recursive, base) + JsFiles(es[1..], recursive, base) by {
        assert es[0..] == es;
        JsFilesStep(es, recursive, base, 0);
      }
      JsViewAppend(here, Files(es[1..], recursive, dirs));
      WellNamedTail(es);
      CollectedAreSvgFiles(es[1..], recursive, dirs);
      match es[0]
      case File(n, c) =>
        FileAgrees(recursive, dirs, n, c);
      case Dir(n, ch) =>
        if recursive {
          SubPathJoin(dirs, n);
          assert forall d :: d in dirs + [n] ==> d != "";
          CollectedAreSvgFiles(ch, recursive, dirs + [n]);
        }
    }
  }

  /** A top-level file's id is its bare stem; a nested file's id is its directories, `-`, then its stem. */
  lemma JsIconIdShape(dirs: seq<string>, name: string)
    requires JsExtname(name) == ".svg"
    ensures dirs == [] ==> JsIconId(dirs, name) == Stem(name)
    ensures dirs != [] ==> JsIconId(dirs, name) == Join(dirs, "-") + "-" + Stem(name)
  {
    if dirs == [] {
      assert dirs + [Stem(name)] == [Stem(name)];
    } else {
      JoinSnoc(dirs, Stem(name), "-");
    }
  }

  // ----------------------------------------------------- cleanSvgContent

  /**
   * The viewBox `cleanSvgContent` settles on: the first `viewBox="…"`; else
   * `0 0 W H` from the first `width="…"` and `height="…"`, each read by
   * `parseFloat`; else the default.
   */
  function JsViewBox(c: string): string {
    match AttrValue(c, "viewBox")
    case Some(v) => v
    case None =>
      if AttrValue(c, "width").Some? && AttrValue(c, "height").Some? then
        "0 0 " + NumberText(AttrValue(c, "width").value) + " " + NumberText(AttrValue(c, "height").value)
      else DefaultViewBox
  }

  /** The content `cleanSvgContent` keeps: the trimmed sprite region, or nothing. */
  function JsContent(c: string): string {
    match SvgInner(c)
    case Some(inner) => Trim(inner, JsSpace)
    case None => ""
  }

  /** `cleanSvgContent` of the build script: every `<?xml …?>` prolog is removed, then content and viewBox are read. */
  function JsCleanSvgContent(raw: string): CleanIcon {
    var c := StripProlog(raw);
    CleanIcon(JsContent(c), JsViewBox(c))
  }

  /** The first `viewBox="…"` is kept byte for byte, whether or not a sprite region exists. */
  lemma JsViewBoxExplicit(c: string, a: int, q: int)
    requires FirstAttr(c, "viewBox", a, q)
    ensures JsViewBox(c) == c[a + 9..q]
  {
    AttrValueIsFirstMatch(c, "viewBox", a, q);
  }

  /** Without a viewBox but with both sides, each side is read as `parseFloat` reads it. */
  lemma JsViewBoxBothSides(c: string, wa: int, wq: int, ha: int, hq: int)
    requires NoAttr(c, "viewBox") && FirstAttr(c, "width", wa, wq) && FirstAttr(c, "height", ha, hq)
    ensures JsViewBox(c) == "0 0 " + NumberText(c[wa + 7..wq]) + " " + NumberText(c[ha + 8..hq])
  {
    AttrValueNone(c, "viewBox");
    AttrValueIsFirstMatch(c, "width", wa, wq);
    AttrValueIsFirstMatch(c, "height", ha, hq);
    SidesViewBox(c, c[wa + 7..wq], c[ha + 8..hq]);
  }

  /** The synthesised viewBox once the three attribute reads are known. */
  lemma SidesViewBox(c: string, w: string, h: string)
    requires AttrValue(c, "viewBox").None? && AttrValue(c, "width") == Some(w) && AttrValue(c, "height") == Some(h)
    ensures JsViewBox(c) == "0 0 " + NumberText(w) + " " + NumberText(h)
  {
  }

  /** Without a viewBox and with a side missing, the default viewBox is used (the other side is ignored). */
  lemma JsViewBoxOneSideMissing(c: string)
    requires NoAttr(c, "viewBox") && (NoAttr(c, "width") || NoAttr(c, "height"))
    ensures JsViewBox(c) == DefaultViewBox
  {
    AttrValueNone(c, "viewBox");
    AttrValueNone(c, "width");
    AttrValueNone(c, "height");
  }

  /** The cleaned text: content and viewBox read from the text after its prolog. */
  lemma JsCleanParts(raw: string)
    ensures var c := StripProlog(raw);
      JsCleanSvgContent(raw).content == JsContent(c) && JsCleanSvgContent(raw).viewBox == JsViewBox(c)
  {
  }

  /** The content is the trimmed leftmost sprite region, or empty when there is none. */
  lemma JsContentRegion(c: string)
    ensures NoSvgMatch(c) ==> JsContent(c) == ""
    ensures forall i, g, e :: FirstSvgMatch(c, i, g, e) ==> JsContent(c) == Trim(c[g + 1..e], JsSpace)
  {
    SvgInnerNone(c);
    forall i, g, e | FirstSvgMatch(c, i, g, e) ensures JsContent(c) == Trim(c[g + 1..e], JsSpace) {
      SvgInnerIsFirstMatch(c, i, g, e);
    }
  }

  // ------------------------------------------------------- generateSprite

  /** `{viewBox, sprite, source}` of a manifest entry. */
  datatype ManifestEntry = ManifestEntry(viewBox: string, sprite: string, source: string)

  /** The files whose read succeeds: the others are logged and skipped. */
  function Readable(files: seq<SvgFile>): (r: seq<SvgFile>)
    ensures |r| <= |files|
    ensures forall i :: 0 <= i < |r| ==> r[i].content.Some?
  {
    if files == [] then []
    else Readable(files[..|files| - 1]) + if files[|files| - 1].content.Some? then [files[|files| - 1]] else []
  }

  function SymbolOf(f: SvgFile): string
    requires f.content.Some?
  {
    var cleaned := JsCleanSvgContent(f.content.value);
    Symbol(f.id, cleaned.viewBox, cleaned.content)
  }

  function EntryOf(f: SvgFile, spriteId: string): (string, ManifestEntry)
    requires f.content.Some?
  {
    (f.id, ManifestEntry(JsCleanSvgContent(f.content.value).viewBox, spriteId, f.relativePath))
  }

  /** The symbols `generateSprite` pushes: one per readable file, in order, duplicates included. */
  function JsSymbols(files: seq<SvgFile>): seq<string> {
    if files == [] then []
    else
      var last := files[|files| - 1];
      JsSymbols(files[..|files| - 1]) + if last.content.Some? then [SymbolOf(last)] else []
  }

  /** The `manifest[file.id] = …` assignments `generateSprite` makes, in order. */
  function AssignPairs(files: seq<SvgFile>, spriteId: string): seq<(string, ManifestEntry)> {
    if files == [] then []
    else
      var last := files[|files| - 1];
      AssignPairs(files[..|files| - 1], spriteId) + if last.content.Some? then [EntryOf(last, spriteId)] else []
  }

  /**
   * The one key a plain object literal does not store: assigning to
   * `__proto__` runs the setter inherited from `Object.prototype`, which
   * replaces the object's prototype and creates no own key.
   */
  const ProtoKey: string := "__proto__"

  /** `m[k] = v` on an object made by `{}`: every key but `__proto__` is stored. */
  function JsAssign<V>(m: OMap<V>, k: string, v: V): (r: OMap<V>)
    ensures k == ProtoKey ==> r.keys == m.keys && r.values == m.values
    ensures k != ProtoKey ==> r.values == m.values[k := v]
    ensures k != ProtoKey ==> r.keys == if k in m.values then m.keys else m.keys + [k]
  {
    if k == ProtoKey then m else Put(m, k, v)
  }

  /** The assignments that leave an own key of `manifest`: those of readable files with any id but `__proto__`. */
  function EntryPairs(files: seq<SvgFile>, spriteId: string): seq<(string, ManifestEntry)> {
    if files == [] then []
    else
      var last := files[|files| - 1];
      EntryPairs(files[..|files| - 1], spriteId) + if last.content.Some? && last.id != ProtoKey then [EntryOf(last, spriteId)] else []
  }

  /** The stored assignments are all assignments but those to `__proto__`. */
  lemma {:induction false} EntryPairsDropped(files: seq<SvgFile>, spriteId: string)
    ensures EntryPairs(files, spriteId) == DropKey(AssignPairs(files, spriteId), ProtoKey)
  {
    if files != [] {
      var init := files[..|files| - 1];
      var last := files[|files| - 1];
      EntryPairsDropped(init, spriteId);
      var qs := AssignPairs(files, spriteId);
      var ps := AssignPairs(init, spriteId);
      if last.content.Some? {
        assert qs == ps + [EntryOf(last, spriteId)];
        assert qs[..|qs| - 1] == ps && qs[|qs| - 1] == EntryOf(last, spriteId);
        assert DropKey(qs, ProtoKey) == DropKey(ps, ProtoKey) + if last.id == ProtoKey then [] else [EntryOf(last, spriteId)];
      } else {
        assert qs == ps;
      }
    }
  }

  /** The `i`-th symbol is that of the `i`-th readable file. */
  lemma {:induction false} JsSymbolsAt(files: seq<SvgFile>)
    ensures |JsSymbols(files)| == |Readable(files)|
    ensures forall i :: 0 <= i < |Readable(files)| ==> JsSymbols(files)[i] == SymbolOf(Readable(files)[i])
  {
    if files != [] {
      JsSymbolsAt(files[..|files| - 1]);
    }
  }

  /** The `i`-th assignment is that of the `i`-th readable file. */
  lemma {:induction false} AssignPairsAt(files: seq<SvgFile>, spriteId: string)
    ensures |AssignPairs(files, spriteId)| == |Readable(files)|
    ensures forall i :: 0 <= i < |Readable(files)| ==> AssignPairs(files, spriteId)[i] == EntryOf(Readable(files)[i], spriteId)
  {
    if files != [] {
      AssignPairsAt(files[..|files| - 1], spriteId);
    }
  }

  /** `generateSprite`: the sprite of all symbols and the manifest the assignments leave. */
  method GenerateSprite(files: seq<SvgFile>, spriteId: string) returns (symbols: seq<string>, sprite: string, manifest: OMap<ManifestEntry>)
    ensures symbols == JsSymbols(files)
    ensures sprite == SpriteDocument(symbols)
    ensures manifest == FromPairs(EntryPairs(files, spriteId))
  {
    symbols := [];
    manifest := Empty();
    var i := 0;
    while i < |files|
      invariant 0 <= i <= |files|
      invariant symbols == JsSymbols(files[..i])
      invariant manifest == FromPairs(EntryPairs(files[..i], spriteId))
    {
      var file := files[i];
      GenerateStep(files, spriteId, i);
      if file.content.Some? {
        var cleaned := JsCleanSvgContent(file.content.value);
        symbols := symbols + [Symbol(file.id, cleaned.viewBox, cleaned.content)];
        manifest := JsAssign(manifest, file.id, ManifestEntry(cleaned.viewBox, spriteId, file.relativePath));
      }
      i := i + 1;
    }
    assert files[..i] == files;
    sprite := SpriteDocument(symbols);
  }

  /** One more file adds its symbol and its assignment when it can be read. */
  lemma GenerateStep(files: seq<SvgFile>, spriteId: string, i: nat)
    requires i < |files|
    ensures files[i].content.Some? ==>
      JsSymbols(files[..i + 1]) == JsSymbols(files[..i]) + [SymbolOf(files[i])]
      && FromPairs(EntryPairs(files[..i + 1], spriteId))
        == JsAssign(FromPairs(EntryPairs(files[..i], spriteId)), files[i].id, EntryOf(files[i], spriteId).1)
    ensures files[i].content.None? ==>
      JsSymbols(files[..i + 1]) == JsSymbols(files[..i])
      && EntryPairs(files[..i + 1], spriteId) == EntryPairs(files[..i], spriteId)
  {
    var pre := files[..i + 1];
    assert pre[..i] == files[..i] && pre[i] == files[i];
    var e := EntryPairs(files[..i], spriteId);
    var d := EntryPairs(pre, spriteId);
    if files[i].content.Some? && files[i].id != ProtoKey {
      assert d == e + [EntryOf(files[i], spriteId)];
      assert d[..|d| - 1] == e && d[|d| - 1] == EntryOf(files[i], spriteId);
    } else {
      assert d == e;
    }
  }

  /** A file id is assigned exactly when a readable file carries it. */
  lemma AssignedIds(files: seq<SvgFile>, spriteId: string)
    ensures forall id :: id in FromPairs(AssignPairs(files, spriteId)).values <==>
      exists i :: 0 <= i < |Readable(files)| && Readable(files)[i].id == id
  {
    var ps := AssignPairs(files, spriteId);
    var rs := Readable(files);
    AssignPairsAt(files, spriteId);
    FromPairsKeys(ps);
    forall id ensures id in FromPairs(ps).values <==> exists i :: 0 <= i < |rs| && rs[i].id == id {
      if id in FromPairs(ps).values {
        assert id in set i | 0 <= i < |ps| :: ps[i].0;
        var i :| 0 <= i < |ps| && ps[i].0 == id;
        assert rs[i].id == id;
      }
      if exists i :: 0 <= i < |rs| && rs[i].id == id {
        var i :| 0 <= i < |rs| && rs[i].id == id;
        assert ps[i].0 == id;
        assert id in set i | 0 <= i < |ps| :: ps[i].0;
      }
    }
  }

  /** A file id is a key of the manifest exactly when a readable file carries it and it is not `__proto__`. */
  lemma ManifestIds(files: seq<SvgFile>, spriteId: string)
    ensures forall id :: id in FromPairs(EntryPairs(files, spriteId)).values <==>
      id != ProtoKey && exists i :: 0 <= i < |Readable(files)| && Readable(files)[i].id == id
  {
    AssignedIds(files, spriteId);
    EntryPairsDropped(files, spriteId);
    forall id ensures id in FromPairs(EntryPairs(files, spriteId)).values <==>
      id != ProtoKey && exists i :: 0 <= i < |Readable(files)| && Readable(files)[i].id == id
    {
      FromPairsDropKey(AssignPairs(files, spriteId), ProtoKey, id);
    }
  }

  /**
   * For a duplicate id the manifest keeps the entry of the last readable file
   * with it; a file with id `__proto__` leaves no entry.
   */
  lemma ManifestLastWins(files: seq<SvgFile>, spriteId: string, i: nat)
    requires i < |Readable(files)|
    requires forall j :: i < j < |Readable(files)| ==> Readable(files)[j].id != Readable(files)[i].id
    ensures var f := Readable(files)[i];
      f.id != ProtoKey ==>
        f.id in FromPairs(EntryPairs(files, spriteId)).values
        && FromPairs(EntryPairs(files, spriteId)).values[f.id] == EntryOf(f, spriteId).1
    ensures Readable(files)[i].id == ProtoKey ==> Readable(files)[i].id !in FromPairs(EntryPairs(files, spriteId)).values
  {
    var ps := AssignPairs(files, spriteId);
    AssignPairsAt(files, spriteId);
    assert LastWith(ps, i);
    FromPairsLastWins(ps, i);
    EntryPairsDropped(files, spriteId);
    FromPairsDropKey(ps, ProtoKey, Readable(files)[i].id);
  }

  /** A readable `__proto__.svg` alone gives a sprite with its symbol and an empty manifest. */
  lemma ProtoIconUnlisted(f: SvgFile, spriteId: string)
    requires f.content.Some? && f.id == ProtoKey
    ensures JsSymbols([f]) == [SymbolOf(f)]
    ensures FromPairs(EntryPairs([f], spriteId)).keys == []
  {
    assert [f][..0] == [];
  }

  // --------------------------------------------------------- buildSprites

  /** One sprite set of the configuration. */
  datatype SpriteSetup = SpriteSetup(inputDir: string, outputFile: string, spriteId: string, recursive: bool)

  /** A value of the configuration object: a sprite set, or a plain path (the manifest file). */
  datatype ConfigValue = SpriteSet(setup: SpriteSetup) | PathValue(path: string)

  /** The configuration object as `Object.entries` lists it, and a path below the theme root. */
  function Below(themeRoot: string, rel: string): string {
    themeRoot + "/" + rel
  }

  function DefaultEntries(themeRoot: string): (r: seq<(string, ConfigValue)>)
    ensures |r| == 3 && r[2] == ("manifestFile", PathValue(Below(themeRoot, "dist/icon-manifest.json")))
    ensures r[0] == ("icons", SpriteSet(SpriteSetup(Below(themeRoot, "assets/icons"), Below(themeRoot, "dist/icons-sprite.svg"), "icons", true)))
    ensures r[1] == ("largeIcons", SpriteSet(SpriteSetup(Below(themeRoot, "assets/large-icons"), Below(themeRoot, "dist/large-icons-sprite.svg"), "large-icons", false)))
  {
    [("icons", SpriteSet(SpriteSetup(Below(themeRoot, "assets/icons"), Below(themeRoot, "dist/icons-sprite.svg"), "icons", true))),
     ("largeIcons", SpriteSet(SpriteSetup(Below(themeRoot, "assets/large-icons"), Below(themeRoot, "dist/large-icons-sprite.svg"), "large-icons", false))),
     ("manifestFile", PathValue(Below(themeRoot, "dist/icon-manifest.json")))]
  }

  /** A sprite file written: its path and the symbols its document wraps, in order. */
  datatype SpriteWrite = SpriteWrite(path: string, symbols: seq<string>) {
    /** The text `fs.writeFileSync` writes to `path`. */
    function Text(): string {
      SpriteDocument(symbols)
    }
  }

  /** A set the loop generated a sprite for: its configuration and the files collected for it. */
  datatype Generated = Generated(setup: SpriteSetup, files: seq<SvgFile>)

  /** The sprite files the generated sets write, in order. */
  function Writes(gs: seq<Generated>): (r: seq<SpriteWrite>)
    ensures |r| == |gs|
  {
    if gs == [] then []
    else
      var g := gs[|gs| - 1];
      Writes(gs[..|gs| - 1]) + [SpriteWrite(g.setup.outputFile, JsSymbols(g.files))]
  }

  /** `allManifests` after the generated sets: each set's manifest under its sprite id, none under `__proto__`. */
  function Manifests(gs: seq<Generated>): OMap<OMap<ManifestEntry>> {
    if gs == [] then Empty()
    else
      var g := gs[|gs| - 1];
      JsAssign(Manifests(gs[..|gs| - 1]), g.setup.spriteId, FromPairs(EntryPairs(g.files, g.setup.spriteId)))
  }

  /** One more generated set writes its sprite and stores its manifest under its sprite id. */
  lemma GeneratedStep(gs: seq<Generated>, g: Generated)
    ensures Writes(gs + [g]) == Writes(gs) + [SpriteWrite(g.setup.outputFile, JsSymbols(g.files))]
    ensures Manifests(gs + [g]) == JsAssign(Manifests(gs), g.setup.spriteId, FromPairs(EntryPairs(g.files, g.setup.spriteId)))
  {
    assert (gs + [g])[..|gs|] == gs;
  }

  /** The loop either goes on or has thrown; either way the sets generated so far stay written. */
  datatype Run = Running(done: seq<Generated>) | Thrown(done: seq<Generated>)

  /** The files one configuration entry yields: none for the manifest path or a value without `inputDir`. */
  function EntryFiles(entry: (string, ConfigValue), fs: string -> Root): Listing {
    if entry.0 == "manifestFile" then Listed([])
    else
      match entry.1
      case PathValue(_) => Listed([])
      case SpriteSet(setup) => CollectedFiles(fs(setup.inputDir), setup.recursive, "")
  }

  /**
   * One turn of the `for … of` over the configuration entries. `writable(p)`
   * says whether `ensureDir(p)` and `fs.writeFileSync(p, …)` succeed; when
   * they throw, no sprite is written and the loop stops.
   */
  function BuildStep(done: seq<Generated>, entry: (string, ConfigValue), fs: string -> Root, writable: string -> bool): Run {
    match EntryFiles(entry, fs)
    case ListFailed => Thrown(done)
    case Listed(files) =>
      if files == [] then Running(done)
      else if !writable(entry.1.setup.outputFile) then Thrown(done)
      else Running(done + [Generated(entry.1.setup, files)])
  }

  /** The loop over the first `n` entries. */
  function BuildUpTo(entries: seq<(string, ConfigValue)>, fs: string -> Root, writable: string -> bool, n: nat): Run
    requires n <= |entries|
  {
    if n == 0 then Running([])
    else
      match BuildUpTo(entries, fs, writable, n - 1)
      case Thrown(done) => Thrown(done)
      case Running(done) => BuildStep(done, entries[n - 1], fs, writable)
  }

  /**
   * What a build leaves: the sprite files written, then the combined
   * manifest written to `manifestFile`, and the summary count; or a failure
   * after the sprite files written before it.
   */
  datatype Outcome =
    | Built(writes: seq<SpriteWrite>, manifestFile: string, manifests: OMap<OMap<ManifestEntry>>, totalIcons: nat)
    | BuildFailed(writtenBefore: seq<SpriteWrite>)

  /** `Object.values(allManifests).reduce((sum, m) => sum + Object.keys(m).length, 0)`. */
  function TotalIcons(ms: seq<OMap<ManifestEntry>>): nat {
    if ms == [] then 0 else TotalIcons(ms[..|ms| - 1]) + |ms[|ms| - 1].keys|
  }

  /**
   * `buildSprites`: the loop, then the combined manifest and the summary; a
   * throw in the loop or in writing the manifest leaves only the sprites
   * written before it.
   */
  function BuildOutcome(entries: seq<(string, ConfigValue)>, manifestFile: string, fs: string -> Root, writable: string -> bool): Outcome {
    Finish(BuildUpTo(entries, fs, writable, |entries|), manifestFile, writable)
  }

  /** What the finished loop leaves once the manifest write has been tried. */
  function Finish(run: Run, manifestFile: string, writable: string -> bool): Outcome {
    if run.Thrown? || !writable(manifestFile) then BuildFailed(Writes(run.done))
    else
      var ms := Manifests(run.done);
      Built(Writes(run.done), manifestFile, ms, TotalIcons(Values(ms)))
  }

  /** `buildSprites` as the script runs it. */
  method BuildSprites(entries: seq<(string, ConfigValue)>, manifestFile: string, fs: string -> Root, writable: string -> bool) returns (r: Outcome)
    ensures r == BuildOutcome(entries, manifestFile, fs, writable)
  {
    var writes: seq<SpriteWrite> := [];
    var allManifests: OMap<OMap<ManifestEntry>> := Empty();
    ghost var done: seq<Generated> := [];
    var thrown := false;
    var i := 0;
    while i < |entries| && !thrown
      invariant 0 <= i <= |entries|
      invariant !thrown ==> BuildUpTo(entries, fs, writable, i) == Running(done)
      invariant thrown ==> BuildUpTo(entries, fs, writable, |entries|) == Thrown(done)
      invariant writes == Writes(done) && allManifests == Manifests(done)
    {
      thrown, writes, allManifests, done := BuildTurn(entries, i, fs, writable, writes, allManifests, done);
      i := i + 1;
    }
    ghost var run := if thrown then Thrown(done) else Running(done);
    r := Conclude(run, thrown, writes, allManifests, manifestFile, writable);
  }

  /** The end of `buildSprites`: after a throw, nothing more; otherwise the manifest write and the summary. */
  method Conclude(ghost run: Run, thrown: bool, writes: seq<SpriteWrite>, allManifests: OMap<OMap<ManifestEntry>>,
                  manifestFile: string, writable: string -> bool) returns (r: Outcome)
    requires thrown == run.Thrown? && writes == Writes(run.done) && allManifests == Manifests(run.done)
    ensures r == Finish(run, manifestFile, writable)
  {
    if thrown || !writable(manifestFile) {
      return BuildFailed(writes);
    }
    var totalIcons := TotalIcons(Values(allManifests));
    return Built(writes, manifestFile, allManifests, totalIcons);
  }

  /**
   * One turn of the loop of `buildSprites`: list the entry's files and, when
   * there are some, generate its sprite, write it and store its manifest.
   */
  method BuildTurn(entries: seq<(string, ConfigValue)>, i: nat, fs: string -> Root, writable: string -> bool, writes: seq<SpriteWrite>,
                   allManifests: OMap<OMap<ManifestEntry>>, ghost done: seq<Generated>)
    returns (thrown: bool, writes': seq<SpriteWrite>, allManifests': OMap<OMap<ManifestEntry>>, ghost done': seq<Generated>)
    requires i < |entries| && BuildUpTo(entries, fs, writable, i) == Running(done)
    requires writes == Writes(done) && allManifests == Manifests(done)
    ensures !thrown ==> BuildUpTo(entries, fs, writable, i + 1) == Running(done')
    ensures thrown ==> BuildUpTo(entries, fs, writable, i + 1) == Thrown(done')
    ensures thrown ==> BuildUpTo(entries, fs, writable, |entries|) == Thrown(done')
    ensures writes' == Writes(done') && allManifests' == Manifests(done')
  {
    BuildUpToNext(entries, fs, writable, i, done);
    var entry := entries[i];
    var (name, spriteConfig) := entry;
    writes', allManifests', done' := writes, allManifests, done;
    var listing := Listed([]);
    if name != "manifestFile" && spriteConfig.SpriteSet? {
      listing := CollectSvgFiles(fs(spriteConfig.setup.inputDir), spriteConfig.setup.recursive, "");
    }
    assert listing == EntryFiles(entry, fs);
    if listing.ListFailed? {
      BuildThrownStays(entries, fs, writable, i + 1);
      return true, writes', allManifests', done';
    }
    if |listing.files| > 0 {
      var symbols, sprite, manifest := GenerateSprite(listing.files, spriteConfig.setup.spriteId);
      if !writable(spriteConfig.setup.outputFile) {
        BuildThrownStays(entries, fs, writable, i + 1);
        return true, writes', allManifests', done';
      }
      writes' := writes + [SpriteWrite(spriteConfig.setup.outputFile, symbols)];
      allManifests' := JsAssign(allManifests, spriteConfig.setup.spriteId, manifest);
      GeneratedStep(done, Generated(spriteConfig.setup, listing.files));
      done' := done + [Generated(spriteConfig.setup, listing.files)];
    }
    thrown := false;
  }

  lemma BuildUpToNext(entries: seq<(string, ConfigValue)>, fs: string -> Root, writable: string -> bool, i: nat, done: seq<Generated>)
    requires i < |entries| && BuildUpTo(entries, fs, writable, i) == Running(done)
    ensures BuildUpTo(entries, fs, writable, i + 1) == BuildStep(done, entries[i], fs, writable)
  {
  }

  /** Once the run has thrown (a failed listing or sprite write), later entries change nothing. */
  lemma {:induction false} BuildThrownStays(entries: seq<(string, ConfigValue)>, fs: string -> Root, writable: string -> bool, n: nat)
    requires n <= |entries| && BuildUpTo(entries, fs, writable, n).Thrown?
    decreases |entries| - n
    ensures BuildUpTo(entries, fs, writable, |entries|) == BuildUpTo(entries, fs, writable, n)
  {
    if n < |entries| {
      assert BuildUpTo(entries, fs, writable, n + 1) == BuildUpTo(entries, fs, writable, n);
      BuildThrownStays(entries, fs, writable, n + 1);
    }
  }

  /** The `manifestFile` entry and a set without files are skipped: no write and no manifest key. */
  lemma SkippedEntries(done: seq<Generated>, entry: (string, ConfigValue), fs: string -> Root, writable: string -> bool)
    requires entry.0 == "manifestFile" || EntryFiles(entry, fs) == Listed([])
    ensures BuildStep(done, entry, fs, writable) == Running(done)
  {
  }

  /** A set with files whose sprite cannot be written stops the loop, with nothing more written. */
  lemma UnwritableEntry(done: seq<Generated>, entry: (string, ConfigValue), fs: string -> Root, writable: string -> bool)
    requires EntryFiles(entry, fs).Listed? && EntryFiles(entry, fs).files != []
    ensures entry.1.SpriteSet?
    ensures !writable(entry.1.setup.outputFile) ==> BuildStep(done, entry, fs, writable) == Thrown(done)
  {
  }

  /** A set with files writes its sprite and stores its manifest under its sprite id, replacing an earlier one. */
  lemma BuiltEntry(done: seq<Generated>, entry: (string, ConfigValue), fs: string -> Root, writable: string -> bool)
    requires EntryFiles(entry, fs).Listed? && EntryFiles(entry, fs).files != []
    requires entry.1.SpriteSet? && writable(entry.1.setup.outputFile)
    ensures entry.0 != "manifestFile"
    ensures var files := EntryFiles(entry, fs).files;
      var sid := entry.1.setup.spriteId;
      var after := BuildStep(done, entry, fs, writable);
      after.Running?
      && Writes(after.done) == Writes(done) + [SpriteWrite(entry.1.setup.outputFile, JsSymbols(files))]
      && (sid != ProtoKey ==>
            sid in Manifests(after.done).values && Manifests(after.done).values[sid] == FromPairs(EntryPairs(files, sid)))
      && (sid == ProtoKey ==> Manifests(after.done) == Manifests(done))
      && (forall s :: s != sid ==> (s in Manifests(after.done).values <==> s in Manifests(done).values))
      && (forall s :: s != sid && s in Manifests(done).values ==> Manifests(after.done).values[s] == Manifests(done).values[s])
  {
    GeneratedStep(done, Generated(entry.1.setup, EntryFiles(entry, fs).files));
  }

  /** The entry at position `j` contributes a manifest. */
  ghost predicate Contributes(entries: seq<(string, ConfigValue)>, fs: string -> Root, j: int, sid: string) {
    0 <= j < |entries| && EntryFiles(entries[j], fs).Listed? && EntryFiles(entries[j], fs).files != []
    && entries[j].1.SpriteSet? && entries[j].1.setup.spriteId == sid
  }

  /** A sprite id is a key of the stored manifests exactly when a generated set has it. */
  lemma {:induction false} ManifestsKeys(gs: seq<Generated>, sid: string)
    ensures sid in Manifests(gs).values <==> sid != ProtoKey && exists k :: 0 <= k < |gs| && gs[k].setup.spriteId == sid
  {
    if gs != [] {
      var init := gs[..|gs| - 1];
      var last := gs[|gs| - 1].setup.spriteId;
      ManifestsKeys(init, sid);
      assert sid in Manifests(gs).values <==> sid in Manifests(init).values || (sid == last && sid != ProtoKey);
      if sid == ProtoKey {
        assert sid !in Manifests(gs).values;
      } else if sid in Manifests(init).values {
        var k :| 0 <= k < |init| && init[k].setup.spriteId == sid;
        assert gs[k] == init[k];
      } else if sid != last {
        forall k | 0 <= k < |gs| ensures gs[k].setup.spriteId != sid {
          if k < |init| {
            assert gs[k] == init[k];
          } else {
            assert k == |gs| - 1;
          }
        }
      }
    }
  }

  /** The sets generated over the first `n` entries carry exactly the sprite ids of the entries with files. */
  lemma {:induction false} DoneSpriteIds(entries: seq<(string, ConfigValue)>, fs: string -> Root, writable: string -> bool, n: nat, sid: string)
    requires n <= |entries| && BuildUpTo(entries, fs, writable, n).Running?
    ensures var done := BuildUpTo(entries, fs, writable, n).done;
      (exists k :: 0 <= k < |done| && done[k].setup.spriteId == sid) <==>
      exists j :: 0 <= j < n && Contributes(entries, fs, j, sid)
  {
    if n > 0 {
      var before := BuildUpTo(entries, fs, writable, n - 1);
      assert before.Running?;
      DoneSpriteIds(entries, fs, writable, n - 1, sid);
      var after := BuildUpTo(entries, fs, writable, n).done;
      var listing := EntryFiles(entries[n - 1], fs);
      if listing.Listed? && listing.files != [] {
        assert entries[n - 1].1.SpriteSet?;
        assert writable(entries[n - 1].1.setup.outputFile);
        var g := Generated(entries[n - 1].1.setup, listing.files);
        assert after == before.done + [g];
        assert forall k :: 0 <= k < |before.done| ==> after[k] == before.done[k];
        assert Contributes(entries, fs, n - 1, sid) <==> g.setup.spriteId == sid;
        assert (exists k :: 0 <= k < |after| && after[k].setup.spriteId == sid) <==>
          (exists k :: 0 <= k < |before.done| && before.done[k].setup.spriteId == sid) || after[|before.done|].setup.spriteId == sid;
      } else {
        assert after == before.done;
        assert !Contributes(entries, fs, n - 1, sid);
      }
      assert (exists j :: 0 <= j < n && Contributes(entries, fs, j, sid)) <==>
        (exists j :: 0 <= j < n - 1 && Contributes(entries, fs, j, sid)) || Contributes(entries, fs, n - 1, sid);
    }
  }

  /** A sprite id is a key of `allManifests` exactly when some entry with files has it. */
  lemma ManifestKeys(entries: seq<(string, ConfigValue)>, fs: string -> Root, writable: string -> bool, n: nat, sid: string)
    requires n <= |entries| && BuildUpTo(entries, fs, writable, n).Running?
    ensures sid in Manifests(BuildUpTo(entries, fs, writable, n).done).values <==>
      sid != ProtoKey && exists j :: 0 <= j < n && Contributes(entries, fs, j, sid)
  {
    ManifestsKeys(BuildUpTo(entries, fs, writable, n).done, sid);
    DoneSpriteIds(entries, fs, writable, n, sid);
  }

  /** Every entry of every stored manifest names, as its `sprite`, the id it is stored under. */
  ghost predicate SpritesNamed(ms: OMap<OMap<ManifestEntry>>) {
    forall sid, id :: sid in ms.values && id in ms.values[sid].values ==> ms.values[sid].values[id].sprite == sid
  }

  /** `generateSprite` writes the sprite id it was given into every entry. */
  lemma EntriesNameSprite(files: seq<SvgFile>, spriteId: string)
    ensures forall id :: id in FromPairs(EntryPairs(files, spriteId)).values ==>
      FromPairs(EntryPairs(files, spriteId)).values[id].sprite == spriteId
  {
    var ps := AssignPairs(files, spriteId);
    AssignPairsAt(files, spriteId);
    FromPairsValues(ps);
    EntryPairsDropped(files, spriteId);
    forall id | id in FromPairs(EntryPairs(files, spriteId)).values
      ensures FromPairs(EntryPairs(files, spriteId)).values[id].sprite == spriteId
    {
      FromPairsDropKey(ps, ProtoKey, id);
      var i :| 0 <= i < |ps| && ps[i].0 == id && ps[i].1 == FromPairs(ps).values[id];
      assert ps[i] == EntryOf(Readable(files)[i], spriteId);
    }
  }

  /** Every stored entry names the sprite it is stored under. */
  lemma {:induction false} ManifestsNamed(gs: seq<Generated>)
    ensures SpritesNamed(Manifests(gs))
  {
    if gs != [] {
      var init := gs[..|gs| - 1];
      var g := gs[|gs| - 1];
      ManifestsNamed(init);
      EntriesNameSprite(g.files, g.setup.spriteId);
    }
  }

  /** The distinct ids of the files that can be read, but `__proto__`, which the manifest cannot hold. */
  ghost function IdsRead(files: seq<SvgFile>): set<string> {
    set f | f in Readable(files) && f.id != ProtoKey :: f.id
  }

  /** A manifest holds one key per distinct readable id. */
  lemma ManifestSize(files: seq<SvgFile>, spriteId: string)
    ensures |FromPairs(EntryPairs(files, spriteId)).keys| == |IdsRead(files)|
  {
    var m := FromPairs(EntryPairs(files, spriteId));
    ManifestIds(files, spriteId);
    DistinctCard(m.keys);
    assert (set k | k in m.keys) == IdsRead(files) by {
      var rs := Readable(files);
      forall id ensures id in IdsRead(files) <==> id != ProtoKey && exists i :: 0 <= i < |rs| && rs[i].id == id {
        if id in IdsRead(files) {
          var f :| f in rs && f.id == id;
          var i :| 0 <= i < |rs| && rs[i] == f;
        }
      }
    }
  }

  /** The icons of a listing: the distinct readable ids of its files, none when it threw. */
  ghost function ListedIcons(l: Listing): nat {
    if l.Listed? then |IdsRead(l.files)| else 0
  }

  /** The icons an entry adds to the total: none for the sprite id `__proto__`, which gets no own key. */
  ghost function EntryIcons(entry: (string, ConfigValue), fs: string -> Root): nat {
    if entry.1.SpriteSet? && entry.1.setup.spriteId == ProtoKey then 0 else ListedIcons(EntryFiles(entry, fs))
  }

  /** The icons of the first `n` entries, summed. */
  ghost function EntriesIconCount(entries: seq<(string, ConfigValue)>, fs: string -> Root, n: nat): nat
    requires n <= |entries|
  {
    if n == 0 then 0 else EntriesIconCount(entries, fs, n - 1) + EntryIcons(entries[n - 1], fs)
  }

  /** No two sprite sets of the configuration share a sprite id. */
  ghost predicate SpriteIdsDistinct(entries: seq<(string, ConfigValue)>) {
    forall i, j :: 0 <= i < j < |entries| && entries[i].1.SpriteSet? && entries[j].1.SpriteSet? ==>
      entries[i].1.setup.spriteId != entries[j].1.setup.spriteId
  }

  /** No two generated sets share a sprite id. */
  ghost predicate GeneratedDistinct(gs: seq<Generated>) {
    forall i, j :: 0 <= i < j < |gs| ==> gs[i].setup.spriteId != gs[j].setup.spriteId
  }

  /** With distinct configured sprite ids, the sets generated carry distinct sprite ids. */
  lemma {:induction false} DoneDistinct(entries: seq<(string, ConfigValue)>, fs: string -> Root, writable: string -> bool, n: nat)
    requires n <= |entries| && BuildUpTo(entries, fs, writable, n).Running? && SpriteIdsDistinct(entries)
    ensures GeneratedDistinct(BuildUpTo(entries, fs, writable, n).done)
  {
    if n > 0 {
      var before := BuildUpTo(entries, fs, writable, n - 1);
      assert before.Running?;
      DoneDistinct(entries, fs, writable, n - 1);
      var listing := EntryFiles(entries[n - 1], fs);
      if listing.Listed? && listing.files != [] {
        var sid := entries[n - 1].1.setup.spriteId;
        DoneSpriteIds(entries, fs, writable, n - 1, sid);
        assert !exists j :: 0 <= j < n - 1 && Contributes(entries, fs, j, sid);
        var after := BuildUpTo(entries, fs, writable, n).done;
        assert after == before.done + [Generated(entries[n - 1].1.setup, listing.files)];
        forall i, j | 0 <= i < j < |after| ensures after[i].setup.spriteId != after[j].setup.spriteId {
          if j == |after| - 1 {
            assert after[i] == before.done[i];
          } else {
            assert after[i] == before.done[i] && after[j] == before.done[j];
          }
        }
      }
    }
  }

  /** The sum of the generated sets' icons; a set under `__proto__` is not stored and counts none. */
  ghost function GeneratedIcons(gs: seq<Generated>): nat {
    if gs == [] then 0
    else
      var g := gs[|gs| - 1];
      GeneratedIcons(gs[..|gs| - 1]) + if g.setup.spriteId == ProtoKey then 0 else |IdsRead(g.files)|
  }

  /** The stored manifests' sizes sum to the generated sets' icons when their sprite ids are distinct. */
  lemma {:induction false} TotalOfDistinct(gs: seq<Generated>)
    requires GeneratedDistinct(gs)
    ensures TotalIcons(Values(Manifests(gs))) == GeneratedIcons(gs)
  {
    if gs != [] {
      var init := gs[..|gs| - 1];
      var g := gs[|gs| - 1];
      assert GeneratedDistinct(init) by {
        forall i, j | 0 <= i < j < |init| ensures init[i].setup.spriteId != init[j].setup.spriteId {
          assert init[i] == gs[i] && init[j] == gs[j];
        }
      }
      TotalOfDistinct(init);
      var sid := g.setup.spriteId;
      var m := FromPairs(EntryPairs(g.files, sid));
      var before := Manifests(init);
      ManifestsKeys(init, sid);
      assert sid !in before.values by {
        forall k | 0 <= k < |init| ensures init[k].setup.spriteId != sid {
          assert init[k] == gs[k];
        }
      }
      NewSpriteValues(gs);
      if sid != ProtoKey {
        var vs := Values(before);
        assert (vs + [m])[..|vs|] == vs;
        ManifestSize(g.files, sid);
      }
    }
  }

  /** A set with a new sprite id appends its manifest to the stored ones, unless the id is `__proto__`. */
  lemma NewSpriteValues(gs: seq<Generated>)
    requires gs != [] && gs[|gs| - 1].setup.spriteId !in Manifests(gs[..|gs| - 1]).values
    ensures var g := gs[|gs| - 1];
      Values(Manifests(gs)) == Values(Manifests(gs[..|gs| - 1]))
        + if g.setup.spriteId == ProtoKey then [] else [FromPairs(EntryPairs(g.files, g.setup.spriteId))]
  {
  }

  /** The generated sets' icons are the entries' icons: skipped entries have none. */
  lemma {:induction false} GeneratedIconsOfEntries(entries: seq<(string, ConfigValue)>, fs: string -> Root, writable: string -> bool, n: nat)
    requires n <= |entries| && BuildUpTo(entries, fs, writable, n).Running?
    ensures GeneratedIcons(BuildUpTo(entries, fs, writable, n).done) == EntriesIconCount(entries, fs, n)
  {
    if n > 0 {
      var before := BuildUpTo(entries, fs, writable, n - 1);
      assert before.Running?;
      GeneratedIconsOfEntries(entries, fs, writable, n - 1);
      var listing := EntryFiles(entries[n - 1], fs);
      var after := BuildUpTo(entries, fs, writable, n).done;
      if listing.Listed? && listing.files != [] {
        assert after == before.done + [Generated(entries[n - 1].1.setup, listing.files)];
        assert after[..|after| - 1] == before.done;
      } else {
        assert listing == Listed([]);
        assert IdsRead([]) == {};
      }
    }
  }

  /**
   * The reported total: when no two sprite sets share a sprite id, it is the
   * number of distinct ids read in each set, summed over the sets.
   */
  lemma BuildTotal(entries: seq<(string, ConfigValue)>, manifestFile: string, fs: string -> Root, writable: string -> bool)
    requires BuildOutcome(entries, manifestFile, fs, writable).Built? && SpriteIdsDistinct(entries)
    ensures BuildOutcome(entries, manifestFile, fs, writable).totalIcons == EntriesIconCount(entries, fs, |entries|)
  {
    var done := BuildUpTo(entries, fs, writable, |entries|).done;
    DoneDistinct(entries, fs, writable, |entries|);
    TotalOfDistinct(done);
    GeneratedIconsOfEntries(entries, fs, writable, |entries|);
  }

  /** The default configuration's total: the distinct icon ids read in `icons` plus those in `large-icons`. */
  lemma DefaultBuildTotal(themeRoot: string, fs: string -> Root, writable: string -> bool)
    requires BuildOutcome(DefaultEntries(themeRoot), Below(themeRoot, "dist/icon-manifest.json"), fs, writable).Built?
    ensures var es := DefaultEntries(themeRoot);
      BuildOutcome(es, Below(themeRoot, "dist/icon-manifest.json"), fs, writable).totalIcons
        == ListedIcons(EntryFiles(es[0], fs)) + ListedIcons(EntryFiles(es[1], fs))
  {
    var es := DefaultEntries(themeRoot);
    BuildTotal(es, Below(themeRoot, "dist/icon-manifest.json"), fs, writable);
    assert EntryFiles(es[2], fs) == Listed([]);
    assert IdsRead([]) == {};
    assert EntryIcons(es[0], fs) == ListedIcons(EntryFiles(es[0], fs));
    assert EntryIcons(es[1], fs) == ListedIcons(EntryFiles(es[1], fs));
    assert EntriesIconCount(es, fs, 1) == EntryIcons(es[0], fs);
    assert EntriesIconCount(es, fs, 3) == EntriesIconCount(es, fs, 2) + EntryIcons(es[2], fs);
  }

  // ------------------------------------------------------- watch and CLI

  /** The watch callback rebuilds only for a reported file name ending in `.svg`. */
  predicate ShouldRebuild(filename: Option<string>) {
    filename.Some? && filename.value != "" && EndsWith(filename.value, ".svg")
  }

  /** `filename &&` adds nothing: the name test alone decides. */
  lemma RebuildOnSvg(filename: Option<string>)
    ensures ShouldRebuild(filename) <==> filename.Some? && EndsWith(filename.value, ".svg")
  {
  }

  /** `process.argv.slice(2)`. */
  function Args(argv: seq<string>): seq<string> {
    if |argv| <= 2 then [] else argv[2..]
  }

  /** `args.includes('--watch') || args.includes('-w')`. */
  predicate IsWatch(args: seq<string>) {
    "--watch" in args || "-w" in args
  }

  /** The directories watch mode watches: the two input directories that exist, `icons` first. */
  function WatchDirs(themeRoot: string, fs: string -> Root): (r: seq<string>)
    ensures forall d :: d in r <==>
      (d == Below(themeRoot, "assets/icons") || d == Below(themeRoot, "assets/large-icons")) && fs(d) != Missing
    ensures forall i, j :: 0 <= i < j < |r| ==>
      r[i] == Below(themeRoot, "assets/icons") && r[j] == Below(themeRoot, "assets/large-icons")
    ensures |r| <= 2
  {
    var dirs := [Below(themeRoot, "assets/icons"), Below(themeRoot, "assets/large-icons")];
    (if fs(dirs[0]) != Missing then [dirs[0]] else []) + (if fs(dirs[1]) != Missing then [dirs[1]] else [])
  }

  /** The script run: exit status 1 after a failed build; otherwise the build and the directories watched. */
  datatype CliOutcome = ExitFailure(writtenBefore: seq<SpriteWrite>) | Completed(build: Outcome, watching: seq<string>)

  function Cli(argv: seq<string>, themeRoot: string, fs: string -> Root, writable: string -> bool): (r: CliOutcome)
    ensures r.ExitFailure? <==> BuildOutcome(DefaultEntries(themeRoot), Below(themeRoot, "dist/icon-manifest.json"), fs, writable).BuildFailed?
    ensures r.ExitFailure? ==>
      r.writtenBefore == BuildOutcome(DefaultEntries(themeRoot), Below(themeRoot, "dist/icon-manifest.json"), fs, writable).writtenBefore
    ensures r.Completed? ==>
      r.build == BuildOutcome(DefaultEntries(themeRoot), Below(themeRoot, "dist/icon-manifest.json"), fs, writable)
    ensures r.Completed? && r.watching != [] ==> IsWatch(Args(argv))
    ensures r.Completed? && IsWatch(Args(argv)) ==> r.watching == WatchDirs(themeRoot, fs)
  {
    match BuildOutcome(DefaultEntries(themeRoot), Below(themeRoot, "dist/icon-manifest.json"), fs, writable)
    case BuildFailed(w) => ExitFailure(w)
    case Built(writes, file, ms, total) =>
      Completed(Built(writes, file, ms, total), if IsWatch(Args(argv)) then WatchDirs(themeRoot, fs) else [])
  }
}
