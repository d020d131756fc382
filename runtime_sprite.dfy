/**
 * The runtime sprite repository of lib/Utils/IconSprite.php: a class whose
 * two static arrays, the per-sprite document cache and the icon map
 * (sprite id -> icon id -> {viewBox, sprite}), become the two fields of an
 * `IconSprite` object. The file system is a supplied function from a path to
 * what is there; `esc_attr` is a supplied escaping function.
 */
module RuntimeSprite {
  import opened Wrappers
  import opened Text
  import opened OrderedMap
  import opened FileTree
  import opened SvgScan
  import opened Markup

  /** `['viewBox' => ..., 'sprite' => ...]` of the icon map. */
  datatype IconRef = IconRef(viewBox: string, sprite: string)

  /** One entry of the `init` configuration. */
  datatype SpriteConfig = SpriteConfig(directory: string, spriteId: string, recursive: bool)

  /** The result of `getAvailableIcons`: a list of ids, or a list per sprite. */
  datatype Available = Ids(ids: seq<string>) | BySprite(bySprite: OMap<seq<string>>)

  /** PHP's truthiness of a string: everything except `""` and `"0"`. */
  predicate Truthy(s: string) {
    s != "" && s != "0"
  }

  // ------------------------------------------------------------- icon ids

  /**
   * The path the SPL directory iterators build on: the directory they are
   * opened with, less one trailing `/` when it is longer than `/` itself.
   */
  function IteratorPath(directory: string): string {
    if |directory| > 1 && directory[|directory| - 1] == '/' then directory[..|directory| - 1] else directory
  }

  /** `getPathname()` of a file the directory iterator reaches under `directory`. */
  function Pathname(directory: string, f: Located): string {
    IteratorPath(directory) + "/" + Join(f.dirs + [f.name], "/")
  }

  /** `generateIconId`: delete every `BASE/`, then turn every `/` into `-`, then delete every `.svg`. */
  function GenerateIconId(pathname: string, baseDirectory: string): string {
    var relativePath := ReplaceAll(pathname, baseDirectory + "/", "");
    ReplaceAll(ReplaceAll(relativePath, "/", "-"), ".svg", "")
  }

  /**
   * For a file below `base`, where `base` has no trailing `/` and the file's
   * relative path does not itself contain `base/`, the id is the relative path with `/` turned into `-` and every
   * `.svg` deleted (in directory names as well as at the end).
   */
  lemma {:induction false} IconIdOfFile(base: string, f: Located)
    requires NameOk(f.name) && forall d :: d in f.dirs ==> NameOk(d)
    requires IteratorPath(base) == base && !Occurs(Join(f.dirs + [f.name], "/"), base + "/")
    ensures GenerateIconId(Pathname(base, f), base) == ReplaceAll(Join(f.dirs + [f.name], "-"), ".svg", "")
  {
    var rel := Join(f.dirs + [f.name], "/");
    assert Pathname(base, f) == (base + "/") + rel;
    ReplaceAllLeading(base + "/", rel, "");
    ReplaceAllAbsent(rel, base + "/", "");
    assert "" + rel == rel;
    assert ReplaceAll(Pathname(base, f), base + "/", "") == rel;
    var parts := f.dirs + [f.name];
    assert forall i :: 0 <= i < |parts| ==> '/' !in parts[i] by {
      forall i | 0 <= i < |parts| ensures '/' !in parts[i] {
        if i < |f.dirs| { assert parts[i] in f.dirs; }
      }
    }
    JoinReplaceSeparator(parts);
    assert ReplaceAll(rel, "/", "-") == Join(parts, "-");
  }

  // ------------------------------------------------------------ normaliser

  /** `cleanSvgContent`. */
  function CleanSvgContent(raw: string): CleanIcon {
    var c := StripProlog(raw);
    match SvgInner(c)
    case None => CleanIcon("", DefaultViewBox)
    case Some(inner) =>
      var viewBox := match AttrValue(c, "viewBox")
        case Some(v) => v
        case None => "0 0 " + AttrValue(c, "width").GetOr("24") + " " + AttrValue(c, "height").GetOr("24");
      CleanIcon(Trim(inner, PhpSpace), viewBox)
  }

  /** With no sprite region the icon is empty with the default viewBox, whatever attributes the text has. */
  lemma CleanWithoutRegion(raw: string)
    requires NoSvgMatch(StripProlog(raw))
    ensures CleanSvgContent(raw) == CleanIcon("", DefaultViewBox)
  {
    SvgInnerNone(StripProlog(raw));
  }

  /** The content is the trimmed text between the leftmost `<svg…>` and the next `</svg>`. */
  lemma CleanContent(raw: string, i: int, g: int, e: int)
    requires FirstSvgMatch(StripProlog(raw), i, g, e)
    ensures CleanSvgContent(raw).content == Trim(StripProlog(raw)[g + 1..e], PhpSpace)
  {
    SvgInnerIsFirstMatch(StripProlog(raw), i, g, e);
  }

  /** An explicit viewBox is kept byte for byte: the first `viewBox="…"` anywhere in the text. */
  lemma CleanExplicitViewBox(raw: string, i: int, g: int, e: int, a: int, q: int)
    requires FirstSvgMatch(StripProlog(raw), i, g, e)
    requires FirstAttr(StripProlog(raw), "viewBox", a, q)
    ensures CleanSvgContent(raw).viewBox == StripProlog(raw)[a + 9..q]
  {
    SvgInnerIsFirstMatch(StripProlog(raw), i, g, e);
    AttrValueIsFirstMatch(StripProlog(raw), "viewBox", a, q);
  }

  /** Without a viewBox, width and height are taken as written, each defaulting to `24` on its own. */
  lemma CleanSynthesisedViewBox(raw: string, i: int, g: int, e: int)
    requires FirstSvgMatch(StripProlog(raw), i, g, e)
    requires NoAttr(StripProlog(raw), "viewBox")
    ensures var c := StripProlog(raw);
      CleanSvgContent(raw).viewBox
        == "0 0 " + (if NoAttr(c, "width") then "24" else AttrValue(c, "width").value)
        + " " + (if NoAttr(c, "height") then "24" else AttrValue(c, "height").value)
  {
    var c := StripProlog(raw);
    SvgInnerIsFirstMatch(c, i, g, e);
    AttrValueNone(c, "viewBox");
    AttrValueNone(c, "width");
    AttrValueNone(c, "height");
  }

  // -------------------------------------------------------- collectIcons

  /** A file `collectIcons` keeps: extension exactly `svg`, read successfully, truthy content. */
  predicate Kept(f: Located) {
    PhpExtension(f.name) == "svg" && f.content.Some? && Truthy(f.content.value)
  }

  /** The `$icons[$iconId] = $cleanContent` assignments for the kept files among `fs`, in order. */
  function IconPairs(directory: string, fs: seq<Located>): (r: seq<(string, CleanIcon)>)
    decreases |fs|
    ensures |r| <= |fs|
  {
    if fs == [] then []
    else
      var f := fs[|fs| - 1];
      IconPairs(directory, fs[..|fs| - 1]) + if Kept(f) then [IconPair(directory, f)] else []
  }

  /** The id and normalised content of a kept file. */
  function IconPair(directory: string, f: Located): (r: (string, CleanIcon))
    requires Kept(f)
    ensures r.0 == GenerateIconId(Pathname(directory, f), directory)
  {
    (GenerateIconId(Pathname(directory, f), directory), CleanSvgContent(f.content.value))
  }

  /** What the iterator visits below `directory`. */
  function Visited(root: Root, recursive: bool): seq<Located> {
    match root
    case Directory(es) => Files(es, recursive, [])
    case _ => []
  }

  /** What `collectIcons` returns, as the assignments applied from an empty array. */
  function CollectedIcons(directory: string, root: Root, recursive: bool): OMap<CleanIcon> {
    FromPairs(IconPairs(directory, Visited(root, recursive)))
  }

  /** `collectIcons`: a `foreach` over the iterator filling `$icons`. */
  method CollectIcons(directory: string, root: Root, recursive: bool) returns (icons: OMap<CleanIcon>)
    ensures icons == CollectedIcons(directory, root, recursive)
  {
    icons := Empty();
    if !root.Directory? {
      return;
    }
    var files := Visited(root, recursive);
    var i := 0;
    while i < |files|
      invariant 0 <= i <= |files|
      invariant icons == FromPairs(IconPairs(directory, files[..i]))
    {
      var file := files[i];
      IconPairsStep(directory, files, i);
      if PhpExtension(file.name) == "svg" && file.content.Some? {
        var content := file.content.value;
        if Truthy(content) {
          var iconId := GenerateIconId(Pathname(directory, file), directory);
          var cleanContent := CleanSvgContent(content);
          icons := Put(icons, iconId, cleanContent);
        }
      }
      i := i + 1;
    }
    assert files[..i] == files;
  }

  /** One more file of the walk adds its assignment, if it is kept. */
  lemma IconPairsStep(directory: string, fs: seq<Located>, i: nat)
    requires i < |fs|
    ensures FromPairs(IconPairs(directory, fs[..i + 1]))
      == if Kept(fs[i]) then Put(FromPairs(IconPairs(directory, fs[..i])), IconPair(directory, fs[i]).0, IconPair(directory, fs[i]).1)
         else FromPairs(IconPairs(directory, fs[..i]))
  {
    assert fs[..i + 1][..i] == fs[..i];
    var ps := IconPairs(directory, fs[..i]);
    if Kept(fs[i]) {
      assert (ps + [IconPair(directory, fs[i])])[..|ps|] == ps;
    } else {
      assert ps + [] == ps;
    }
  }

  /** A non-directory yields no icons. */
  lemma CollectedFromNonDirectory(directory: string, root: Root, recursive: bool)
    requires !root.Directory?
    ensures CollectedIcons(directory, root, recursive) == Empty()
  {
  }

  /** An id is present exactly when some kept file produces it. */
  lemma {:induction false} CollectedIds(directory: string, root: Root, recursive: bool, id: string)
    ensures id in CollectedIcons(directory, root, recursive).values <==>
      exists f :: f in Visited(root, recursive) && Produces(directory, f, id)
  {
    var fs := Visited(root, recursive);
    FromPairsKeys(IconPairs(directory, fs));
    IconPairsIds(directory, fs, id);
  }

  /** File `f` yields icon `id`. */
  predicate Produces(directory: string, f: Located, id: string) {
    Kept(f) && GenerateIconId(Pathname(directory, f), directory) == id
  }

  /** The keys assigned by a sequence of pairs. */
  function PairKeys<V>(ps: seq<(string, V)>): set<string> {
    set i | 0 <= i < |ps| :: ps[i].0
  }

  lemma PairKeysAppend<V>(ps: seq<(string, V)>, qs: seq<(string, V)>)
    ensures PairKeys(ps + qs) == PairKeys(ps) + PairKeys(qs)
  {
    var r := ps + qs;
    assert forall i :: 0 <= i < |ps| ==> r[i] == ps[i];
    assert forall i :: 0 <= i < |qs| ==> r[|ps| + i] == qs[i];
    forall k | k in PairKeys(r) ensures k in PairKeys(ps) + PairKeys(qs) {
      var i :| 0 <= i < |r| && r[i].0 == k;
      if i >= |ps| { assert qs[i - |ps|].0 == k; }
    }
  }

  /** The ids assigned by `IconPairs` are those of the kept files. */
  lemma {:induction false} IconPairsIds(directory: string, fs: seq<Located>, id: string)
    decreases |fs|
    ensures id in PairKeys(IconPairs(directory, fs)) <==> exists f :: f in fs && Produces(directory, f, id)
  {
    if fs != [] {
      var init := fs[..|fs| - 1];
      var f := fs[|fs| - 1];
      var ps := IconPairs(directory, init);
      var here := if Kept(f) then [IconPair(directory, f)] else [];
      assert id in PairKeys(ps) <==> exists g :: g in init && Produces(directory, g, id) by {
        IconPairsIds(directory, init, id);
      }
      assert PairKeys(IconPairs(directory, fs)) == PairKeys(ps) + PairKeys(here) by {
        assert IconPairs(directory, fs) == ps + here;
        PairKeysAppend(ps, here);
      }
      assert id in PairKeys(here) <==> Produces(directory, f, id) by {
        if Kept(f) {
          assert here[0] == IconPair(directory, f);
          assert PairKeys(here) == {IconPair(directory, f).0};
        } else {
          assert PairKeys(here) == {};
        }
      }
      assert (exists g :: g in fs && Produces(directory, g, id))
        <==> (exists g :: g in init && Produces(directory, g, id)) || Produces(directory, f, id) by {
        SomeProduces(directory, fs, id);
      }
    }
  }

  /** Some file of `fs` produces `id` iff some earlier one does or the last one does. */
  lemma SomeProduces(directory: string, fs: seq<Located>, id: string)
    requires fs != []
    ensures (exists g :: g in fs && Produces(directory, g, id))
      <==> (exists g :: g in fs[..|fs| - 1] && Produces(directory, g, id)) || Produces(directory, fs[|fs| - 1], id)
  {
    var init, f := fs[..|fs| - 1], fs[|fs| - 1];
    assert forall g :: g in fs <==> g in init || g == f by {
      assert fs == init + [f];
    }
  }

  /** For a duplicate id, the last kept file's normalised content is the one kept. */
  lemma {:induction false} CollectedLastWins(directory: string, root: Root, recursive: bool, j: nat)
    requires j < |IconPairs(directory, Visited(root, recursive))|
    requires LastWith(IconPairs(directory, Visited(root, recursive)), j)
    ensures var p := IconPairs(directory, Visited(root, recursive))[j];
      p.0 in CollectedIcons(directory, root, recursive).values
      && CollectedIcons(directory, root, recursive).values[p.0] == p.1
  {
    FromPairsLastWins(IconPairs(directory, Visited(root, recursive)), j);
  }

  // --------------------------------------------------------- buildSprite

  /** The `<symbol>` elements for the first `n` icons, in the icons' order. */
  function SymbolsUpTo(icons: OMap<CleanIcon>, n: nat): seq<string>
    requires n <= |icons.keys|
  {
    if n == 0 then []
    else
      var k := icons.keys[n - 1];
      SymbolsUpTo(icons, n - 1) + [Symbol(k, icons.values[k].viewBox, icons.values[k].content)]
  }

  function Symbols(icons: OMap<CleanIcon>): seq<string> {
    SymbolsUpTo(icons, |icons.keys|)
  }

  /** One symbol per icon, in key order, carrying the icon's id, viewBox and content. */
  lemma {:induction false} SymbolsOfIcons(icons: OMap<CleanIcon>, n: nat)
    requires n <= |icons.keys|
    ensures |SymbolsUpTo(icons, n)| == n
    ensures forall i :: 0 <= i < n ==>
      SymbolsUpTo(icons, n)[i] == Symbol(icons.keys[i], icons.values[icons.keys[i]].viewBox, icons.values[icons.keys[i]].content)
  {
    if n > 0 {
      SymbolsOfIcons(icons, n - 1);
    }
  }

  /** The entries of sprite `sid` in the icon map, or none. */
  function Inner(m: OMap<OMap<IconRef>>, sid: string): OMap<IconRef> {
    if sid in m.values then m.values[sid] else Empty()
  }

  /** The icon-map entries `buildSprite` writes for `icons`: each id with its viewBox and the sprite. */
  function Refs(icons: OMap<CleanIcon>, sid: string): (r: OMap<IconRef>)
    ensures r.keys == icons.keys
    ensures forall k :: k in r.values <==> k in icons.values
    ensures forall k :: k in icons.values ==> r.values[k] == IconRef(icons.values[k].viewBox, sid)
  {
    RawMap(icons.keys, map k | k in icons.values :: IconRef(icons.values[k].viewBox, sid))
  }

  /** `$iconMap` after the first `n` icons of `buildSprite`: one nested assignment per icon. */
  function RegisterUpTo(m: OMap<OMap<IconRef>>, sid: string, icons: OMap<CleanIcon>, n: nat): OMap<OMap<IconRef>>
    requires n <= |icons.keys|
  {
    if n == 0 then m
    else
      var k := icons.keys[n - 1];
      FileIcon(RegisterUpTo(m, sid, icons, n - 1), sid, k, icons.values[k].viewBox)
  }

  /** `$iconMap[$spriteId][$iconId] = ['viewBox' => $viewBox, 'sprite' => $spriteId]`. */
  function FileIcon(m: OMap<OMap<IconRef>>, sid: string, iconId: string, viewBox: string): OMap<OMap<IconRef>> {
    Put(m, sid, Put(Inner(m, sid), iconId, IconRef(viewBox, sid)))
  }

  /**
   * The icon map after `buildSprite` files `icons` under `sid`: the sprite's
   * earlier entries merged with the icons' references, as `array_merge`
   * would; a sprite without icons gets no entry.
   */
  function Register(m: OMap<OMap<IconRef>>, sid: string, icons: OMap<CleanIcon>): (r: OMap<OMap<IconRef>>)
    ensures |icons.keys| == 0 ==> r == m
    ensures r.keys == m.keys + (if sid in m.values || |icons.keys| == 0 then [] else [sid])
    ensures forall s :: s != sid ==> (s in r.values <==> s in m.values)
    ensures forall s :: s != sid && s in m.values ==> r.values[s] == m.values[s]
  {
    if |icons.keys| == 0 then m else Put(m, sid, Merge(Inner(m, sid), Refs(icons, sid)))
  }

  /**
   * After `n > 0` icons the sprite holds its earlier entries with the first
   * `n` references assigned into them, in icon order.
   */
  lemma {:induction false} RegisterUpToPrefix(m: OMap<OMap<IconRef>>, sid: string, icons: OMap<CleanIcon>, n: nat)
    requires 0 < n <= |icons.keys|
    ensures RegisterUpTo(m, sid, icons, n) == Put(m, sid, PutPrefix(Inner(m, sid), Refs(icons, sid), n))
  {
    RefsPrefixStep(Inner(m, sid), sid, icons, n);
    if n > 1 {
      RegisterUpToPrefix(m, sid, icons, n - 1);
      var k := icons.keys[n - 1];
      FileIconOnPut(m, sid, PutPrefix(Inner(m, sid), Refs(icons, sid), n - 1), k, icons.values[k].viewBox);
    }
  }

  /** Assigning one more of the icons' references: the next icon's id with its viewBox. */
  lemma RefsPrefixStep(a: OMap<IconRef>, sid: string, icons: OMap<CleanIcon>, n: nat)
    requires 0 < n <= |icons.keys|
    ensures var k := icons.keys[n - 1];
      PutPrefix(a, Refs(icons, sid), n) == Put(PutPrefix(a, Refs(icons, sid), n - 1), k, IconRef(icons.values[k].viewBox, sid))
  {
    var refs := Refs(icons, sid);
    var k := icons.keys[n - 1];
    assert refs.keys[n - 1] == k;
  }

  /** Filing an icon under a sprite whose entries were just stored assigns into those entries. */
  lemma FileIconOnPut(m: OMap<OMap<IconRef>>, sid: string, x: OMap<IconRef>, iconId: string, viewBox: string)
    ensures FileIcon(Put(m, sid, x), sid, iconId, viewBox) == Put(m, sid, Put(x, iconId, IconRef(viewBox, sid)))
  {
    assert Inner(Put(m, sid, x), sid) == x;
    PutTwice(m, sid, x, Put(x, iconId, IconRef(viewBox, sid)));
  }

  /** Filing every icon one by one is the merge. */
  lemma RegisterComplete(m: OMap<OMap<IconRef>>, sid: string, icons: OMap<CleanIcon>)
    ensures RegisterUpTo(m, sid, icons, |icons.keys|) == Register(m, sid, icons)
  {
    if |icons.keys| > 0 {
      RegisterUpToPrefix(m, sid, icons, |icons.keys|);
      assert |Refs(icons, sid).keys| == |icons.keys|;
      assert Merge(Inner(m, sid), Refs(icons, sid)) == PutPrefix(Inner(m, sid), Refs(icons, sid), |icons.keys|);
    }
  }

  /**
   * A sprite with icons holds its earlier entries overlaid by the icons: each
   * icon id maps to its viewBox and the sprite, and new ids follow in icon order.
   */
  lemma RegisterEntries(m: OMap<OMap<IconRef>>, sid: string, icons: OMap<CleanIcon>)
    requires |icons.keys| > 0
    ensures sid in Register(m, sid, icons).values
    ensures forall k :: k in Register(m, sid, icons).values[sid].values <==> k in Inner(m, sid).values || k in icons.values
    ensures forall k :: k in icons.values ==>
      Register(m, sid, icons).values[sid].values[k] == IconRef(icons.values[k].viewBox, sid)
    ensures forall k :: k in Inner(m, sid).values && k !in icons.values ==>
      Register(m, sid, icons).values[sid].values[k] == Inner(m, sid).values[k]
    ensures Register(m, sid, icons).values[sid].keys == Inner(m, sid).keys + NewKeys(Inner(m, sid).values, icons.keys)
  {
    var merged := Merge(Inner(m, sid), Refs(icons, sid));
    assert Register(m, sid, icons).values[sid] == merged;
  }

  /** A sprite not yet in the map holds exactly its icons, in their order. */
  lemma RegisterFresh(m: OMap<OMap<IconRef>>, sid: string, icons: OMap<CleanIcon>)
    requires |icons.keys| > 0 && sid !in m.values
    ensures sid in Register(m, sid, icons).values
    ensures Register(m, sid, icons).values[sid].keys == icons.keys
    ensures forall k :: k in Register(m, sid, icons).values[sid].values <==> k in icons.values
  {
    RegisterEntries(m, sid, icons);
    assert Inner(m, sid) == Empty();
    NewKeysNone(Inner(m, sid).values, icons.keys);
    assert [] + icons.keys == icons.keys;
  }

  /** Every entry of the icon map names the sprite it is filed under. */
  ghost predicate RefsNameHolder(m: OMap<OMap<IconRef>>) {
    forall s :: s in m.values ==> NameSprite(m.values[s], s)
  }

  /** Every entry of one sprite's icons names that sprite. */
  ghost predicate NameSprite(inner: OMap<IconRef>, s: string) {
    forall id :: id in inner.values ==> inner.values[id].sprite == s
  }

  /** The sprite being filed keeps naming itself. */
  lemma RegisterNamesSprite(m: OMap<OMap<IconRef>>, sid: string, icons: OMap<CleanIcon>)
    requires |icons.keys| > 0 && NameSprite(Inner(m, sid), sid)
    ensures sid in Register(m, sid, icons).values
    ensures NameSprite(Register(m, sid, icons).values[sid], sid)
  {
    RegisterEntries(m, sid, icons);
  }

  /** Registering keeps every entry pointing at its holder. */
  lemma RegisterKeepsHolder(m: OMap<OMap<IconRef>>, sid: string, icons: OMap<CleanIcon>)
    requires RefsNameHolder(m)
    ensures RefsNameHolder(Register(m, sid, icons))
  {
    if |icons.keys| > 0 {
      var r := Register(m, sid, icons);
      assert NameSprite(r.values[sid], sid) by {
        assert NameSprite(Inner(m, sid), sid);
        RegisterNamesSprite(m, sid, icons);
      }
      forall s | s in r.values ensures NameSprite(r.values[s], s) {
        if s != sid {
          assert r.values[s] == m.values[s];
        }
      }
    }
  }

  // ------------------------------------------------------------- getIcon

  /** The markup for an id no sprite holds. */
  function NotFound(iconId: string): string {
    "<!-- Icon '" + iconId + "' not found -->"
  }

  /** `j` is the first position in the sprite order whose sprite holds `iconId`. */
  predicate FirstHolderAt(m: OMap<OMap<IconRef>>, iconId: string, j: int) {
    0 <= j < |m.keys| && iconId in m.values[m.keys[j]].values
    && forall l :: 0 <= l < j ==> iconId !in m.values[m.keys[l]].values
  }

  predicate Held(m: OMap<OMap<IconRef>>, iconId: string) {
    exists s :: s in m.values && iconId in m.values[s].values
  }

  /** The attributes string of a use element: defaults overlaid by the caller's attributes. */
  function UseAttributes(attributes: OMap<string>, esc: string -> string): string {
    Attributes(Merge(DefaultAttributes(), attributes), esc)
  }

  /** With no caller attributes the four defaults are printed in their order. */
  lemma DefaultUseAttributes(esc: string -> string)
    ensures UseAttributes(Empty(), esc)
      == Attribute("class", "icon", esc) + Attribute("width", "24", esc)
       + Attribute("height", "24", esc) + Attribute("aria-hidden", "true", esc)
  {
    MergedAttributes(Empty());
    var a := Merge(DefaultAttributes(), Empty());
    assert NewKeys(DefaultAttributes().values, []) == [];
    assert a.keys == ["class", "width", "height", "aria-hidden"];
    assert a.values == DefaultAttributes().values;
    assert AttributesUpTo(a, esc, 1) == Attribute("class", "icon", esc);
    assert AttributesUpTo(a, esc, 2) == AttributesUpTo(a, esc, 1) + Attribute("width", "24", esc);
    assert AttributesUpTo(a, esc, 3) == AttributesUpTo(a, esc, 2) + Attribute("height", "24", esc);
    assert AttributesUpTo(a, esc, 4) == AttributesUpTo(a, esc, 3) + Attribute("aria-hidden", "true", esc);
  }

  lemma HeldHasFirst(m: OMap<OMap<IconRef>>, iconId: string)
    requires Held(m, iconId)
    ensures exists j :: FirstHolderAt(m, iconId, j)
  {
    var s :| s in m.values && iconId in m.values[s].values;
    var j :| 0 <= j < |m.keys| && m.keys[j] == s;
    var l := 0;
    while l < j && iconId !in m.values[m.keys[l]].values
      invariant 0 <= l <= j
      invariant forall x :: 0 <= x < l ==> iconId !in m.values[m.keys[x]].values
    {
      l := l + 1;
    }
    assert FirstHolderAt(m, iconId, l);
  }

  /**
   * `buildSprite`: one symbol per icon wrapped in the hidden sprite element,
   * and each icon filed under the sprite in the icon map `m0`.
   */
  method AssembleSprite(icons: OMap<CleanIcon>, spriteId: string, m0: OMap<OMap<IconRef>>)
    returns (r: string, m: OMap<OMap<IconRef>>)
    ensures r == SpriteDocument(Symbols(icons))
    ensures m == Register(m0, spriteId, icons)
  {
    var symbols;
    symbols, m := FileIcons(icons, spriteId, m0);
    RegisterComplete(m0, spriteId, icons);
    r := SpriteDocument(symbols);
  }

  /**
   * The `foreach` of `buildSprite`: the symbols in icon order, and the icons
   * filed one nested assignment at a time.
   */
  method FileIcons(icons: OMap<CleanIcon>, spriteId: string, m0: OMap<OMap<IconRef>>)
    returns (symbols: seq<string>, m: OMap<OMap<IconRef>>)
    ensures symbols == Symbols(icons)
    ensures m == RegisterUpTo(m0, spriteId, icons, |icons.keys|)
  {
    symbols := [];
    m := m0;
    var i := 0;
    while i < |icons.keys|
      invariant 0 <= i <= |icons.keys|
      invariant symbols == SymbolsUpTo(icons, i)
      invariant m == RegisterUpTo(m0, spriteId, icons, i)
    {
      var iconId := icons.keys[i];
      var iconData := icons.values[iconId];
      assert SymbolsUpTo(icons, i + 1) == symbols + [Symbol(iconId, iconData.viewBox, iconData.content)] by {
        SymbolsStep(icons, i);
      }
      symbols := symbols + [Symbol(iconId, iconData.viewBox, iconData.content)];
      m := FileIcon(m, spriteId, iconId, iconData.viewBox);
      i := i + 1;
    }
  }

  lemma SymbolsStep(icons: OMap<CleanIcon>, i: nat)
    requires i < |icons.keys|
    ensures SymbolsUpTo(icons, i + 1)
      == SymbolsUpTo(icons, i) + [Symbol(icons.keys[i], icons.values[icons.keys[i]].viewBox, icons.values[icons.keys[i]].content)]
  {
  }

  /** The `foreach` over the sprites of `getIcon`, stopping at the first that holds the id. */
  method FindHolder(m: OMap<OMap<IconRef>>, iconId: string) returns (i: nat)
    ensures i <= |m.keys|
    ensures i == |m.keys| <==> !Held(m, iconId)
    ensures i < |m.keys| ==> FirstHolderAt(m, iconId, i)
    ensures forall j :: FirstHolderAt(m, iconId, j) ==> j == i
  {
    i := 0;
    while i < |m.keys| && iconId !in m.values[m.keys[i]].values
      invariant 0 <= i <= |m.keys|
      invariant forall l :: 0 <= l < i ==> iconId !in m.values[m.keys[l]].values
    {
      i := i + 1;
    }
    if i == |m.keys| {
      forall s | s in m.values ensures iconId !in m.values[s].values {
        var l :| 0 <= l < |m.keys| && m.keys[l] == s;
      }
    } else {
      assert m.keys[i] in m.values;
    }
  }

  // ---------------------------------------------------------- the class

  /** The default configuration of `init`, below the theme's template directory. */
  function DefaultConfig(templateDirectory: string): (r: OMap<SpriteConfig>)
    ensures r.keys == ["icons", "large-icons"]
    ensures r.values["icons"] == SpriteConfig(templateDirectory + "/assets/icons", "icons", true)
    ensures r.values["large-icons"] == SpriteConfig(templateDirectory + "/assets/large-icons", "large-icons", false)
  {
    Put(Put(Empty(), "icons", SpriteConfig(templateDirectory + "/assets/icons", "icons", true)),
      "large-icons", SpriteConfig(templateDirectory + "/assets/large-icons", "large-icons", false))
  }

  /** The icon ids of each sprite, in sprite order (the all-sprites answer of `getAvailableIcons`). */
  predicate IsIdsBySprite(r: OMap<seq<string>>, m: OMap<OMap<IconRef>>) {
    r.keys == m.keys && forall s :: s in r.values ==> s in m.values && r.values[s] == m.values[s].keys
  }

  /** Sprites held for every configuration in order are held for every configuration. */
  lemma ConfigsCovered(merged: OMap<SpriteConfig>, held: map<string, string>)
    requires forall l :: 0 <= l < |Values(merged)| ==> Values(merged)[l].spriteId in held
    ensures forall k :: k in merged.values ==> merged.values[k].spriteId in held
  {
    forall k | k in merged.values ensures merged.values[k].spriteId in held {
      var l :| 0 <= l < |merged.keys| && merged.keys[l] == k;
      assert Values(merged)[l] == merged.values[k];
    }
  }

  /** The two static maps of the class, as a value. */
  datatype SpriteState = SpriteState(sprites: OMap<string>, iconMap: OMap<OMap<IconRef>>)

  /**
   * `generateSprite` on the state: a cached id changes nothing; otherwise the
   * collected icons are built into a document, cached and filed.
   */
  function GenerateOnce(st: SpriteState, c: SpriteConfig, fs: string -> Root): SpriteState {
    if c.spriteId in st.sprites.values then st
    else
      var icons := CollectedIcons(c.directory, fs(c.directory), c.recursive);
      SpriteState(Put(st.sprites, c.spriteId, SpriteDocument(Symbols(icons))), Register(st.iconMap, c.spriteId, icons))
  }

  /** The loop of `init`: `generateSprite` for each configuration in turn. */
  function GenerateAll(st: SpriteState, cs: seq<SpriteConfig>, fs: string -> Root): SpriteState
    decreases |cs|
  {
    if cs == [] then st else GenerateOnce(GenerateAll(st, cs[..|cs| - 1], fs), cs[|cs| - 1], fs)
  }

  /** Only generated sprites have icons. */
  ghost predicate Filed(st: SpriteState) {
    forall s :: s in st.iconMap.values ==> s in st.sprites.values
  }

  /** One more configuration is one more `generateSprite`. */
  lemma GenerateAllSnoc(st: SpriteState, cs: seq<SpriteConfig>, fs: string -> Root, i: nat)
    requires i < |cs|
    ensures GenerateAll(st, cs[..i + 1], fs) == GenerateOnce(GenerateAll(st, cs[..i], fs), cs[i], fs)
  {
    assert cs[..i + 1][..i] == cs[..i];
  }

  /** After the loop, the cached sprites are the earlier ones and those the configurations name; no others. */
  lemma {:induction false} GenerateAllIds(st: SpriteState, cs: seq<SpriteConfig>, fs: string -> Root)
    decreases |cs|
    ensures forall s :: s in GenerateAll(st, cs, fs).sprites.values <==>
      s in st.sprites.values || exists l :: 0 <= l < |cs| && cs[l].spriteId == s
  {
    if cs != [] {
      var init := cs[..|cs| - 1];
      GenerateAllIds(st, init, fs);
      assert forall l :: 0 <= l < |init| ==> init[l] == cs[l];
    }
  }

  /** Sprites cached before the loop keep their documents and their icon entries. */
  lemma {:induction false} GenerateAllKeeps(st: SpriteState, cs: seq<SpriteConfig>, fs: string -> Root, s: string)
    requires s in st.sprites.values
    decreases |cs|
    ensures var r := GenerateAll(st, cs, fs);
      s in r.sprites.values && r.sprites.values[s] == st.sprites.values[s]
      && (s in r.iconMap.values <==> s in st.iconMap.values)
      && (s in st.iconMap.values ==> r.iconMap.values[s] == st.iconMap.values[s])
  {
    if cs != [] {
      GenerateAllKeeps(st, cs[..|cs| - 1], fs, s);
    }
  }

  /** After the loop every configuration's sprite is cached, and the earlier documents are kept. */
  lemma InitCovers(st: SpriteState, cs: seq<SpriteConfig>, fs: string -> Root)
    ensures forall l :: 0 <= l < |cs| ==> cs[l].spriteId in GenerateAll(st, cs, fs).sprites.values
    ensures forall s :: s in st.sprites.values ==>
      s in GenerateAll(st, cs, fs).sprites.values && GenerateAll(st, cs, fs).sprites.values[s] == st.sprites.values[s]
  {
    GenerateAllIds(st, cs, fs);
    forall s | s in st.sprites.values
      ensures s in GenerateAll(st, cs, fs).sprites.values && GenerateAll(st, cs, fs).sprites.values[s] == st.sprites.values[s]
    {
      GenerateAllKeeps(st, cs, fs, s);
    }
  }

  /** At the end of the loop the prefix is the whole sequence, so the state covers every configuration. */
  lemma LoopDone(st: SpriteState, cs: seq<SpriteConfig>, fs: string -> Root, i: nat)
    requires i == |cs|
    ensures GenerateAll(st, cs[..i], fs) == GenerateAll(st, cs, fs)
    ensures forall l :: 0 <= l < |cs| ==> cs[l].spriteId in GenerateAll(st, cs, fs).sprites.values
    ensures forall s :: s in st.sprites.values ==>
      s in GenerateAll(st, cs, fs).sprites.values && GenerateAll(st, cs, fs).sprites.values[s] == st.sprites.values[s]
  {
    assert cs[..i] == cs;
    InitCovers(st, cs, fs);
  }

  /** The loop keeps icons filed only under generated sprites. */
  lemma {:induction false} GenerateAllFiled(st: SpriteState, cs: seq<SpriteConfig>, fs: string -> Root)
    requires Filed(st)
    decreases |cs|
    ensures Filed(GenerateAll(st, cs, fs))
  {
    if cs != [] {
      GenerateAllFiled(st, cs[..|cs| - 1], fs);
    }
  }

  /** A sprite filed while absent holds exactly the references of its icons. */
  lemma RegisterFreshRefs(m: OMap<OMap<IconRef>>, sid: string, icons: OMap<CleanIcon>)
    requires |icons.keys| > 0 && sid !in m.values
    ensures sid in Register(m, sid, icons).values && Register(m, sid, icons).values[sid] == Refs(icons, sid)
  {
    RegisterFresh(m, sid, icons);
    RegisterEntries(m, sid, icons);
    var inner := Register(m, sid, icons).values[sid];
    assert inner.values == Refs(icons, sid).values;
  }

  /**
   * A sprite id not cached before the loop gets the document and the icon
   * entries of the first configuration naming it; later ones find it cached.
   */
  lemma {:induction false} GenerateAllFirst(st: SpriteState, cs: seq<SpriteConfig>, fs: string -> Root, l: nat)
    requires Filed(st) && l < |cs| && cs[l].spriteId !in st.sprites.values
    requires forall k :: 0 <= k < l ==> cs[k].spriteId != cs[l].spriteId
    decreases |cs|
    ensures var r := GenerateAll(st, cs, fs);
      var sid := cs[l].spriteId;
      var icons := CollectedIcons(cs[l].directory, fs(cs[l].directory), cs[l].recursive);
      sid in r.sprites.values && r.sprites.values[sid] == SpriteDocument(Symbols(icons))
      && (sid in r.iconMap.values <==> |icons.keys| > 0)
      && (sid in r.iconMap.values ==> r.iconMap.values[sid] == Refs(icons, sid))
  {
    var init := cs[..|cs| - 1];
    if l == |cs| - 1 {
      GenerateAllIds(st, init, fs);
      assert forall k :: 0 <= k < |init| ==> init[k] == cs[k];
      GenerateAllFiled(st, init, fs);
      GenerateFresh(GenerateAll(st, init, fs), cs[l], fs);
    } else {
      assert init[l] == cs[l];
      GenerateAllFirst(st, init, fs, l);
    }
  }

  /** `generateSprite` of an id neither cached nor filed caches its document and files exactly its icons. */
  lemma GenerateFresh(st: SpriteState, c: SpriteConfig, fs: string -> Root)
    requires c.spriteId !in st.sprites.values && c.spriteId !in st.iconMap.values
    ensures var r := GenerateOnce(st, c, fs);
      var icons := CollectedIcons(c.directory, fs(c.directory), c.recursive);
      c.spriteId in r.sprites.values && r.sprites.values[c.spriteId] == SpriteDocument(Symbols(icons))
      && (c.spriteId in r.iconMap.values <==> |icons.keys| > 0)
      && (c.spriteId in r.iconMap.values ==> r.iconMap.values[c.spriteId] == Refs(icons, c.spriteId))
  {
    var icons := CollectedIcons(c.directory, fs(c.directory), c.recursive);
    if |icons.keys| > 0 {
      RegisterFreshRefs(st.iconMap, c.spriteId, icons);
    }
  }

  class IconSprite {
    /** Generated sprite documents, by sprite id. */
    var sprites: OMap<string>
    /** Sprite id -> icon id -> viewBox and sprite. */
    var iconMap: OMap<OMap<IconRef>>

    /** Only generated sprites have icons, and every icon names its sprite. */
    ghost predicate Valid()
      reads this
    {
      (forall s :: s in iconMap.values ==> s in sprites.values) && RefsNameHolder(iconMap)
    }

    constructor ()
      ensures Valid() && sprites == Empty() && iconMap == Empty()
    {
      sprites := Empty();
      iconMap := Empty();
    }

    /**
     * `generateSprite`: the cached document if there is one, otherwise the
     * built and cached one. The default `$recursive = true` is an explicit
     * argument here.
     */
    method GenerateSprite(directory: string, fs: string -> Root, spriteId: string, recursive: bool) returns (r: string)
      requires Valid()
      modifies this
      ensures Valid()
      ensures spriteId in sprites.values
      ensures forall s :: s in old(sprites.values) ==> s in sprites.values && sprites.values[s] == old(sprites.values[s])
      ensures spriteId in old(sprites.values) ==>
        r == old(sprites.values[spriteId]) && sprites == old(sprites) && iconMap == old(iconMap)
      ensures spriteId !in old(sprites.values) ==>
        var icons := CollectedIcons(directory, fs(directory), recursive);
        r == SpriteDocument(Symbols(icons))
        && sprites == Put(old(sprites), spriteId, r)
        && iconMap == Register(old(iconMap), spriteId, icons)
    {
      if spriteId in sprites.values {
        return sprites.values[spriteId];
      }
      var icons := CollectIcons(directory, fs(directory), recursive);
      r := BuildSprite(icons, spriteId);
      sprites := Put(sprites, spriteId, r);
      RegisterKeepsHolder(old(iconMap), spriteId, icons);
    }

    /** `buildSprite`: the symbols in icon order, each icon filed under the sprite. */
    method BuildSprite(icons: OMap<CleanIcon>, spriteId: string) returns (r: string)
      modifies this
      ensures r == SpriteDocument(Symbols(icons))
      ensures sprites == old(sprites) && iconMap == Register(old(iconMap), spriteId, icons)
    {
      r, iconMap := AssembleSprite(icons, spriteId, iconMap);
    }

    /**
     * `getIcon`: the use element of the first sprite, in the order sprites
     * were built, that holds the id; a comment when none does.
     */
    method GetIcon(iconId: string, attributes: OMap<string>, esc: string -> string) returns (r: string)
      ensures !Held(iconMap, iconId) ==> r == NotFound(iconId)
      ensures forall j :: FirstHolderAt(iconMap, iconId, j) ==>
        r == UseElement(UseAttributes(attributes, esc), iconMap.values[iconMap.keys[j]].values[iconId].viewBox, iconId)
    {
      var holder := FindHolder(iconMap, iconId);
      if holder == |iconMap.keys| {
        return NotFound(iconId);
      }
      var iconData := iconMap.values[iconMap.keys[holder]].values[iconId];
      var attributeString := AttributeString(Merge(DefaultAttributes(), attributes), esc);
      r := UseElement(attributeString, iconData.viewBox, iconId);
    }

    /**
     * `getAvailableIcons`: for a truthy sprite id, that sprite's icon ids (none
     * if it is unknown); otherwise the ids of every sprite, by sprite.
     */
    method GetAvailableIcons(spriteId: Option<string>) returns (r: Available)
      ensures spriteId.Some? && Truthy(spriteId.value) ==>
        r == Ids(if spriteId.value in iconMap.values then iconMap.values[spriteId.value].keys else [])
      ensures !(spriteId.Some? && Truthy(spriteId.value)) ==> r.BySprite? && IsIdsBySprite(r.bySprite, iconMap)
    {
      if spriteId.Some? && Truthy(spriteId.value) {
        return Ids(if spriteId.value in iconMap.values then iconMap.values[spriteId.value].keys else []);
      }
      var allIcons: OMap<seq<string>> := Empty();
      var i := 0;
      while i < |iconMap.keys|
        invariant 0 <= i <= |iconMap.keys|
        invariant allIcons.keys == iconMap.keys[..i]
        invariant forall s :: s in allIcons.values ==> s in iconMap.values && allIcons.values[s] == iconMap.values[s].keys
      {
        var sprite := iconMap.keys[i];
        assert sprite !in iconMap.keys[..i] by {
          forall l | 0 <= l < i ensures iconMap.keys[l] != sprite { DistinctAt(iconMap.keys, l, i); }
        }
        allIcons := Put(allIcons, sprite, iconMap.values[sprite].keys);
        assert iconMap.keys[..i + 1] == iconMap.keys[..i] + [sprite];
        i := i + 1;
      }
      assert iconMap.keys[..i] == iconMap.keys;
      return BySprite(allIcons);
    }

    /**
     * `init`: generates every sprite of the defaults overlaid by `config`, in
     * the merged order. Sprites already generated keep their documents.
     */
    method Init(templateDirectory: string, config: OMap<SpriteConfig>, fs: string -> Root)
      requires Valid()
      modifies this
      ensures Valid()
      ensures SpriteState(sprites, iconMap) ==
        GenerateAll(SpriteState(old(sprites), old(iconMap)), Values(Merge(DefaultConfig(templateDirectory), config)), fs)
      ensures forall k :: k in Merge(DefaultConfig(templateDirectory), config).values ==>
        Merge(DefaultConfig(templateDirectory), config).values[k].spriteId in sprites.values
      ensures forall s :: s in old(sprites.values) ==> s in sprites.values && sprites.values[s] == old(sprites.values[s])
    {
      var merged := Merge(DefaultConfig(templateDirectory), config);
      var configs := Values(merged);
      ghost var start := SpriteState(sprites, iconMap);
      var i := 0;
      while i < |configs|
        invariant 0 <= i <= |configs|
        invariant Valid()
        invariant SpriteState(sprites, iconMap) == GenerateAll(start, configs[..i], fs)
      {
        GenerateAllSnoc(start, configs, fs, i);
        var _ := GenerateSprite(configs[i].directory, fs, configs[i].spriteId, configs[i].recursive);
        i := i + 1;
      }
      LoopDone(start, configs, fs, i);
      ConfigsCovered(merged, sprites.values);
    }

    /** `outputSprites`: every cached document, in the order they were generated. */
    method OutputSprites() returns (out: string)
      ensures out == Concat(Values(sprites))
    {
      out := "";
      var i := 0;
      while i < |sprites.keys|
        invariant 0 <= i <= |sprites.keys|
        invariant out == Concat(Values(sprites)[..i])
      {
        assert Values(sprites)[..i + 1][..i] == Values(sprites)[..i];
        out := out + sprites.values[sprites.keys[i]];
        i := i + 1;
      }
      assert Values(sprites)[..i] == Values(sprites);
    }
  }
}
