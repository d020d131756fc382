/**
 * The manifest-backed template helpers of inc/iconSprite.php: the memoised
 * manifest loader, `get_icon`, `get_available_icons`, the Twig `icon`
 * function and `get_icon_sized`.
 *
 * The manifest is the decoded JSON object: top-level keys (only `icons` is
 * ever consulted) map icon ids to a field object (`viewBox`, `sprite`,
 * `source`). The PHP null a decoded `null` document yields is `None`.
 */
module ManifestHelpers {
  import opened Wrappers
  import opened OrderedMap
  import opened Markup

  /** One icon's field object: field name to string value. */
  type IconFields = OMap<string>

  /** A decoded manifest: top-level key to an icon table (icon id to fields). */
  type Manifest = OMap<OMap<IconFields>>

  /** What `file_exists`, `file_get_contents` and `json_decode` make of the manifest file. */
  datatype ManifestFile =
    | Absent                          // no file at the manifest path
    | Malformed                       // the text is not JSON (`json_last_error()` is set)
    | Decoded(value: Option<Manifest>) // the decoded document; `None` for the JSON literal `null`

  /** `['icons' => []]`, what a missing or undecodable manifest becomes. */
  function Fallback(): (r: Manifest)
    ensures r.keys == ["icons"] && r.values == map["icons" := Empty()]
  {
    var table: OMap<IconFields> := Empty();
    var values: map<string, OMap<IconFields>> := map["icons" := table];
    RawMap(["icons"], values)
  }

  /** What one pass through the loading branch of `get_icon_manifest` stores. */
  function Loaded(file: ManifestFile): (r: Option<Manifest>)
    ensures file.Decoded? ==> r == file.value
    ensures !file.Decoded? ==> r == Some(Fallback())
  {
    match file
    case Decoded(v) => v
    case _ => Some(Fallback())
  }

  /** `$manifest['icons']`, with a missing key or a null manifest read as the empty table. */
  function IconsOf(m: Option<Manifest>): (r: OMap<IconFields>)
    ensures m.Some? && "icons" in m.value.values ==> r == m.value.values["icons"]
    ensures m.None? || "icons" !in m.value.values ==> r.keys == [] && r.values == map[]
  {
    if m.Some? && "icons" in m.value.values then m.value.values["icons"] else Empty()
  }

  /** `isset($manifest['icons'])`. */
  predicate HasIcons(m: Option<Manifest>) {
    m.Some? && "icons" in m.value.values
  }

  /** `$iconData['viewBox']`; a missing field prints as the empty string. */
  function ViewBoxField(fields: IconFields): string {
    if "viewBox" in fields.values then fields.values["viewBox"] else ""
  }

  /** What `get_icon` returns for the manifest `m`. */
  function IconMarkup(m: Option<Manifest>, iconId: string, attrs: OMap<string>, esc: string -> string): string {
    var icons := IconsOf(m);
    if |icons.keys| == 0 || iconId !in icons.values then ""
    else UseElement(Attributes(Merge(DefaultAttributes(), attrs), esc), ViewBoxField(icons.values[iconId]), iconId)
  }

  /** `get_icon` is empty exactly when the `icons` table lacks the id. */
  lemma IconMarkupEmptyIff(m: Option<Manifest>, iconId: string, attrs: OMap<string>, esc: string -> string)
    ensures IconMarkup(m, iconId, attrs, esc) == "" <==> iconId !in IconsOf(m).values
  {
    if iconId in IconsOf(m).values {
      assert |IconsOf(m).keys| != 0 by {
        assert iconId in IconsOf(m).keys;
      }
      assert IconMarkup(m, iconId, attrs, esc)[0] == '<';
    }
  }

  /**
   * On a hit the element prints the four defaults first, in their order,
   * then the caller's extra keys, with caller values winning.
   */
  lemma IconMarkupHit(m: Option<Manifest>, iconId: string, attrs: OMap<string>, esc: string -> string)
    requires iconId in IconsOf(m).values
    ensures IconMarkup(m, iconId, attrs, esc)
      == "<svg" + Attributes(Merge(DefaultAttributes(), attrs), esc) + " viewBox=\""
         + ViewBoxField(IconsOf(m).values[iconId]) + "\"><use href=\"#" + iconId + "\"></use></svg>"
    ensures Merge(DefaultAttributes(), attrs).keys
      == ["class", "width", "height", "aria-hidden"] + NewKeys(DefaultAttributes().values, attrs.keys)
    ensures forall k :: k in attrs.values ==> Merge(DefaultAttributes(), attrs).values[k] == attrs.values[k]
  {
    assert iconId in IconsOf(m).keys;
    MergedAttributes(attrs);
  }

  /** Only the `icons` key of the manifest is consulted. */
  lemma IconMarkupOnlyIcons(m: Manifest, key: string, table: OMap<IconFields>, iconId: string,
                            attrs: OMap<string>, esc: string -> string)
    requires key != "icons"
    ensures IconMarkup(Some(Put(m, key, table)), iconId, attrs, esc) == IconMarkup(Some(m), iconId, attrs, esc)
  {
    assert IconsOf(Some(Put(m, key, table))) == IconsOf(Some(m));
  }

  // ---- get_available_icons ----

  /** `isset($iconData['sprite']) && $iconData['sprite'] === $spriteId`. */
  predicate InSprite(fields: IconFields, spriteId: string) {
    "sprite" in fields.values && fields.values["sprite"] == spriteId
  }

  /** The filtered ids among the first `n` keys of `icons`, in key order. */
  function FilteredUpTo(icons: OMap<IconFields>, spriteId: string, n: nat): seq<string>
    requires n <= |icons.keys|
  {
    if n == 0 then []
    else
      var id := icons.keys[n - 1];
      FilteredUpTo(icons, spriteId, n - 1) + (if InSprite(icons.values[id], spriteId) then [id] else [])
  }

  /** What `get_available_icons` returns for the manifest `m`. */
  function AvailableIcons(m: Option<Manifest>, spriteId: Option<string>): seq<string> {
    if !HasIcons(m) then []
    else if spriteId.None? then IconsOf(m).keys
    else FilteredUpTo(IconsOf(m), spriteId.value, |IconsOf(m).keys|)
  }

  /** The position of `k` in the distinct key list `ks`. */
  function IndexIn(ks: seq<string>, k: string): (i: nat)
    requires k in ks
    ensures i < |ks| && ks[i] == k
  {
    if ks[0] == k then 0 else 1 + IndexIn(ks[1..], k)
  }

  /** In a distinct key list the position of `ks[i]` is `i`. */
  lemma IndexInDistinct(ks: seq<string>, i: nat)
    requires Distinct(ks) && i < |ks|
    ensures IndexIn(ks, ks[i]) == i
  {
    var j := IndexIn(ks, ks[i]);
    if j != i {
      DistinctAt(ks, i, j);
    }
  }

  /** The filter keeps exactly the ids whose `sprite` field equals the id asked for. */
  lemma {:induction false} FilteredMembers(icons: OMap<IconFields>, spriteId: string, n: nat)
    requires n <= |icons.keys|
    ensures forall k :: k in FilteredUpTo(icons, spriteId, n) <==>
      k in icons.keys[..n] && InSprite(icons.values[k], spriteId)
  {
    if n > 0 {
      FilteredMembers(icons, spriteId, n - 1);
      TakeSnoc(icons.keys, n);
    }
  }

  /** When no entry names the sprite asked for, the filter keeps nothing. */
  lemma {:induction false} FilteredNone(icons: OMap<IconFields>, spriteId: string, n: nat)
    requires n <= |icons.keys|
    requires forall k :: k in icons.values ==> !InSprite(icons.values[k], spriteId)
    ensures FilteredUpTo(icons, spriteId, n) == []
  {
    if n > 0 {
      FilteredNone(icons, spriteId, n - 1);
    }
  }

  /** The kept ids appear in manifest order: their positions in the key list strictly increase. */
  lemma {:induction false} FilteredOrdered(icons: OMap<IconFields>, spriteId: string, n: nat)
    requires n <= |icons.keys|
    ensures forall k :: k in FilteredUpTo(icons, spriteId, n) ==> k in icons.keys
    ensures forall k :: k in FilteredUpTo(icons, spriteId, n) ==> IndexIn(icons.keys, k) < n
    ensures forall i, j :: 0 <= i < j < |FilteredUpTo(icons, spriteId, n)| ==>
      IndexIn(icons.keys, FilteredUpTo(icons, spriteId, n)[i]) < IndexIn(icons.keys, FilteredUpTo(icons, spriteId, n)[j])
  {
    if n > 0 {
      FilteredOrdered(icons, spriteId, n - 1);
      IndexInDistinct(icons.keys, n - 1);
    }
  }

  /** With an `icons` table and a sprite id: exactly the matching ids, once each, in order. */
  lemma AvailableBySprite(m: Option<Manifest>, spriteId: string)
    requires HasIcons(m)
    ensures forall k :: k in AvailableIcons(m, Some(spriteId)) <==>
      k in IconsOf(m).values && InSprite(IconsOf(m).values[k], spriteId)
    ensures Distinct(AvailableIcons(m, Some(spriteId)))
    ensures forall k :: k in AvailableIcons(m, Some(spriteId)) ==> k in IconsOf(m).keys
    ensures forall i, j :: 0 <= i < j < |AvailableIcons(m, Some(spriteId))| ==>
      IndexIn(IconsOf(m).keys, AvailableIcons(m, Some(spriteId))[i])
        < IndexIn(IconsOf(m).keys, AvailableIcons(m, Some(spriteId))[j])
  {
    var icons := IconsOf(m);
    var r := AvailableIcons(m, Some(spriteId));
    FilteredMembers(icons, spriteId, |icons.keys|);
    FilteredOrdered(icons, spriteId, |icons.keys|);
    assert icons.keys[..|icons.keys|] == icons.keys;
    forall i, j | 0 <= i < j < |r| ensures r[i] != r[j] {
      assert IndexIn(icons.keys, r[i]) < IndexIn(icons.keys, r[j]);
    }
    DistinctMeaning(r);
  }

  // ---- the Twig `icon` function ----

  /** The second argument of the Twig `icon` function: a size token or a legacy attribute array. */
  datatype SizeArg = SizeToken(name: string) | SizeArray(attrs: OMap<string>)

  /** The size token after the legacy-array shortcut. */
  function TwigSize(size: SizeArg): string {
    match size
    case SizeToken(name) => name
    case SizeArray(_) => "medium"
  }

  /** The caller attributes after the legacy-array shortcut. */
  function TwigCaller(size: SizeArg, attrs: OMap<string>): OMap<string> {
    match size
    case SizeToken(_) => attrs
    case SizeArray(a) => a
  }

  /** The side length the `switch` gives a size token. */
  function SizeSide(size: string): string {
    if size == "small" then "20" else if size == "large" then "32" else "24"
  }

  /** `$sizeAttributes`: `width` and `height` both set to the token's side. */
  function SizeAttributes(size: string): (r: OMap<string>)
    ensures r.keys == ["width", "height"]
    ensures r.values == map["width" := SizeSide(size), "height" := SizeSide(size)]
  {
    RawMap(["width", "height"], map["width" := SizeSide(size), "height" := SizeSide(size)])
  }

  /** `array_merge($sizeAttributes, $attributes)`, the attributes handed to `get_icon`. */
  function TwigAttributes(size: SizeArg, attrs: OMap<string>): OMap<string> {
    Merge(SizeAttributes(TwigSize(size)), TwigCaller(size, attrs))
  }

  /** An array second argument means size `medium` with that array as the attributes. */
  lemma TwigLegacyArray(a: OMap<string>, ignored: OMap<string>)
    ensures TwigAttributes(SizeArray(a), ignored) == TwigAttributes(SizeToken("medium"), a)
  {
  }

  /** Only `small` and `large` change the side; medium and every other token give 24. */
  lemma SizeMapping(size: string)
    ensures SizeSide(size) == "20" <==> size == "small"
    ensures SizeSide(size) == "32" <==> size == "large"
    ensures SizeSide(size) == "24" <==> size != "small" && size != "large"
  {
  }

  /** A default key after `array_merge($defaultAttributes, $t)`: the caller's value, else the default. */
  lemma DefaultValue(t: OMap<string>, k: string)
    requires k in DefaultAttributes().values
    ensures Merge(DefaultAttributes(), t).values[k]
      == if k in t.values then t.values[k] else DefaultAttributes().values[k]
  {
  }

  /** A side after `array_merge($sizeAttributes, $a)`: the caller's value, else the token's side. */
  lemma SideValue(token: string, a: OMap<string>, k: string)
    requires k == "width" || k == "height"
    ensures k in Merge(SizeAttributes(token), a).values
    ensures Merge(SizeAttributes(token), a).values[k] == if k in a.values then a.values[k] else SizeSide(token)
  {
  }

  /** `class` is not a size key, so it survives the size merge as the caller gave it. */
  lemma ClassAfterSize(token: string, a: OMap<string>)
    ensures "class" in Merge(SizeAttributes(token), a).values <==> "class" in a.values
    ensures "class" in a.values ==> Merge(SizeAttributes(token), a).values["class"] == a.values["class"]
  {
    assert "class" !in SizeAttributes(token).values by {
      assert "class"[0] != "width"[0] && "class"[0] != "height"[0];
    }
  }

  /** The Twig attributes as `get_icon` finally merges them over its defaults. */
  function Rendered(token: string, a: OMap<string>): OMap<string> {
    Merge(DefaultAttributes(), Merge(SizeAttributes(token), a))
  }

  /** The four default keys still come first, in their order, whatever the caller passes. */
  lemma TwigRenderedOrder(token: string, a: OMap<string>)
    ensures |Rendered(token, a).keys| >= 4
    ensures Rendered(token, a).keys[..4] == ["class", "width", "height", "aria-hidden"]
  {
    MergedAttributes(Merge(SizeAttributes(token), a));
  }

  /** A side prints the caller's value, else the size token's, never the default's. */
  lemma TwigRenderedSide(token: string, a: OMap<string>, k: string)
    requires k == "width" || k == "height"
    ensures k in Rendered(token, a).values
    ensures Rendered(token, a).values[k] == if k in a.values then a.values[k] else SizeSide(token)
  {
    SideValue(token, a, k);
    DefaultValue(Merge(SizeAttributes(token), a), k);
  }

  /** The class prints the caller's value, else the default `icon`. */
  lemma TwigRenderedClass(token: string, a: OMap<string>)
    ensures "class" in Rendered(token, a).values
    ensures Rendered(token, a).values["class"] == if "class" in a.values then a.values["class"] else "icon"
  {
    ClassAfterSize(token, a);
    DefaultValue(Merge(SizeAttributes(token), a), "class");
  }

  /** Every attribute the caller passes is printed with the caller's value. */
  lemma TwigCallerWins(token: string, a: OMap<string>)
    ensures forall k :: k in a.values ==> k in Rendered(token, a).values && Rendered(token, a).values[k] == a.values[k]
  {
  }

  // ---- get_icon_sized ----

  /** `$sizeClasses[$size]`, when set. */
  function SizeClass(size: string): Option<string> {
    if size == "small" || size == "medium" || size == "large" || size == "xl" then Some("icon--" + size)
    else None
  }

  /** The class `get_icon_sized` builds: the caller's class (or `icon`), plus the size class when known. */
  function SizedClass(size: string, attrs: OMap<string>): string {
    var base := if "class" in attrs.values then attrs.values["class"] else "icon";
    match SizeClass(size)
    case Some(c) => base + " " + c
    case None => base
  }

  /** `$attributes['class'] = $class`. */
  function SizedAttributes(size: string, attrs: OMap<string>): OMap<string> {
    Put(attrs, "class", SizedClass(size, attrs))
  }

  /**
   * The class grows by ` icon--SIZE` exactly for the four named sizes; every
   * other key is untouched and a new `class` key goes last.
   */
  lemma SizedClassShape(size: string, attrs: OMap<string>)
    ensures var base := if "class" in attrs.values then attrs.values["class"] else "icon";
      && (size in ["small", "medium", "large", "xl"] ==> SizedClass(size, attrs) == base + " icon--" + size)
      && (size !in ["small", "medium", "large", "xl"] ==> SizedClass(size, attrs) == base)
    ensures SizedAttributes(size, attrs).values == attrs.values["class" := SizedClass(size, attrs)]
    ensures "class" in attrs.values ==> SizedAttributes(size, attrs).keys == attrs.keys
    ensures "class" !in attrs.values ==> SizedAttributes(size, attrs).keys == attrs.keys + ["class"]
  {
    var base := if "class" in attrs.values then attrs.values["class"] else "icon";
    if size in ["small", "medium", "large", "xl"] {
      assert base + " " + ("icon--" + size) == base + " icon--" + size;
    }
  }

  // ---- the memoised manifest and the helpers that read it ----

  /** The `static $manifest` of `get_icon_manifest`, and the helpers that go through it. */
  class ManifestCache {
    /** The memoised manifest; `None` is PHP null, which the next call loads again. */
    var manifest: Option<Manifest>
    /** How many times the file has been read, for the load-at-most-once property. */
    ghost var loads: nat

    /** The cache after a `get_icon_manifest` call that started from `before`. */
    ghost predicate Memoised(before: Option<Manifest>, loadsBefore: nat, file: ManifestFile)
      reads this
    {
      if before.Some? then manifest == before && loads == loadsBefore
      else manifest == Loaded(file) && loads == loadsBefore + 1
    }

    constructor()
      ensures manifest == None && loads == 0
    {
      manifest := None;
      loads := 0;
    }

    /**
     * `get_icon_manifest`: read the file only while nothing is memoised; a
     * missing file or a decoding error memoises the fallback.
     */
    method GetIconManifest(file: ManifestFile) returns (m: Option<Manifest>)
      modifies this
      ensures Memoised(old(manifest), old(loads), file)
      ensures m == manifest
    {
      if manifest.None? {
        match file {
          case Absent => manifest := Some(Fallback());
          case Malformed => manifest := Some(Fallback());
          case Decoded(v) => manifest := v;
        }
        loads := loads + 1;
      }
      m := manifest;
    }

    /** `get_icon`. */
    method GetIcon(file: ManifestFile, iconId: string, attrs: OMap<string>, esc: string -> string)
      returns (r: string)
      modifies this
      ensures Memoised(old(manifest), old(loads), file)
      ensures r == IconMarkup(manifest, iconId, attrs, esc)
    {
      var m := GetIconManifest(file);
      var icons := IconsOf(m);
      if |icons.keys| == 0 || iconId !in icons.values {
        return "";
      }
      var iconData := icons.values[iconId];
      var attributeString := AttributeString(Merge(DefaultAttributes(), attrs), esc);
      r := UseElement(attributeString, ViewBoxField(iconData), iconId);
    }

    /** `get_available_icons`. */
    method GetAvailableIcons(file: ManifestFile, spriteId: Option<string>) returns (ids: seq<string>)
      modifies this
      ensures Memoised(old(manifest), old(loads), file)
      ensures ids == AvailableIcons(manifest, spriteId)
    {
      var m := GetIconManifest(file);
      if !HasIcons(m) {
        return [];
      }
      var icons := IconsOf(m);
      if spriteId.None? {
        return icons.keys;
      }
      ids := [];
      var n := 0;
      while n < |icons.keys|
        invariant 0 <= n <= |icons.keys|
        invariant ids == FilteredUpTo(icons, spriteId.value, n)
      {
        var id := icons.keys[n];
        if InSprite(icons.values[id], spriteId.value) {
          ids := ids + [id];
        }
        n := n + 1;
      }
    }

    /**
     * The Twig `icon` function. Its defaults `$size = 'medium'` and
     * `$attributes = []` are explicit arguments here: pass `SizeToken("medium")`
     * and `Empty()`.
     */
    method TwigIcon(file: ManifestFile, iconId: string, size: SizeArg, attrs: OMap<string>, esc: string -> string)
      returns (r: string)
      modifies this
      ensures Memoised(old(manifest), old(loads), file)
      ensures r == IconMarkup(manifest, iconId, TwigAttributes(size, attrs), esc)
    {
      r := GetIcon(file, iconId, TwigAttributes(size, attrs), esc);
    }

    /**
     * `get_icon_sized`. Its defaults `$size = 'medium'` and `$attributes = []`
     * are explicit arguments here.
     */
    method GetIconSized(file: ManifestFile, iconId: string, size: string, attrs: OMap<string>, esc: string -> string)
      returns (r: string)
      modifies this
      ensures Memoised(old(manifest), old(loads), file)
      ensures r == IconMarkup(manifest, iconId, SizedAttributes(size, attrs), esc)
    {
      r := GetIcon(file, iconId, SizedAttributes(size, attrs), esc);
    }
  }

  /** Once something is memoised, later calls return it and never read the file again. */
  method LoadsOnce(cache: ManifestCache, first: ManifestFile, second: ManifestFile)
    returns (a: Option<Manifest>, b: Option<Manifest>)
    requires cache.manifest.None? && cache.loads == 0
    modifies cache
    ensures a == Loaded(first)
    ensures a.Some? ==> b == a && cache.loads == 1
    ensures a.None? ==> b == Loaded(second) && cache.loads == 2
  {
    a := cache.GetIconManifest(first);
    b := cache.GetIconManifest(second);
  }
}
