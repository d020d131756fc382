/**
 * How the three implementations of the icon pipeline relate: the runtime
 * repository (lib/Utils/IconSprite.php), the build script
 * (scripts/build-icons.js) and the manifest helpers (inc/iconSprite.php).
 * Where they agree this is proved for all inputs under the stated
 * condition; where they differ the lemma states both results.
 */
module Agreement {
  import opened Wrappers
  import opened Text
  import opened OrderedMap
  import opened FileTree
  import opened SvgScan
  import opened JsNumber
  import R = RuntimeSprite
  import B = BuildIcons
  import H = ManifestHelpers

  // ------------------------------------------------------------ icon ids

  lemma SvgUnbordered()
    ensures Unbordered(".svg")
  {
    forall k | 0 < k < 4 ensures ".svg"[..k] != ".svg"[4 - k..] {
      assert ".svg"[..k][0] == '.' && ".svg"[4 - k..][0] != '.';
    }
  }

  /** Deleting `.svg` from `-`-joined parts that do not contain it changes nothing. */
  lemma {:induction false} JoinWithoutSvg(parts: seq<string>)
    requires forall i :: 0 <= i < |parts| ==> !Occurs(parts[i], ".svg")
    ensures ReplaceAll(Join(parts, "-"), ".svg", "") == Join(parts, "-")
    decreases |parts|
  {
    if |parts| == 1 {
      ReplaceAllAbsent(parts[0], ".svg", "");
    } else if |parts| > 1 {
      var init := parts[..|parts| - 1];
      var last := parts[|parts| - 1];
      JoinWithoutSvg(init);
      ReplaceAllAbsent(last, ".svg", "");
      assert Join(parts, "-") == Join(init, "-") + ['-'] + last;
      ReplaceAllSplit(Join(init, "-"), '-', last, ".svg", "");
    }
  }

  /** Deleting `.svg` from a name whose only `.svg` is its suffix leaves the stem. */
  lemma StemBySvgDeletion(name: string)
    requires JsExtname(name) == ".svg" && !Occurs(B.Stem(name), ".svg")
    ensures ReplaceAll(name, ".svg", "") == B.Stem(name)
  {
    JsExtnameSvg(name);
    SvgUnbordered();
    assert name == B.Stem(name) + ".svg";
    ReplaceAllTrailing(B.Stem(name), ".svg", "");
  }

  /**
   * Both id rules give the same id when no directory name and no stem
   * contains `.svg`: PHP deletes every `.svg`, JS only the basename suffix.
   */
  lemma IdsAgree(base: string, dirs: seq<string>, name: string, content: Option<string>)
    requires NameOk(name) && forall d :: d in dirs ==> NameOk(d) && !Occurs(d, ".svg")
    requires JsExtname(name) == ".svg" && !Occurs(B.Stem(name), ".svg")
    requires R.IteratorPath(base) == base && !Occurs(Join(dirs + [name], "/"), base + "/")
    ensures R.GenerateIconId(R.Pathname(base, Located(dirs, name, content)), base) == B.JsIconId(dirs, name)
  {
    R.IconIdOfFile(base, Located(dirs, name, content));
    StemBySvgDeletion(name);
    B.JsIconIdShape(dirs, name);
    if dirs == [] {
      assert dirs + [name] == [name];
    } else {
      JoinSnoc(dirs, name, "-");
      assert forall i :: 0 <= i < |dirs| ==> !Occurs(dirs[i], ".svg") by {
        forall i | 0 <= i < |dirs| ensures !Occurs(dirs[i], ".svg") {
          assert dirs[i] in dirs;
        }
      }
      JoinWithoutSvg(dirs);
      assert Join(dirs + [name], "-") == Join(dirs, "-") + ['-'] + name;
      ReplaceAllSplit(Join(dirs, "-"), '-', name, ".svg", "");
    }
  }

  /**
   * A directory given with a trailing `/`: the iterator drops it, so
   * `BASE/` never matches and PHP keeps the base in the id; JS does not.
   */
  lemma TrailingSlashDiverges()
    ensures R.GenerateIconId(R.Pathname("/t/icons/", Located([], "a.svg", None)), "/t/icons/") == "-t-icons-a"
    ensures JsExtname("a.svg") == ".svg" && B.JsIconId([], "a.svg") == "a"
  {
    var p := R.Pathname("/t/icons/", Located([], "a.svg", None));
    SlashedPathname();
    SlashedBaseAbsent();
    SlashesToDashes();
    SvgSuffixDropped();
    var relative := ReplaceAll(p, "/t/icons/" + "/", "");
    assert "/t/icons/" + "/" == "/t/icons//";
    assert relative == "/t/icons/a.svg";
    assert ReplaceAll(relative, "/", "-") == "-t-icons-a.svg";
    JsExtnameSvg("a.svg");
    B.JsIconIdShape([], "a.svg");
  }

  lemma SlashedPathname()
    ensures R.Pathname("/t/icons/", Located([], "a.svg", None)) == "/t/icons/a.svg"
  {
    assert [] + ["a.svg"] == ["a.svg"];
    assert R.IteratorPath("/t/icons/") == "/t/icons";
  }

  lemma SlashedBaseAbsent()
    ensures ReplaceAll("/t/icons/a.svg", "/t/icons//", "") == "/t/icons/a.svg"
  {
    var p := "/t/icons/a.svg";
    assert !Occurs(p, "/t/icons//") by {
      forall i | 0 <= i <= |p| - 10 ensures !OccursAt(p, "/t/icons//", i) {
        assert p[i + 9] != '/';
        assert p[i..i + 10][9] == p[i + 9];
      }
    }
    ReplaceAllAbsent(p, "/t/icons//", "");
  }

  lemma JoinedFour(sep: string)
    ensures Join(["", "t", "icons", "a.svg"], sep) == sep + "t" + sep + "icons" + sep + "a.svg"
  {
    assert [""] + ["t"] == ["", "t"] && ["", "t"] + ["icons"] == ["", "t", "icons"];
    assert ["", "t", "icons"] + ["a.svg"] == ["", "t", "icons", "a.svg"];
    JoinSnoc([""], "t", sep);
    JoinSnoc(["", "t"], "icons", sep);
    JoinSnoc(["", "t", "icons"], "a.svg", sep);
  }

  lemma SlashesToDashes()
    ensures ReplaceAll("/t/icons/a.svg", "/", "-") == "-t-icons-a.svg"
  {
    var parts := ["", "t", "icons", "a.svg"];
    JoinedFour("/");
    JoinedFour("-");
    assert "/" + "t" + "/" + "icons" + "/" + "a.svg" == "/t/icons/a.svg";
    assert "-" + "t" + "-" + "icons" + "-" + "a.svg" == "-t-icons-a.svg";
    assert forall i :: 0 <= i < |parts| ==> '/' !in parts[i];
    JoinReplaceSeparator(parts);
  }

  lemma SvgSuffixDropped()
    ensures ReplaceAll("-t-icons-a.svg", ".svg", "") == "-t-icons-a"
  {
    var stem := "-t-icons-a";
    assert !Occurs(stem, ".svg") by {
      forall i | 0 <= i <= |stem| - 4 ensures !OccursAt(stem, ".svg", i) {
        assert stem[i] != '.';
        assert stem[i..i + 4][0] == stem[i];
      }
    }
    SvgUnbordered();
    assert stem + ".svg" == "-t-icons-a.svg";
    ReplaceAllTrailing(stem, ".svg", "");
  }

  /** `x.svg.svg`: PHP deletes both `.svg`s, JS strips only the last. */
  lemma IdsDivergeOnRepeatedSuffix()
    ensures ReplaceAll(Join([] + ["x.svg.svg"], "-"), ".svg", "") == "x"
    ensures JsExtname("x.svg.svg") == ".svg" && B.JsIconId([], "x.svg.svg") == "x.svg"
  {
    assert [] + ["x.svg.svg"] == ["x.svg.svg"];
    var s := "x.svg.svg";
    assert ReplaceAll(s[5..], ".svg", "") == "" by {
      assert s[5..] == ".svg" + "";
      ReplaceAllLeading(".svg", "", "");
    }
    assert ReplaceAll(s[1..], ".svg", "") == "" by {
      assert s[1..] == ".svg" + s[5..];
      ReplaceAllLeading(".svg", s[5..], "");
    }
    assert s[..4][0] != ".svg"[0];
    JsExtnameSvg(s);
    B.JsIconIdShape([], s);
  }

  // ----------------------------------------------------------- viewBoxes

  /** With a sprite region and an explicit viewBox both normalisers keep the same viewBox. */
  lemma ExplicitViewBoxAgrees(raw: string, i: int, g: int, e: int, a: int, q: int)
    requires FirstSvgMatch(StripProlog(raw), i, g, e)
    requires FirstAttr(StripProlog(raw), "viewBox", a, q)
    ensures R.CleanSvgContent(raw).viewBox == B.JsCleanSvgContent(raw).viewBox
  {
    R.CleanExplicitViewBox(raw, i, g, e, a, q);
    B.JsViewBoxExplicit(StripProlog(raw), a, q);
  }

  /** Without a sprite region PHP falls back to the default viewBox; JS still reads the attribute. */
  lemma NoRegionDiverges(raw: string, a: int, q: int)
    requires NoSvgMatch(StripProlog(raw))
    requires FirstAttr(StripProlog(raw), "viewBox", a, q)
    ensures R.CleanSvgContent(raw) == CleanIcon("", DefaultViewBox)
    ensures B.JsCleanSvgContent(raw) == CleanIcon("", StripProlog(raw)[a + 9..q])
  {
    R.CleanWithoutRegion(raw);
    B.JsViewBoxExplicit(StripProlog(raw), a, q);
    B.JsContentRegion(StripProlog(raw));
  }

  /** With only a width, PHP fills the height with `24`; JS uses the whole default viewBox. */
  lemma OneSideDiverges(raw: string, i: int, g: int, e: int, wa: int, wq: int)
    requires var c := StripProlog(raw);
      FirstSvgMatch(c, i, g, e) && NoAttr(c, "viewBox") && FirstAttr(c, "width", wa, wq) && NoAttr(c, "height")
    ensures R.CleanSvgContent(raw).viewBox == "0 0 " + StripProlog(raw)[wa + 7..wq] + " 24"
    ensures B.JsCleanSvgContent(raw).viewBox == DefaultViewBox
  {
    OneSideRuntime(raw, i, g, e, wa, wq);
    B.JsViewBoxOneSideMissing(StripProlog(raw));
    B.JsCleanParts(raw);
  }

  /** The runtime's viewBox with only a width: the written width and `24`. */
  lemma OneSideRuntime(raw: string, i: int, g: int, e: int, wa: int, wq: int)
    requires var c := StripProlog(raw);
      FirstSvgMatch(c, i, g, e) && NoAttr(c, "viewBox") && FirstAttr(c, "width", wa, wq) && NoAttr(c, "height")
    ensures R.CleanSvgContent(raw).viewBox == "0 0 " + StripProlog(raw)[wa + 7..wq] + " 24"
  {
    var c := StripProlog(raw);
    R.CleanSynthesisedViewBox(raw, i, g, e);
    AttrValueIsFirstMatch(c, "width", wa, wq);
    AttrValueNone(c, "width");
  }

  /** A canonical decimal whole number, such as `24`: what `parseFloat` leaves unchanged. */
  predicate WholeNumber(d: string) {
    d != "" && AllDigits(d) && (d[0] == '0' ==> d == "0")
  }

  /** Width and height written as canonical whole numbers give the same synthesised viewBox. */
  lemma WholeSidesAgree(raw: string, i: int, g: int, e: int, wa: int, wq: int, ha: int, hq: int)
    requires var c := StripProlog(raw);
      FirstSvgMatch(c, i, g, e) && NoAttr(c, "viewBox")
      && FirstAttr(c, "width", wa, wq) && FirstAttr(c, "height", ha, hq)
      && WholeNumber(c[wa + 7..wq]) && WholeNumber(c[ha + 8..hq])
    ensures R.CleanSvgContent(raw).viewBox == B.JsCleanSvgContent(raw).viewBox
  {
    var c := StripProlog(raw);
    BothSidesRuntime(raw, i, g, e, wa, wq, ha, hq);
    B.JsViewBoxBothSides(c, wa, wq, ha, hq);
    B.JsCleanParts(raw);
    WholeNumberText(c[wa + 7..wq]);
    WholeNumberText(c[ha + 8..hq]);
  }

  /** The runtime's viewBox with both sides: each written side as it stands. */
  lemma BothSidesRuntime(raw: string, i: int, g: int, e: int, wa: int, wq: int, ha: int, hq: int)
    requires var c := StripProlog(raw);
      FirstSvgMatch(c, i, g, e) && NoAttr(c, "viewBox") && FirstAttr(c, "width", wa, wq) && FirstAttr(c, "height", ha, hq)
    ensures var c := StripProlog(raw);
      R.CleanSvgContent(raw).viewBox == "0 0 " + c[wa + 7..wq] + " " + c[ha + 8..hq]
  {
    var c := StripProlog(raw);
    R.CleanSynthesisedViewBox(raw, i, g, e);
    AttrValueIsFirstMatch(c, "width", wa, wq);
    AttrValueIsFirstMatch(c, "height", ha, hq);
    AttrValueNone(c, "width");
    AttrValueNone(c, "height");
  }

  /** The contents agree when `trim()` and `String.prototype.trim` classify the region's characters alike. */
  lemma ContentAgrees(raw: string, i: int, g: int, e: int)
    requires FirstSvgMatch(StripProlog(raw), i, g, e)
    requires var region := StripProlog(raw)[g + 1..e];
      forall k :: 0 <= k < |region| ==> PhpSpace(region[k]) == JsSpace(region[k])
    ensures R.CleanSvgContent(raw).content == B.JsCleanSvgContent(raw).content
  {
    var region := StripProlog(raw)[g + 1..e];
    R.CleanContent(raw, i, g, e);
    B.JsContentRegion(StripProlog(raw));
    TrimAgree(region, PhpSpace, JsSpace);
  }

  // ----------------------------------------------------------- lookups

  /** A missing icon: the runtime prints an HTML comment, the manifest helper prints nothing. */
  lemma MissDiffers(m: Option<H.Manifest>, iconId: string, attrs: OMap<string>, esc: string -> string)
    requires iconId !in H.IconsOf(m).values
    ensures H.IconMarkup(m, iconId, attrs, esc) == ""
    ensures R.NotFound(iconId) != "" && R.NotFound(iconId)[..4] == "<!--"
  {
    H.IconMarkupEmptyIff(m, iconId, attrs, esc);
  }

  // ------------------------------------------------ the written manifest

  /** An entry `{viewBox, sprite, source}` as `json_decode(…, true)` gives it back. */
  function EntryFields(e: B.ManifestEntry): (r: H.IconFields)
    ensures r.keys == ["viewBox", "sprite", "source"]
    ensures r.values == map["viewBox" := e.viewBox, "sprite" := e.sprite, "source" := e.source]
  {
    var ks := ["viewBox", "sprite", "source"];
    assert ks[0][0] != ks[1][0] && ks[0][0] != ks[2][0] && ks[1][1] != ks[2][1];
    DistinctMeaning(ks);
    RawMap(ks, map["viewBox" := e.viewBox, "sprite" := e.sprite, "source" := e.source])
  }

  /** The combined manifest the build writes, as the helpers decode it. */
  function DecodedManifest(ms: OMap<OMap<B.ManifestEntry>>): H.Manifest {
    MapValues(ms, (inner: OMap<B.ManifestEntry>) => MapValues(inner, EntryFields))
  }

  /**
   * The build stores each set under its sprite id, while the helpers read
   * only `icons`: filtering a built manifest by any other sprite id, such as
   * `large-icons`, finds nothing.
   */
  lemma OtherSpritesInvisible(entries: seq<(string, B.ConfigValue)>, manifestFile: string, fs: string -> Root, writable: string -> bool, spriteId: string)
    requires B.BuildOutcome(entries, manifestFile, fs, writable).Built?
    requires spriteId != "icons"
    ensures H.AvailableIcons(Some(DecodedManifest(B.BuildOutcome(entries, manifestFile, fs, writable).manifests)), Some(spriteId)) == []
  {
    var ms := B.BuildOutcome(entries, manifestFile, fs, writable).manifests;
    var m := Some(DecodedManifest(ms));
    B.ManifestsNamed(B.BuildUpTo(entries, fs, writable, |entries|).done);
    if H.HasIcons(m) {
      var icons := H.IconsOf(m);
      forall k | k in icons.values ensures !H.InSprite(icons.values[k], spriteId) {
        assert icons.values[k].values["sprite"] == "icons";
      }
      H.FilteredNone(icons, spriteId, |icons.keys|);
    }
  }

  /** `get_icon` on a built manifest renders exactly the ids of the `icons` set. */
  lemma OnlyIconsSetRenders(ms: OMap<OMap<B.ManifestEntry>>, iconId: string, attrs: OMap<string>, esc: string -> string)
    ensures H.IconMarkup(Some(DecodedManifest(ms)), iconId, attrs, esc) != "" <==>
      "icons" in ms.values && iconId in ms.values["icons"].values
  {
    H.IconMarkupEmptyIff(Some(DecodedManifest(ms)), iconId, attrs, esc);
  }
}
