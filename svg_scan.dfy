/**
 * Hand-written scanners for the three regular expressions both normalisers
 * use, each returning where the leftmost match lies:
 *   `<\?xml[^>]*\?>`  (removed everywhere),
 *   `<svg[^>]*>(.*?)<\/svg>` with the `s` flag (the first sprite region),
 *   `NAME="([^"]*)"`  (the first attribute value, anywhere in the text).
 */
module SvgScan {
  import opened Wrappers
  import opened Text

  /** What both normalisers return: the inner markup and the viewBox. */
  datatype CleanIcon = CleanIcon(content: string, viewBox: string)

  /** The viewBox both normalisers fall back to. */
  const DefaultViewBox := "0 0 24 24"

  // ---------------------------------------------------------------- prolog

  /** `<\?xml[^>]*\?>` matches `s[i..end]`. */
  ghost predicate PrologAt(s: string, i: int, end: int) {
    OccursAt(s, "<?xml", i) && i + 7 <= end <= |s| && s[end - 2] == '?' && s[end - 1] == '>'
    && forall j :: i + 5 <= j < end - 1 ==> s[j] != '>'
  }

  /** The end of a prolog match at the start of `s`; the match, if any, is unique. */
  function PrologEnd(s: string): (r: Option<nat>)
    ensures r.Some? ==> PrologAt(s, 0, r.value)
    ensures r.Some? ==> forall e :: PrologAt(s, 0, e) ==> e == r.value
    ensures r.None? ==> forall e :: !PrologAt(s, 0, e)
  {
    if !StartsWith(s, "<?xml") then
      assert !OccursAt(s, "<?xml", 0);
      None
    else
      var k := FindFrom(s, ">", 5);
      FirstCharFrom(s, '>', 5, k);
      if k.Some? && k.value >= 6 && s[k.value - 1] == '?' then Some(k.value + 1) else None
  }

  /** What a `FindFrom` for one character says, in terms of characters. */
  lemma FirstCharFrom(s: string, c: char, from: nat, k: Option<nat>)
    requires k == FindFrom(s, [c], from)
    ensures k.Some? ==> k.value < |s| && s[k.value] == c
    ensures k.Some? ==> forall j :: from <= j < k.value ==> s[j] != c
    ensures k.None? ==> forall j :: from <= j < |s| ==> s[j] != c
  {
    if k.Some? { OccursCharAt(s, c, k.value); }
    forall j | from <= j < |s| && (k.None? || j < k.value) ensures s[j] != c {
      OccursCharAt(s, c, j);
    }
  }

  /** `preg_replace('/<\?xml[^>]*\?>/', '', $s)` and `s.replace(/<\?xml[^>]*\?>/g, '')`. */
  function StripProlog(s: string): (r: string)
    decreases |s|
    ensures |r| <= |s|
  {
    if s == [] then []
    else match PrologEnd(s)
      case Some(e) => StripProlog(s[e..])
      case None => [s[0]] + StripProlog(s[1..])
  }

  /** Text without `<?xml` is left as it is. */
  lemma {:induction false} StripPrologPlain(s: string)
    requires !Occurs(s, "<?xml")
    ensures StripProlog(s) == s
    decreases |s|
  {
    if s != [] {
      assert !OccursAt(s, "<?xml", 0);
      forall i | 0 <= i <= |s[1..]| - 5 ensures !OccursAt(s[1..], "<?xml", i) {
        assert s[1..][i..i + 5] == s[i + 1..i + 6];
        assert !OccursAt(s, "<?xml", i + 1);
      }
      StripPrologPlain(s[1..]);
    }
  }

  // ------------------------------------------------------------ svg region

  /**
   * `<svg[^>]*>(.*?)<\/svg>` matches from `i`: the opening tag runs to the
   * first `>` at `g`, and the lazy group ends at the first `</svg>`, at `e`.
   */
  ghost predicate SvgMatchAt(s: string, i: int, g: int, e: int) {
    OccursAt(s, "<svg", i) && i + 4 <= g < e && g < |s| && s[g] == '>'
    && (forall j :: i + 4 <= j < g ==> s[j] != '>')
    && OccursAt(s, "</svg>", e)
    && (forall j :: g + 1 <= j < e ==> !OccursAt(s, "</svg>", j))
  }

  /** The leftmost match as (start, end of the opening tag, start of `</svg>`). */
  function SvgRegion(s: string): (r: Option<(nat, nat, nat)>)
    ensures r.Some? ==> SvgMatchAt(s, r.value.0, r.value.1, r.value.2)
    ensures r.Some? ==> forall i, g, e :: SvgMatchAt(s, i, g, e) ==>
      r.value.0 < i || (i == r.value.0 && g == r.value.1 && e == r.value.2)
    ensures r.None? ==> forall i, g, e :: !SvgMatchAt(s, i, g, e)
  {
    match FindFrom(s, "<svg", 0)
    case None => None
    case Some(i) =>
      var k := FindFrom(s, ">", i + 4);
      FirstCharFrom(s, '>', i + 4, k);
      match k
      case None => None
      case Some(g) =>
        match FindFrom(s, "</svg>", g + 1)
        case None =>
          assert forall i', g', e' :: SvgMatchAt(s, i', g', e') ==> i <= i' && g <= g';
          None
        case Some(e) => Some((i, g, e))
  }

  /** `$matches[1]` of the sprite-region match: the markup between the tags. */
  function SvgInner(s: string): (r: Option<string>)
    ensures r.Some? <==> SvgRegion(s).Some?
    ensures r.Some? ==> r.value == s[SvgRegion(s).value.1 + 1..SvgRegion(s).value.2]
  {
    match SvgRegion(s)
    case None => None
    case Some((i, g, e)) => Some(s[g + 1..e])
  }

  // ------------------------------------------------------------- attribute

  /** `NAME="([^"]*)"` matches from `i`, with the closing quote at `q`. */
  ghost predicate AttrAt(s: string, name: string, i: int, q: int) {
    OccursAt(s, name + "=\"", i) && i + |name| + 2 <= q < |s| && s[q] == '"'
    && forall j :: i + |name| + 2 <= j < q ==> s[j] != '"'
  }

  /** The leftmost attribute match as (start, closing quote). */
  function AttrSpan(s: string, name: string): (r: Option<(nat, nat)>)
    ensures r.Some? ==> AttrAt(s, name, r.value.0, r.value.1)
    ensures r.Some? ==> forall i, q :: AttrAt(s, name, i, q) ==>
      r.value.0 < i || (i == r.value.0 && q == r.value.1)
    ensures r.None? ==> forall i, q :: !AttrAt(s, name, i, q)
  {
    var open := name + "=\"";
    match FindFrom(s, open, 0)
    case None => None
    case Some(i) =>
      var k := FindFrom(s, "\"", i + |open|);
      FirstCharFrom(s, '"', i + |open|, k);
      match k
      case None => None
      case Some(q) => Some((i, q))
  }

  /** The captured value, byte for byte (possibly empty). */
  function AttrValue(s: string, name: string): (r: Option<string>)
    ensures r.Some? <==> AttrSpan(s, name).Some?
    ensures r.Some? ==> r.value == s[AttrSpan(s, name).value.0 + |name| + 2..AttrSpan(s, name).value.1]
    ensures r.Some? ==> '"' !in r.value
  {
    match AttrSpan(s, name)
    case None => None
    case Some((i, q)) => Some(s[i + |name| + 2..q])
  }

  // ------------------------------------------------------ regex-level views

  /** The regex engine's match for the sprite region: the leftmost one. */
  ghost predicate FirstSvgMatch(s: string, i: int, g: int, e: int) {
    SvgMatchAt(s, i, g, e) && forall i', g', e' :: SvgMatchAt(s, i', g', e') ==> i <= i'
  }

  ghost predicate NoSvgMatch(s: string) {
    forall i, g, e :: !SvgMatchAt(s, i, g, e)
  }

  /** The regex engine's match for an attribute: the leftmost one. */
  ghost predicate FirstAttr(s: string, name: string, i: int, q: int) {
    AttrAt(s, name, i, q) && forall i', q' :: AttrAt(s, name, i', q') ==> i <= i'
  }

  ghost predicate NoAttr(s: string, name: string) {
    forall i, q :: !AttrAt(s, name, i, q)
  }

  /** The scanner finds exactly the regex's leftmost sprite-region match. */
  lemma SvgInnerIsFirstMatch(s: string, i: int, g: int, e: int)
    requires FirstSvgMatch(s, i, g, e)
    ensures SvgInner(s) == Some(s[g + 1..e])
  {
  }

  lemma SvgInnerNone(s: string)
    ensures SvgInner(s).None? <==> NoSvgMatch(s)
  {
  }

  /** The scanner finds exactly the regex's leftmost attribute match. */
  lemma AttrValueIsFirstMatch(s: string, name: string, i: int, q: int)
    requires FirstAttr(s, name, i, q)
    ensures AttrValue(s, name) == Some(s[i + |name| + 2..q])
  {
  }

  lemma AttrValueNone(s: string, name: string)
    ensures AttrValue(s, name).None? <==> NoAttr(s, name)
  {
  }
}
