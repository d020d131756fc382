/**
 * The Wistia id extractor of the large-media block
 * (Components/BlockLargeMedia/functions.php): three URL patterns tried in
 * order, each `prefix([a-zA-Z0-9]+)`, with the input itself as the fallback,
 * and the component-data filter that stores the result under `videoId`.
 */
module Wistia {
  import opened Wrappers
  import opened OrderedMap

  /** `[a-zA-Z0-9]`. */
  predicate IsAlnum(c: char) {
    ('a' <= c <= 'z') || ('A' <= c <= 'Z') || ('0' <= c <= '9')
  }

  predicate AllAlnum(s: string) {
    forall i :: 0 <= i < |s| ==> IsAlnum(s[i])
  }

  /** The length of the longest `[a-zA-Z0-9]*` run of `s` starting at `i`. */
  function AlnumRun(s: string, i: nat): (n: nat)
    requires i <= |s|
    ensures i + n <= |s|
    ensures forall j :: i <= j < i + n ==> IsAlnum(s[j])
    ensures i + n == |s| || !IsAlnum(s[i + n])
    decreases |s| - i
  {
    if i < |s| && IsAlnum(s[i]) then 1 + AlnumRun(s, i + 1) else 0
  }

  /** The pattern `prefix[a-zA-Z0-9]` can start matching at `p`. */
  predicate MatchAt(url: string, prefix: string, p: nat) {
    p + |prefix| < |url| && url[p..p + |prefix|] == prefix && IsAlnum(url[p + |prefix|])
  }

  /** The leftmost position at or after `p` where the pattern matches. */
  function FirstMatchFrom(url: string, prefix: string, p: nat): (r: Option<nat>)
    ensures r.Some? ==> p <= r.value && MatchAt(url, prefix, r.value)
    ensures r.Some? ==> forall q :: p <= q < r.value ==> !MatchAt(url, prefix, q)
    ensures r.None? ==> forall q :: p <= q ==> !MatchAt(url, prefix, q)
    decreases |url| - p
  {
    if p >= |url| then None
    else if MatchAt(url, prefix, p) then Some(p)
    else FirstMatchFrom(url, prefix, p + 1)
  }

  /** `preg_match('/prefix([a-zA-Z0-9]+)/', $url, $matches)` and `$matches[1]`. */
  function Capture(url: string, prefix: string): Option<string> {
    match FirstMatchFrom(url, prefix, 0)
    case None => None
    case Some(p) =>
      var start := p + |prefix|;
      Some(url[start..start + AlnumRun(url, start)])
  }

  /**
   * What the regular expression means: `prefix` then the non-empty
   * alphanumeric `id` occur at `p`, and `id` is not followed by another
   * alphanumeric character (the `+` is greedy).
   */
  ghost predicate PatternMatch(url: string, prefix: string, p: nat, id: string) {
    && |id| > 0 && AllAlnum(id)
    && p + |prefix| + |id| <= |url|
    && url[p..p + |prefix| + |id|] == prefix + id
    && (p + |prefix| + |id| == |url| || !IsAlnum(url[p + |prefix| + |id|]))
  }

  /** Any occurrence of the pattern starts a match at that position. */
  lemma PatternMatchAt(url: string, prefix: string, p: nat, id: string)
    requires PatternMatch(url, prefix, p, id)
    ensures MatchAt(url, prefix, p)
  {
    assert url[p..p + |prefix|] == (prefix + id)[..|prefix|];
    assert url[p + |prefix|] == (prefix + id)[|prefix|];
  }

  /**
   * A capture is the regular expression's leftmost match with its greedy
   * group; no capture means the pattern occurs nowhere.
   */
  lemma CaptureMeaning(url: string, prefix: string)
    ensures Capture(url, prefix).Some? ==>
      exists p: nat :: PatternMatch(url, prefix, p, Capture(url, prefix).value)
        && forall q: nat, other :: q < p ==> !PatternMatch(url, prefix, q, other)
    ensures Capture(url, prefix).None? ==> forall p: nat, id :: !PatternMatch(url, prefix, p, id)
  {
    match FirstMatchFrom(url, prefix, 0)
    case None =>
      forall p: nat, id | PatternMatch(url, prefix, p, id) ensures false {
        PatternMatchAt(url, prefix, p, id);
      }
    case Some(p) =>
      var start := p + |prefix|;
      var id := url[start..start + AlnumRun(url, start)];
      assert url[p..start + |id|] == url[p..start] + id;
      assert PatternMatch(url, prefix, p, id);
      forall q: nat, other | q < p ensures !PatternMatch(url, prefix, q, other) {
        if PatternMatch(url, prefix, q, other) {
          PatternMatchAt(url, prefix, q, other);
        }
      }
  }

  /** A capture is non-empty and alphanumeric. */
  lemma CaptureShape(url: string, prefix: string)
    requires Capture(url, prefix).Some?
    ensures |Capture(url, prefix).value| > 0 && AllAlnum(Capture(url, prefix).value)
  {
    var p := FirstMatchFrom(url, prefix, 0).value;
    var start := p + |prefix|;
    assert AlnumRun(url, start) > 0;
  }

  /** The three patterns, in the order they are tried. */
  const Patterns: seq<string> := ["wistia.net/embed/iframe/", "wistia.com/medias/", "wistia.net/medias/"]

  /** The `foreach` over the patterns with its early return. */
  function FirstCapture(url: string, patterns: seq<string>): Option<string>
    decreases |patterns|
  {
    if patterns == [] then None
    else match Capture(url, patterns[0])
      case Some(id) => Some(id)
      case None => FirstCapture(url, patterns[1..])
  }

  /** `extractWistiaId`. */
  function ExtractWistiaId(url: string): string {
    FirstCapture(url, Patterns).GetOr(url)
  }

  /** The first pattern that matches decides; with none, the input comes back unchanged. */
  lemma ExtractOrder(url: string)
    ensures Capture(url, Patterns[0]).Some? ==> ExtractWistiaId(url) == Capture(url, Patterns[0]).value
    ensures Capture(url, Patterns[0]).None? && Capture(url, Patterns[1]).Some? ==>
      ExtractWistiaId(url) == Capture(url, Patterns[1]).value
    ensures Capture(url, Patterns[0]).None? && Capture(url, Patterns[1]).None? && Capture(url, Patterns[2]).Some? ==>
      ExtractWistiaId(url) == Capture(url, Patterns[2]).value
    ensures Capture(url, Patterns[0]).None? && Capture(url, Patterns[1]).None? && Capture(url, Patterns[2]).None? ==>
      ExtractWistiaId(url) == url
  {
    assert Patterns[1..][1..][1..] == [];
  }

  /** A matched result is a non-empty run of `[a-zA-Z0-9]`. */
  lemma {:induction false} FirstCaptureShape(url: string, patterns: seq<string>)
    requires FirstCapture(url, patterns).Some?
    ensures |FirstCapture(url, patterns).value| > 0 && AllAlnum(FirstCapture(url, patterns).value)
    decreases |patterns|
  {
    if Capture(url, patterns[0]).Some? {
      CaptureShape(url, patterns[0]);
    } else {
      FirstCaptureShape(url, patterns[1..]);
    }
  }

  /** An alphanumeric string contains no `.`, so no pattern with a `.` matches in it. */
  lemma NoCaptureInAlnum(s: string, prefix: string, dot: nat)
    requires AllAlnum(s) && dot < |prefix| && prefix[dot] == '.'
    ensures Capture(s, prefix).None?
  {
    forall p: nat ensures !MatchAt(s, prefix, p) {
      if p + |prefix| < |s| {
        assert s[p..p + |prefix|][dot] == s[p + dot];
      }
    }
  }

  /** `extractWistiaId` is idempotent: an extracted id passes through the fallback. */
  lemma ExtractIdempotent(url: string)
    ensures ExtractWistiaId(ExtractWistiaId(url)) == ExtractWistiaId(url)
  {
    var once := ExtractWistiaId(url);
    if FirstCapture(url, Patterns).Some? {
      FirstCaptureShape(url, Patterns);
      NoCaptureInAlnum(once, Patterns[0], 6);
      NoCaptureInAlnum(once, Patterns[1], 6);
      NoCaptureInAlnum(once, Patterns[2], 6);
      ExtractOrder(once);
    }
  }

  // ---- the addComponentData filter ----

  /** The scalar values a component-data entry can hold. */
  datatype Value = Null | Bool(b: bool) | Int(i: int) | Str(s: string)

  /** PHP `empty()` on a scalar. */
  predicate IsEmpty(v: Value) {
    v == Null || v == Bool(false) || v == Int(0) || v == Str("") || v == Str("0")
  }

  /**
   * `extractWistiaId` on a value: strings are parsed; any other scalar's
   * text holds no `.`, so the fallback hands the value back unchanged.
   */
  function ExtractValue(v: Value): Value {
    match v
    case Str(s) => Str(ExtractWistiaId(s))
    case _ => v
  }

  /** The `Flynt/addComponentData?name=BlockLargeMedia` filter. */
  function AddComponentData(data: OMap<Value>): OMap<Value> {
    if "videoUrl" in data.values && !IsEmpty(data.values["videoUrl"]) then
      Put(data, "videoId", ExtractValue(data.values["videoUrl"]))
    else data
  }

  /**
   * `videoId` is set, from the URL, exactly when `videoUrl` is non-empty;
   * every other key keeps its value and its place.
   */
  lemma AddComponentDataEffect(data: OMap<Value>)
    ensures var r := AddComponentData(data);
      && (forall k :: k != "videoId" ==> (k in r.values <==> k in data.values))
      && (forall k :: k in data.values && k != "videoId" ==> r.values[k] == data.values[k])
      && ("videoUrl" in data.values && !IsEmpty(data.values["videoUrl"]) ==>
            "videoId" in r.values && r.values["videoId"] == ExtractValue(data.values["videoUrl"]))
      && (!("videoUrl" in data.values && !IsEmpty(data.values["videoUrl"])) ==> r == data)
      && r.keys[..|data.keys|] == data.keys
  {
  }
}
