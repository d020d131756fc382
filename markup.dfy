/**
 * The markup both sprite assemblers and all render helpers print. The PHP and
 * JavaScript format strings are character for character the same, so each is
 * written once here.
 */
module Markup {
  import opened Text
  import opened OrderedMap

  const SpriteOpen := "<svg xmlns=\"http://www.w3.org/2000/svg\" style=\"display: none;\">"
  const SpriteClose := "</svg>"

  /** `<symbol id="ID" viewBox="VB">CONTENT</symbol>`. */
  function Symbol(id: string, viewBox: string, content: string): string {
    "<symbol id=\"" + id + "\" viewBox=\"" + viewBox + "\">" + content + "</symbol>"
  }

  /** A hidden sprite document wrapping the symbols, in order. */
  function SpriteDocument(symbols: seq<string>): string {
    SpriteOpen + Concat(symbols) + SpriteClose
  }

  /** ` KEY="VALUE"` with the value passed through the escaping function. */
  function Attribute(key: string, value: string, esc: string -> string): string {
    " " + key + "=\"" + esc(value) + "\""
  }

  /** The attribute string built by the `foreach` over the first `n` keys of `attrs`. */
  function AttributesUpTo(attrs: OMap<string>, esc: string -> string, n: nat): string
    requires n <= |attrs.keys|
  {
    if n == 0 then ""
    else AttributesUpTo(attrs, esc, n - 1) + Attribute(attrs.keys[n - 1], attrs.values[attrs.keys[n - 1]], esc)
  }

  /** The attribute string for every key of `attrs`, in key order. */
  function Attributes(attrs: OMap<string>, esc: string -> string): string {
    AttributesUpTo(attrs, esc, |attrs.keys|)
  }

  /** The `foreach` of both `getIcon` helpers that prints each attribute in key order. */
  method AttributeString(attrs: OMap<string>, esc: string -> string) returns (r: string)
    ensures r == Attributes(attrs, esc)
  {
    r := "";
    var n := 0;
    while n < |attrs.keys|
      invariant 0 <= n <= |attrs.keys|
      invariant r == AttributesUpTo(attrs, esc, n)
    {
      var key := attrs.keys[n];
      r := r + Attribute(key, attrs.values[key], esc);
      n := n + 1;
    }
  }

  /** `<svg ATTRS viewBox="VB"><use href="#ID"></use></svg>`. */
  function UseElement(attributes: string, viewBox: string, id: string): string {
    "<svg" + attributes + " viewBox=\"" + viewBox + "\"><use href=\"#" + id + "\"></use></svg>"
  }

  /** The attribute defaults of both `getIcon` helpers. */
  function DefaultAttributes(): (r: OMap<string>)
    ensures r.keys == ["class", "width", "height", "aria-hidden"]
    ensures r.values == map["class" := "icon", "width" := "24", "height" := "24", "aria-hidden" := "true"]
  {
    var ks := ["class", "width", "height", "aria-hidden"];
    assert forall i, j :: 0 <= i < j < |ks| ==> ks[i][0] != ks[j][0];
    DistinctMeaning(ks);
    RawMap(ks, map["class" := "icon", "width" := "24", "height" := "24", "aria-hidden" := "true"])
  }

  /**
   * `array_merge($defaultAttributes, $attributes)`: the four default keys
   * come first and in their own order, the caller's other keys follow in the
   * caller's order, and the caller's value wins on every key it gives.
   */
  lemma MergedAttributes(attrs: OMap<string>)
    ensures Merge(DefaultAttributes(), attrs).keys
      == ["class", "width", "height", "aria-hidden"] + NewKeys(DefaultAttributes().values, attrs.keys)
    ensures forall k :: k in attrs.values ==> Merge(DefaultAttributes(), attrs).values[k] == attrs.values[k]
    ensures forall k :: k in DefaultAttributes().values && k !in attrs.values ==>
      Merge(DefaultAttributes(), attrs).values[k] == DefaultAttributes().values[k]
  {
  }
}
