/**
 * String primitives shared by the models: substring search, PHP's `str_replace`
 * for one search string, joining and trimming. Strings are `seq<char>`; the PHP
 * code works on bytes and the JavaScript code on UTF-16 units, which the models
 * treat alike.
 */
module Text {
  import opened Wrappers

  predicate StartsWith(s: string, p: string) {
    |p| <= |s| && s[..|p|] == p
  }

  predicate EndsWith(s: string, p: string) {
    |p| <= |s| && s[|s| - |p|..] == p
  }

  /** `p` occurs in `s` starting at index `i`. */
  predicate OccursAt(s: string, p: string, i: int) {
    0 <= i && i + |p| <= |s| && s[i..i + |p|] == p
  }

  predicate Occurs(s: string, p: string) {
    exists i :: 0 <= i <= |s| - |p| && OccursAt(s, p, i)
  }

  /** A one-character pattern occurs exactly where that character stands. */
  lemma OccursCharAt(s: string, c: char, j: int)
    ensures OccursAt(s, [c], j) <==> 0 <= j < |s| && s[j] == c
  {
    if 0 <= j < |s| {
      assert s[j..j + 1] == [s[j]];
    }
  }

  /** The first index at or after `from` where `p` occurs (a leftmost search). */
  function FindFrom(s: string, p: string, from: nat): (r: Option<nat>)
    decreases |s| - from
    ensures r.Some? ==> from <= r.value && OccursAt(s, p, r.value)
    ensures r.Some? ==> forall j :: from <= j < r.value ==> !OccursAt(s, p, j)
    ensures r.None? ==> forall j :: from <= j ==> !OccursAt(s, p, j)
  {
    if from + |p| > |s| then None
    else if OccursAt(s, p, from) then Some(from)
    else FindFrom(s, p, from + 1)
  }

  /**
   * PHP `str_replace($p, $rep, $s)` for a single search string: every
   * occurrence, scanning left to right without overlap; an empty search
   * string leaves the subject alone.
   */
  function ReplaceAll(s: string, p: string, rep: string): string
    decreases |s|
  {
    if |p| == 0 || |s| < |p| then s
    else if s[..|p|] == p then rep + ReplaceAll(s[|p|..], p, rep)
    else [s[0]] + ReplaceAll(s[1..], p, rep)
  }

  /** With no occurrence of the search string the subject comes back unchanged. */
  lemma {:induction false} ReplaceAllAbsent(s: string, p: string, rep: string)
    requires !Occurs(s, p)
    ensures ReplaceAll(s, p, rep) == s
  {
    if |p| == 0 || |s| < |p| {
    } else {
      assert !OccursAt(s, p, 0);
      AbsentFromTail(s, p);
      ReplaceAllAbsent(s[1..], p, rep);
    }
  }

  /** A string that does not occur in `s` does not occur in its tail either. */
  lemma AbsentFromTail(s: string, p: string)
    requires |s| > 0 && !Occurs(s, p)
    ensures !Occurs(s[1..], p)
  {
    forall i | OccursAt(s[1..], p, i) ensures false {
      assert s[1..][i..i + |p|] == s[i + 1..i + 1 + |p|];
      assert OccursAt(s, p, i + 1);
    }
  }

  /** A leading occurrence is replaced and scanning resumes right after it. */
  lemma ReplaceAllLeading(p: string, s: string, rep: string)
    requires |p| > 0
    ensures ReplaceAll(p + s, p, rep) == rep + ReplaceAll(s, p, rep)
  {
    assert (p + s)[..|p|] == p;
    assert (p + s)[|p|..] == s;
  }

  /**
   * Replacing around a separator character that the search string does not
   * contain: no occurrence can straddle it, so each side is replaced alone.
   */
  lemma {:induction false} ReplaceAllSplit(a: string, c: char, b: string, p: string, rep: string)
    requires c !in p
    ensures ReplaceAll(a + [c] + b, p, rep) == ReplaceAll(a, p, rep) + [c] + ReplaceAll(b, p, rep)
    decreases |a|
  {
    var s := a + [c] + b;
    if |p| == 0 {
    } else if |s| < |p| {
      ReplaceAllShort(a, p, rep);
      ReplaceAllShort(b, p, rep);
    } else if s[..|p|] == p {
      SplitLeadingMatch(a, c, b, p);
      ReplaceAllSplit(a[|p|..], c, b, p, rep);
      SplitMatchStep(a, c, b, p, rep);
    } else if |a| == 0 {
      assert s == [c] + b;
      assert s[1..] == b;
    } else {
      ReplaceAllSplit(a[1..], c, b, p, rep);
      SplitSkipStep(a, c, b, p, rep);
    }
  }

  lemma SplitMatchStep(a: string, c: char, b: string, p: string, rep: string)
    requires |p| > 0 && |p| <= |a| && a[..|p|] == p
    requires ReplaceAll(a[|p|..] + [c] + b, p, rep) == ReplaceAll(a[|p|..], p, rep) + [c] + ReplaceAll(b, p, rep)
    ensures ReplaceAll(a + [c] + b, p, rep) == ReplaceAll(a, p, rep) + [c] + ReplaceAll(b, p, rep)
  {
    var s := a + [c] + b;
    assert s[..|p|] == p;
    assert s[|p|..] == a[|p|..] + [c] + b;
  }

  lemma SplitSkipStep(a: string, c: char, b: string, p: string, rep: string)
    requires |p| > 0 && |a| > 0 && c !in p
    requires |a + [c] + b| >= |p| && (a + [c] + b)[..|p|] != p
    requires ReplaceAll(a[1..] + [c] + b, p, rep) == ReplaceAll(a[1..], p, rep) + [c] + ReplaceAll(b, p, rep)
    ensures ReplaceAll(a + [c] + b, p, rep) == ReplaceAll(a, p, rep) + [c] + ReplaceAll(b, p, rep)
  {
    SplitSkipFront(a, c, b, p, rep);
    SplitFrontOfLeft(a, c, b, p);
    ReplaceAllHead(a, p, rep);
    var ra := ReplaceAll(a[1..], p, rep);
    var rb := ReplaceAll(b, p, rep);
    assert [a[0]] + (ra + [c] + rb) == ([a[0]] + ra) + [c] + rb;
  }

  lemma SplitSkipFront(a: string, c: char, b: string, p: string, rep: string)
    requires |p| > 0 && |a| > 0
    requires |a + [c] + b| >= |p| && (a + [c] + b)[..|p|] != p
    ensures ReplaceAll(a + [c] + b, p, rep) == [a[0]] + ReplaceAll(a[1..] + [c] + b, p, rep)
  {
    assert (a + [c] + b)[1..] == a[1..] + [c] + b;
  }

  lemma SplitFrontOfLeft(a: string, c: char, b: string, p: string)
    requires |a + [c] + b| >= |p| && (a + [c] + b)[..|p|] != p
    ensures |a| < |p| || a[..|p|] != p
  {
    if |a| >= |p| {
      assert a[..|p|] == (a + [c] + b)[..|p|];
    }
  }

  lemma SeparatorAt(a: string, c: char, b: string)
    ensures (a + [c] + b)[|a|] == c
  {
  }

  lemma ReplaceAllShort(s: string, p: string, rep: string)
    requires |s| < |p|
    ensures ReplaceAll(s, p, rep) == s
  {
  }

  /** A match at the start of `a + [c] + b` lies inside `a` when `c` is not in the pattern. */
  lemma SplitLeadingMatch(a: string, c: char, b: string, p: string)
    requires c !in p && |p| <= |a + [c] + b| && (a + [c] + b)[..|p|] == p
    ensures |p| <= |a| && a[..|p|] == p
  {
    var s := a + [c] + b;
    if |p| > |a| {
      SeparatorAt(a, c, b);
      assert false;
    }
    assert a[..|p|] == s[..|p|];
  }

  /** A search string with no proper prefix equal to a proper suffix. */
  predicate Unbordered(p: string) {
    forall k :: 0 < k < |p| ==> p[..k] != p[|p| - k..]
  }

  /**
   * An unbordered search string appended to text that does not contain it is
   * matched exactly once, at the end.
   */
  lemma {:induction false} ReplaceAllTrailing(a: string, p: string, rep: string)
    requires |p| > 0 && Unbordered(p) && !Occurs(a, p)
    ensures ReplaceAll(a + p, p, rep) == a + rep
  {
    var s := a + p;
    if |a| == 0 {
      assert s == p;
      assert s[|p|..] == [];
    } else {
      TrailingNotLeading(a, p);
      AbsentFromTail(a, p);
      ReplaceAllTrailing(a[1..], p, rep);
      ReplaceAllSkip(a[0], a[1..] + p, p, rep);
      assert [a[0]] + (a[1..] + p) == s;
      assert [a[0]] + (a[1..] + rep) == a + rep;
    }
  }

  /** Without a match at the front, the first character is kept and scanning moves on by one. */
  lemma ReplaceAllSkip(c: char, t: string, p: string, rep: string)
    requires |p| > 0 && |p| <= |[c] + t| && ([c] + t)[..|p|] != p
    ensures ReplaceAll([c] + t, p, rep) == [c] + ReplaceAll(t, p, rep)
  {
    assert ([c] + t)[1..] == t;
  }

  /** Without a match at the front of `a`, its first character is kept. */
  lemma ReplaceAllHead(a: string, p: string, rep: string)
    requires |a| > 0 && |p| > 0 && (|a| < |p| || a[..|p|] != p)
    ensures ReplaceAll(a, p, rep) == [a[0]] + ReplaceAll(a[1..], p, rep)
  {
    if |a| < |p| {
      ReplaceAllShort(a[1..], p, rep);
      assert a == [a[0]] + a[1..];
    }
  }

  /** Text free of an unbordered `p`, followed by `p`, does not start with `p`. */
  lemma TrailingNotLeading(a: string, p: string)
    requires |a| > 0 && |p| > 0 && Unbordered(p) && !Occurs(a, p)
    ensures |p| <= |a + p| && (a + p)[..|p|] != p
  {
    var s := a + p;
    if |a| >= |p| {
      assert s[..|p|] == a[..|p|];
      assert !OccursAt(a, p, 0);
    } else {
      var k := |p| - |a|;
      assert p[..k] != p[|p| - k..];
      assert s[..|p|][|a|..] == p[..k];
    }
  }

  /** `parts` joined with the separator `sep` between consecutive parts. */
  function Join(parts: seq<string>, sep: string): string
    decreases |parts|
  {
    if |parts| == 0 then ""
    else if |parts| == 1 then parts[0]
    else Join(parts[..|parts| - 1], sep) + sep + parts[|parts| - 1]
  }

  lemma JoinSnoc(parts: seq<string>, last: string, sep: string)
    requires |parts| > 0
    ensures Join(parts + [last], sep) == Join(parts, sep) + sep + last
  {
    assert (parts + [last])[..|parts|] == parts;
  }

  /** With a one-character search string, replacement distributes over concatenation. */
  lemma {:induction false} ReplaceAllCharConcat(a: string, b: string, c: char, rep: string)
    ensures ReplaceAll(a + b, [c], rep) == ReplaceAll(a, [c], rep) + ReplaceAll(b, [c], rep)
  {
    if |a| == 0 {
      assert a + b == b;
    } else {
      var s := a + b;
      assert s[..1] == a[..1];
      assert s[1..] == a[1..] + b;
      ReplaceAllCharConcat(a[1..], b, c, rep);
    }
  }

  /** Replacing `/` by `-` in a `/`-joined path gives the `-`-joined path. */
  lemma {:induction false} JoinReplaceSeparator(parts: seq<string>)
    requires forall i :: 0 <= i < |parts| ==> '/' !in parts[i]
    ensures ReplaceAll(Join(parts, "/"), "/", "-") == Join(parts, "-")
  {
    if |parts| == 0 {
    } else if |parts| == 1 {
      SlashFree(parts[0]);
      ReplaceAllAbsent(parts[0], "/", "-");
    } else {
      var init := parts[..|parts| - 1];
      var last := parts[|parts| - 1];
      JoinReplaceSeparator(init);
      SlashFree(last);
      ReplaceAllAbsent(last, "/", "-");
      var j := Join(init, "/");
      ReplaceAllCharConcat(j + "/", last, '/', "-");
      ReplaceAllCharConcat(j, "/", '/', "-");
      assert ReplaceAll("/", "/", "-") == "-" by {
        assert "/"[..1] == "/";
        assert "/"[1..] == "";
      }
    }
  }

  lemma SlashFree(s: string)
    requires '/' !in s
    ensures !Occurs(s, "/")
  {
    forall i | 0 <= i < |s| ensures !OccursAt(s, "/", i) {
      assert s[i..i + 1] == [s[i]];
    }
  }

  /** Drops leading characters that satisfy `ws`. */
  function TrimStart(s: string, ws: char -> bool): (r: string)
    decreases |s|
    ensures |r| <= |s| && r == s[|s| - |r|..]
    ensures r == [] || !ws(r[0])
    ensures forall i :: 0 <= i < |s| - |r| ==> ws(s[i])
  {
    if |s| > 0 && ws(s[0]) then TrimStart(s[1..], ws) else s
  }

  /** Drops trailing characters that satisfy `ws`. */
  function TrimEnd(s: string, ws: char -> bool): (r: string)
    decreases |s|
    ensures |r| <= |s| && r == s[..|r|]
    ensures r == [] || !ws(r[|r| - 1])
    ensures forall i :: |r| <= i < |s| ==> ws(s[i])
  {
    if |s| > 0 && ws(s[|s| - 1]) then TrimEnd(s[..|s| - 1], ws) else s
  }

  /** Strips `ws` characters from both ends. */
  function Trim(s: string, ws: char -> bool): string {
    TrimEnd(TrimStart(s, ws), ws)
  }

  /** Two trims agree on a string whose characters they classify alike. */
  lemma {:induction false} TrimAgree(s: string, ws1: char -> bool, ws2: char -> bool)
    requires forall i :: 0 <= i < |s| ==> ws1(s[i]) == ws2(s[i])
    ensures Trim(s, ws1) == Trim(s, ws2)
  {
    TrimStartAgree(s, ws1, ws2);
    var t := TrimStart(s, ws1);
    assert forall i :: 0 <= i < |t| ==> t[i] == s[|s| - |t| + i];
    TrimEndAgree(t, ws1, ws2);
  }

  lemma {:induction false} TrimStartAgree(s: string, ws1: char -> bool, ws2: char -> bool)
    requires forall i :: 0 <= i < |s| ==> ws1(s[i]) == ws2(s[i])
    ensures TrimStart(s, ws1) == TrimStart(s, ws2)
    decreases |s|
  {
    if |s| > 0 && ws1(s[0]) {
      TrimStartAgree(s[1..], ws1, ws2);
    }
  }

  lemma {:induction false} TrimEndAgree(s: string, ws1: char -> bool, ws2: char -> bool)
    requires forall i :: 0 <= i < |s| ==> ws1(s[i]) == ws2(s[i])
    ensures TrimEnd(s, ws1) == TrimEnd(s, ws2)
    decreases |s|
  {
    if |s| > 0 && ws1(s[|s| - 1]) {
      TrimEndAgree(s[..|s| - 1], ws1, ws2);
    }
  }

  /** The characters PHP `trim()` strips by default: space, tab, LF, CR, NUL, vertical tab. */
  predicate PhpSpace(c: char) {
    c == ' ' || c == '\t' || c == '\n' || c == '\r' || c == '\0' || c == '\U{000B}'
  }

  /** The characters `String.prototype.trim` strips: ECMAScript WhiteSpace and LineTerminator. */
  predicate JsSpace(c: char) {
    c == '\t' || c == '\n' || c == '\U{000B}' || c == '\U{000C}' || c == '\r' || c == ' '
    || c == '\U{00A0}' || c == '\U{1680}' || ('\U{2000}' <= c <= '\U{200A}')
    || c == '\U{2028}' || c == '\U{2029}' || c == '\U{202F}' || c == '\U{205F}'
    || c == '\U{3000}' || c == '\U{FEFF}'
  }

  /** Concatenation without separator: PHP `implode('', $parts)`, JS `parts.join('')`. */
  function Concat(parts: seq<string>): string
    decreases |parts|
  {
    if parts == [] then "" else Concat(parts[..|parts| - 1]) + parts[|parts| - 1]
  }
}
