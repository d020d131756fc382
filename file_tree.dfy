/**
 * The directory tree both implementations read. A directory is an ordered
 * sequence of entries in the order the file system lists them; reading a file
 * either yields its text or fails.
 */
module FileTree {
  import opened Wrappers
  import opened Text

  datatype Entry =
    | Dir(name: string, children: seq<Entry>)
    | File(name: string, content: Option<string>)

  /** What a configured input path turns out to be. */
  datatype Root = Missing | NotADirectory | Directory(entries: seq<Entry>)

  /** A file reached by a traversal, with the names of the directories leading to it. */
  datatype Located = Located(dirs: seq<string>, name: string, content: Option<string>)

  /** Entry names as a file system gives them: non-empty and free of `/`. */
  predicate WellNamed(es: seq<Entry>) {
    forall i :: 0 <= i < |es| ==> NameOk(es[i].name) && (es[i].Dir? ==> WellNamed(es[i].children))
  }

  predicate NameOk(n: string) {
    n != "" && '/' !in n
  }

  /**
   * The files a directory iterator visits, in order: each directory's
   * entries in listing order, a subdirectory's files at the subdirectory's
   * place (depth first) when `recursive`, and only the direct file children
   * otherwise. `dirs` names the directories above `es`.
   */
  function Files(es: seq<Entry>, recursive: bool, dirs: seq<string>): seq<Located>
  {
    if es == [] then []
    else
      (match es[0]
       case File(n, c) => [Located(dirs, n, c)]
       case Dir(n, ch) => if recursive then Files(ch, recursive, dirs + [n]) else [])
      + Files(es[1..], recursive, dirs)
  }

  /** A non-recursive traversal sees exactly the direct file children. */
  lemma {:induction false} FilesShallow(es: seq<Entry>, dirs: seq<string>)
    ensures forall f :: f in Files(es, false, dirs) <==> f.dirs == dirs && File(f.name, f.content) in es
  {
    if es != [] {
      FilesShallow(es[1..], dirs);
      assert es == [es[0]] + es[1..];
      forall e ensures e in es <==> e == es[0] || e in es[1..] { }
    }
  }

  /** Every file found lies under `dirs` and, with well-formed names, has a legal name. */
  lemma {:induction false} FilesUnder(es: seq<Entry>, recursive: bool, dirs: seq<string>)
    requires WellNamed(es)
    ensures forall j :: 0 <= j < |Files(es, recursive, dirs)| ==>
      var f := Files(es, recursive, dirs)[j];
      NameOk(f.name) && |dirs| <= |f.dirs| && f.dirs[..|dirs|] == dirs
      && (forall d :: d in f.dirs[|dirs|..] ==> NameOk(d))
  {
    if es != [] {
      FilesUnder(es[1..], recursive, dirs);
      match es[0]
      case File(n, c) =>
      case Dir(n, ch) =>
        if recursive {
          FilesUnder(ch, recursive, dirs + [n]);
          forall j | 0 <= j < |Files(ch, recursive, dirs + [n])|
            ensures var f := Files(ch, recursive, dirs + [n])[j];
              f.dirs[..|dirs|] == dirs && (forall d :: d in f.dirs[|dirs|..] ==> NameOk(d))
          {
            var f := Files(ch, recursive, dirs + [n])[j];
            assert f.dirs[..|dirs|] == (dirs + [n])[..|dirs|];
            assert f.dirs[|dirs|..] == [n] + f.dirs[|dirs| + 1..];
          }
        }
    }
  }

  /** The index of the last `c` in `s`. */
  function LastIndexOf(s: string, c: char): (r: Option<nat>)
    ensures r.Some? ==> r.value < |s| && s[r.value] == c
    ensures r.Some? ==> forall j :: r.value < j < |s| ==> s[j] != c
    ensures r.None? ==> forall j :: 0 <= j < |s| ==> s[j] != c
  {
    if s == [] then None
    else if s[|s| - 1] == c then Some(|s| - 1)
    else
      var r := LastIndexOf(s[..|s| - 1], c);
      assert s == s[..|s| - 1] + [s[|s| - 1]];
      r
  }

  /** PHP `SplFileInfo::getExtension()`: the text after the last `.`, or `""`. */
  function PhpExtension(name: string): string {
    match LastIndexOf(name, '.')
    case None => ""
    case Some(d) => name[d + 1..]
  }

  /** Node `path.extname` of a bare file name: from the last `.`, unless that dot starts the name or the name is `..`. */
  function JsExtname(name: string): string {
    match LastIndexOf(name, '.')
    case None => ""
    case Some(d) => if d == 0 || name == ".." then "" else name[d..]
  }

  /** In a name ending in `.svg` the last dot is the one before `svg`. */
  lemma LastDotOfSvgName(name: string)
    requires EndsWith(name, ".svg")
    ensures LastIndexOf(name, '.') == Some(|name| - 4)
  {
    var n := |name|;
    var li := LastIndexOf(name, '.');
    var tail := name[n - 4..];
    assert tail == ".svg";
    assert tail[0] == '.' && tail[1] == 's' && tail[2] == 'v' && tail[3] == 'g';
    assert name[n - 4] == '.' && name[n - 3] != '.' && name[n - 2] != '.' && name[n - 1] != '.';
    assert li.Some?;
    assert li.value >= n - 4;
  }

  /** PHP keeps a file iff its name ends in `.svg`, including a file named just `.svg`. */
  lemma PhpExtensionSvg(name: string)
    ensures PhpExtension(name) == "svg" <==> EndsWith(name, ".svg")
  {
    if EndsWith(name, ".svg") {
      LastDotOfSvgName(name);
      assert name[|name| - 3..] == name[|name| - 4..][1..];
    }
    if PhpExtension(name) == "svg" {
      var d := LastIndexOf(name, '.').value;
      assert name[d + 1..] == "svg";
      assert name[|name| - 4..] == [name[d]] + name[d + 1..];
    }
  }

  /** Node keeps a file iff its name ends in `.svg` with something before the dot. */
  lemma JsExtnameSvg(name: string)
    ensures JsExtname(name) == ".svg" <==> EndsWith(name, ".svg") && |name| > 4
  {
    if EndsWith(name, ".svg") {
      LastDotOfSvgName(name);
    }
  }
}
