/**
 * The naming rules of the web-aware file manager
 * (Scripts/Deployment/UpdateFiles.py): which names stay as web frameworks
 * expect them, how other names become PascalCase, how known base
 * directories are stripped from a header path, how a whole path is
 * converted, and how `ProcessAllFiles` tallies the per-file statuses.
 * Paths are POSIX `pathlib` paths.
 */
module UpdateFiles {
  import opened Wrappers
  import opened Text

  // ---- the tables ----

  /** `WEB_EXCEPTIONS`: names that keep their exact spelling. */
  const WebExceptions: map<string, string> := map[
    "node_modules" := "node_modules", "public" := "public", "src" := "src", "assets" := "assets",
    "components" := "components", "static" := "static", "dist" := "dist", "build" := "build",
    "index.html" := "index.html", "package.json" := "package.json", "package-lock.json" := "package-lock.json",
    "tsconfig.json" := "tsconfig.json", "webpack.config.js" := "webpack.config.js",
    "babel.config.js" := "babel.config.js", "vite.config.js" := "vite.config.js", ".gitignore" := ".gitignore",
    "robots.txt" := "robots.txt", "sitemap.xml" := "sitemap.xml", "favicon.ico" := "favicon.ico",
    "API" := "API", "api" := "api",
    "utils.js" := "utils.js", "utils.ts" := "utils.ts", "constants.js" := "constants.js", "config.js" := "config.js",
    "main.js" := "main.js", "main.css" := "main.css", "style.css" := "style.css", "styles.css" := "styles.css",
    "app.js" := "app.js", "app.css" := "app.css"]

  /** `WEB_EXTENSIONS`. */
  const WebExtensions: set<string> := {
    ".html", ".css", ".js", ".ts", ".json", ".xml", ".txt",
    ".scss", ".sass", ".less", ".vue", ".jsx", ".tsx"}

  /** The directory names that mark a web file, compared case-insensitively. */
  const WebPaths: seq<string> := ["WebPages", "web", "frontend", "client", "public", "src", "assets"]

  /** Name fragments that keep a web file's name in lower case. */
  const WebPatterns: seq<string> := ["index", "main", "app", "utils", "config", "constants", "style", "styles", "component", "service"]

  /** Every exception maps a name to itself. */
  lemma ExceptionsKeepTheirName()
    ensures forall k :: k in WebExceptions ==> WebExceptions[k] == k
  {
  }

  // ---- POSIX paths ----

  /** A `PurePosixPath`: its anchor (``, `/` or `//`) and its named components. */
  datatype PurePath = PurePath(root: string, names: seq<string>)

  /** The components of `parts` other than empty ones and `.`. */
  function Components(parts: seq<string>): (r: seq<string>)
    ensures forall k :: 0 <= k < |r| ==> r[k] != [] && r[k] != "."
  {
    if parts == [] then []
    else (if parts[0] != [] && parts[0] != "." then [parts[0]] else []) + Components(parts[1..])
  }

  /** `Path(s)`: exactly two leading slashes are kept as the anchor, more collapse to one. */
  function ParsePath(s: string): PurePath {
    var root := if StartsWith(s, "//") && !StartsWith(s, "///") then "//" else if StartsWith(s, "/") then "/" else "";
    PurePath(root, Components(Split(s, '/')))
  }

  /** `path.parts`: the anchor first when there is one. */
  function Parts(p: PurePath): seq<string> {
    (if p.root != [] then [p.root] else []) + p.names
  }

  /** `str(path)`; the empty path is `.`. */
  function PathStr(p: PurePath): string {
    if p.root == [] && p.names == [] then "." else p.root + Join(p.names, '/')
  }

  /** `path.name`. */
  function Name(p: PurePath): string {
    if p.names == [] then [] else p.names[|p.names| - 1]
  }

  /** `path.suffix`: from the last dot of the name, unless that dot is first or last. */
  function Suffix(p: PurePath): (sfx: string)
    ensures sfx == [] || (sfx[0] == '.' && EndsWith(Name(p), sfx) && |sfx| < |Name(p)|)
  {
    var name := Name(p);
    var j := AfterLast(name, '.');
    if 1 < j < |name| then
      assert name[j - 1..] == name[|name| - |name[j - 1..]|..];
      name[j - 1..]
    else []
  }

  // ---- web files ----

  predicate IsWebDirectory(part: string) {
    exists w :: w in WebPaths && Lower(part) == Lower(w)
  }

  /** The loop over `FilePath.parts`: some part names a web directory. */
  function HasWebPart(parts: seq<string>): (r: bool)
    ensures r <==> exists k :: 0 <= k < |parts| && IsWebDirectory(parts[k])
  {
    if parts == [] then false
    else if IsWebDirectory(parts[0]) then true
    else
      var r := HasWebPart(parts[1..]);
      assert r <==> exists k :: 1 <= k < |parts| && IsWebDirectory(parts[k]) by {
        if r {
          var k :| 0 <= k < |parts[1..]| && IsWebDirectory(parts[1..][k]);
          assert parts[k + 1] == parts[1..][k];
        }
        forall k | 1 <= k < |parts| && IsWebDirectory(parts[k]) ensures r {
          assert parts[1..][k - 1] == parts[k];
        }
      }
      r
  }

  /** `_IsWebFile`. */
  predicate IsWebFile(p: PurePath) {
    HasWebPart(Parts(p)) || Lower(Suffix(p)) in WebExtensions
  }

  /** A file under `src` is a web file, whatever its extension. */
  lemma UnderWebDirectoryIsWebFile(dir: string, name: string)
    requires '/' !in dir && '/' !in name && dir == "src" && name != [] && name != "."
    ensures IsWebFile(ParsePath(dir + "/" + name))
  {
    var s := dir + "/" + name;
    assert Split(s, '/') == [dir, name] by {
      SplitJoin([dir, name], '/');
      assert Join([dir, name], '/') == s;
    }
    assert Components([dir, name]) == [dir, name] by {
      assert [dir, name][1..] == [name];
      assert Components([name]) == [name] + Components([]);
    }
    assert s[0] == 's';
    assert Parts(ParsePath(s)) == [dir, name];
    assert IsWebDirectory(dir) by {
      assert "src" in WebPaths;
    }
    assert IsWebDirectory(Parts(ParsePath(s))[0]);
  }

  // ---- exceptions and PascalCase ----

  predicate HasWebPattern(lowered: string) {
    exists w :: w in WebPatterns && Contains(lowered, w)
  }

  /** `_ApplyWebExceptions`; `None` when no exception applies. */
  function ApplyWebExceptions(name: string, filePath: Option<PurePath>): Option<string> {
    if name in WebExceptions then Some(WebExceptions[name])
    else if Upper(name) == "API" then
      if filePath.Some? && IsWebFile(filePath.value)
         && (Contains(PathStr(filePath.value), "WebPages") || Contains(PathStr(filePath.value), "frontend"))
      then Some("api")
      else Some("API")
    else if filePath.Some? && Lower(Suffix(filePath.value)) in WebExtensions && IsWebFile(filePath.value)
         && HasWebPattern(Lower(name))
    then Some(Lower(name))
    else None
  }

  /** A separator of `re.split(r'[_\-\s]+', ...)`. */
  predicate IsSeparator(c: char) {
    c == '_' || c == '-' || IsSpace(c)
  }

  /** The non-empty words of `s` between runs of separators. */
  function Words(s: string): (ws: seq<string>)
    ensures forall k :: 0 <= k < |ws| ==> ws[k] != [] && forall i :: 0 <= i < |ws[k]| ==> !IsSeparator(ws[k][i])
    decreases |s|
  {
    if s == [] then []
    else if IsSeparator(s[0]) then Words(s[1..])
    else
      var n := WordLen(s);
      [s[..n]] + Words(s[n..])
  }

  /** Length of the run of non-separators that starts `s`. */
  function WordLen(s: string): (n: nat)
    ensures n <= |s|
    ensures forall i :: 0 <= i < n ==> !IsSeparator(s[i])
    ensures s != [] && !IsSeparator(s[0]) ==> 0 < n
  {
    if s == [] || IsSeparator(s[0]) then 0 else 1 + WordLen(s[1..])
  }

  /** `word.capitalize()`: first letter upper case, the rest lower case. */
  function Capitalize(w: string): (r: string)
    ensures |r| == |w|
    ensures forall i :: 0 <= i < |w| ==> IsSeparator(r[i]) == IsSeparator(w[i])
  {
    if w == [] then [] else [UpperChar(w[0])] + Lower(w[1..])
  }

  /** The capitalised words written together. */
  function PascalJoin(ws: seq<string>): (r: string)
    requires forall k :: 0 <= k < |ws| ==> forall i :: 0 <= i < |ws[k]| ==> !IsSeparator(ws[k][i])
    ensures forall i :: 0 <= i < |r| ==> !IsSeparator(r[i])
  {
    if ws == [] then []
    else
      var head := Capitalize(ws[0]);
      var rest := PascalJoin(ws[1..]);
      assert forall i :: 0 <= i < |head| ==> !IsSeparator(head[i]);
      head + rest
  }

  /** The name split into the part before its last dot and the extension from that dot; directories are not split. */
  function StemAndExtension(name: string, isDirectory: bool): (r: (string, string))
    ensures r.0 + r.1 == name
    ensures r.1 == [] || r.1[0] == '.'
    ensures isDirectory || '.' !in name ==> r.1 == []
    ensures !isDirectory && '.' in name ==> r.1 != [] && '.' !in r.1[1..]
  {
    if !isDirectory && '.' in name then
      var j := AfterLast(name, '.');
      assert j > 0 by {
        var i :| 0 <= i < |name| && name[i] == '.';
      }
      assert name[..j - 1] + name[j - 1..] == name;
      assert forall c :: c in name[j..] ==> c != '.';
      assert name[j - 1..][1..] == name[j..];
      (name[..j - 1], name[j - 1..])
    else (name, [])
  }

  /** `_ConvertToPascalCase`. */
  function ConvertToPascalCase(name: string, isDirectory: bool, filePath: Option<PurePath>): string {
    match ApplyWebExceptions(name, filePath)
    case Some(w) => w
    case None =>
      var (stem, ext) := StemAndExtension(name, isDirectory);
      PascalJoin(Words(stem)) + ext
  }

  /** A name listed in `WEB_EXCEPTIONS` is left as it is. */
  lemma ExceptionUnchanged(name: string, isDirectory: bool, filePath: Option<PurePath>)
    requires name in WebExceptions
    ensures ConvertToPascalCase(name, isDirectory, filePath) == name
  {
    ExceptionsKeepTheirName();
  }

  /**
   * A name spelled `API` in some other case is `api` only for a web file
   * whose path mentions `WebPages` or `frontend`, and `API` otherwise.
   */
  lemma ApiSpelling(name: string, isDirectory: bool, filePath: Option<PurePath>)
    requires Upper(name) == "API" && name !in WebExceptions
    ensures var webRoute := filePath.Some? && IsWebFile(filePath.value)
      && (Contains(PathStr(filePath.value), "WebPages") || Contains(PathStr(filePath.value), "frontend"));
      ConvertToPascalCase(name, isDirectory, filePath) == if webRoute then "api" else "API"
  {
  }

  /** A web file whose name holds a web pattern, in any case, comes back in lower case. */
  lemma WebPatternLowered(name: string, isDirectory: bool, p: PurePath)
    requires name !in WebExceptions && Upper(name) != "API"
    requires Lower(Suffix(p)) in WebExtensions && IsWebFile(p)
    requires HasWebPattern(Lower(name))
    ensures ConvertToPascalCase(name, isDirectory, Some(p)) == Lower(name)
  {
  }

  /**
   * Without an exception, the stem becomes separator-free PascalCase and the
   * extension after the last dot is kept verbatim; a directory keeps no
   * extension. The PascalCase part keeps the stem's letters in order, with
   * the first letter of each word upper-cased and every other letter
   * lower-cased.
   */
  lemma PascalShape(name: string, isDirectory: bool, filePath: Option<PurePath>)
    requires ApplyWebExceptions(name, filePath).None?
    ensures var r := ConvertToPascalCase(name, isDirectory, filePath);
      var (stem, ext) := StemAndExtension(name, isDirectory);
      r == PascalChars(stem, true) + ext
      && EndsWith(r, ext)
      && (forall i :: 0 <= i < |r| - |ext| ==> !IsSeparator(r[i]))
      && (isDirectory ==> ext == [])
  {
    var (stem, ext) := StemAndExtension(name, isDirectory);
    var body := PascalJoin(Words(stem));
    assert ConvertToPascalCase(name, isDirectory, filePath) == body + ext;
    SeparatorFreeThen(body, ext);
    PascalJoinIsPascalChars(stem);
  }

  lemma SeparatorFreeThen(body: string, ext: string)
    requires forall i :: 0 <= i < |body| ==> !IsSeparator(body[i])
    ensures EndsWith(body + ext, ext)
    ensures forall i :: 0 <= i < |body + ext| - |ext| ==> !IsSeparator((body + ext)[i])
  {
    assert (body + ext)[|body + ext| - |ext|..] == ext;
  }

  /**
   * PascalCase read off character by character: separators are dropped; a
   * letter right after the start or after a separator is upper-cased, any
   * other letter lower-cased. `atStart` says whether the next character
   * begins a word.
   */
  function PascalChars(s: string, atStart: bool): string
    decreases |s|
  {
    if s == [] then []
    else if IsSeparator(s[0]) then PascalChars(s[1..], true)
    else [if atStart then UpperChar(s[0]) else LowerChar(s[0])] + PascalChars(s[1..], false)
  }

  /** Within a word, the characters are lower-cased one by one. */
  lemma {:induction false} PascalCharsInWord(s: string, m: nat)
    requires m <= |s| && forall i :: 0 <= i < m ==> !IsSeparator(s[i])
    ensures PascalChars(s, false) == Lower(s[..m]) + PascalChars(s[m..], false)
    decreases m
  {
    if m > 0 {
      PascalCharsInWord(s[1..], m - 1);
      assert s[1..][m - 1..] == s[m..];
      assert Lower(s[..m]) == [LowerChar(s[0])] + Lower(s[1..][..m - 1]);
    } else {
      assert s[..0] == [] && s[0..] == s;
    }
  }

  /** A word runs up to the end or to a separator. */
  lemma {:induction false} WordLenStops(s: string)
    ensures WordLen(s) == |s| || IsSeparator(s[WordLen(s)])
    decreases |s|
  {
    if s != [] && !IsSeparator(s[0]) {
      WordLenStops(s[1..]);
    }
  }

  lemma TailSlices<T>(s: seq<T>, n: nat)
    requires 1 <= n <= |s|
    ensures s[1..][..n - 1] == s[..n][1..] && s[1..][n - 1..] == s[n..]
  {
  }

  /** After a word, at the end or at a separator, the next character starts a word either way. */
  lemma PascalCharsFresh(t: string)
    requires t == [] || IsSeparator(t[0])
    ensures PascalChars(t, false) == PascalChars(t, true)
  {
  }

  /** A word at the start is capitalised, and what follows it starts afresh. */
  lemma PascalCharsWord(s: string)
    requires s != [] && !IsSeparator(s[0])
    ensures PascalChars(s, true) == Capitalize(s[..WordLen(s)]) + PascalChars(s[WordLen(s)..], true)
  {
    var n := WordLen(s);
    var w := s[..n];
    var rest := s[n..];
    assert PascalChars(s[1..], false) == Lower(w[1..]) + PascalChars(rest, true) by {
      TailSlices(s, n);
      PascalCharsInWord(s[1..], n - 1);
      WordLenStops(s);
      PascalCharsFresh(rest);
    }
    assert Capitalize(w) == [UpperChar(s[0])] + Lower(w[1..]);
    Text.AppendAssoc([UpperChar(s[0])], Lower(w[1..]), PascalChars(rest, true));
  }

  /** Joining the capitalised words gives PascalCase as read off character by character. */
  lemma {:induction false} PascalJoinIsPascalChars(s: string)
    ensures PascalJoin(Words(s)) == PascalChars(s, true)
    decreases |s|
  {
    if s != [] {
      if IsSeparator(s[0]) {
        PascalJoinIsPascalChars(s[1..]);
      } else {
        var n := WordLen(s);
        PascalJoinIsPascalChars(s[n..]);
        PascalCharsWord(s);
        assert PascalJoin(Words(s)) == Capitalize(s[..n]) + PascalJoin(Words(s[n..]));
      }
    }
  }

  lemma {:induction false} WordLenOfWord(w: string, rest: string)
    requires forall i :: 0 <= i < |w| ==> !IsSeparator(w[i])
    requires rest == [] || IsSeparator(rest[0])
    ensures WordLen(w + rest) == |w|
    decreases |w|
  {
    if w != [] {
      assert (w + rest)[1..] == w[1..] + rest;
      WordLenOfWord(w[1..], rest);
    } else {
      assert w + rest == rest;
    }
  }

  /** A word followed by a separator is the first word. */
  lemma WordsOfWordThen(w: string, sep: char, rest: string)
    requires w != [] && forall i :: 0 <= i < |w| ==> !IsSeparator(w[i])
    requires IsSeparator(sep)
    ensures Words(w + [sep] + rest) == [w] + Words(rest)
  {
    var s := w + [sep] + rest;
    WordLenOfWord(w, [sep] + rest);
    assert s == w + ([sep] + rest);
    assert s[..|w|] == w;
    assert s[|w|..] == [sep] + rest;
    assert ([sep] + rest)[1..] == rest;
  }

  lemma WordsOfWord(w: string)
    requires w != [] && forall i :: 0 <= i < |w| ==> !IsSeparator(w[i])
    ensures Words(w) == [w]
  {
    WordLenOfWord(w, []);
    assert w + [] == w;
    assert w[|w|..] == [];
  }

  // ---- base directories ----

  /** The base directories `_StripBaseDirectories` knows, in the order it checks them. */
  const BaseDirs: seq<string> := ["ProjectHimalaya", "BowersWorld-com", "AndyWeb", "Project"]

  /** `path` without a leading `dir + '/'`, if it has one. */
  function StripOne(path: string, dir: string): (r: string)
  {
    if StartsWith(path, dir + "/") then path[|dir| + 1..] else path
  }

  lemma StripOneSuffix(path: string, dir: string)
    ensures EndsWith(path, StripOne(path, dir))
  {
  }

  /** Each of `dirs` stripped once, in order. */
  function StripAllOf(path: string, dirs: seq<string>): (r: string)
    ensures EndsWith(path, r)
    ensures (forall k :: 0 <= k < |dirs| ==> !StartsWith(path, dirs[k] + "/")) ==> r == path
  {
    if dirs == [] then path
    else
      var once := StripOne(path, dirs[0]);
      var r := StripAllOf(once, dirs[1..]);
      assert (forall k :: 0 <= k < |dirs| ==> !StartsWith(path, dirs[k] + "/")) ==> once == path && r == path by {
        if forall k :: 0 <= k < |dirs| ==> !StartsWith(path, dirs[k] + "/") {
          assert forall k :: 0 <= k < |dirs[1..]| ==> dirs[1..][k] == dirs[k + 1];
        }
      }
      assert path[|path| - |r|..] == r by {
        StripOneSuffix(path, dirs[0]);
        assert once[|once| - |r|..] == r;
      }
      r
  }

  /** `_StripBaseDirectories`: the loop over the base directories. */
  method StripBaseDirectories(path: string) returns (r: string)
    ensures r == StripAllOf(path, BaseDirs)
    ensures EndsWith(path, r)
  {
    r := path;
    for k := 0 to |BaseDirs|
      invariant StripAllOf(r, BaseDirs[k..]) == StripAllOf(path, BaseDirs)
    {
      var dir := BaseDirs[k];
      StripAllOfStep(r, BaseDirs, k);
      if StartsWith(r, dir + "/") {
        r := r[|dir| + 1..];
      }
    }
  }

  lemma StripAllOfStep(r: string, dirs: seq<string>, k: nat)
    requires k < |dirs|
    ensures StripAllOf(r, dirs[k..]) == StripAllOf(StripOne(r, dirs[k]), dirs[k + 1..])
  {
    assert dirs[k..][0] == dirs[k] && dirs[k..][1..] == dirs[k + 1..];
  }

  lemma StripOneHit(dir: string, rest: string)
    ensures StripOne(dir + "/" + rest, dir) == rest
  {
    var path := dir + "/" + rest;
    assert path[..|dir| + 1] == dir + "/";
    assert path[|dir| + 1..] == rest;
  }

  lemma StripOneMiss(path: string, dir: string)
    requires path != [] && dir != [] && path[0] != dir[0]
    ensures StripOne(path, dir) == path
  {
  }

  lemma StripOneMissAt(path: string, dir: string, i: nat)
    requires i < |path| && i < |dir| && path[i] != dir[i]
    ensures StripOne(path, dir) == path
  {
  }

  /** The base directories are tried one after another, each once. */
  lemma StripAllOfBase(path: string)
    ensures StripAllOf(path, BaseDirs)
      == StripOne(StripOne(StripOne(StripOne(path, "ProjectHimalaya"), "BowersWorld-com"), "AndyWeb"), "Project")
  {
    StripAllOfFour(path, BaseDirs);
  }

  lemma StripAllOfFour(path: string, dirs: seq<string>)
    requires |dirs| == 4
    ensures StripAllOf(path, dirs) == StripOne(StripOne(StripOne(StripOne(path, dirs[0]), dirs[1]), dirs[2]), dirs[3])
  {
    var s1 := StripOne(path, dirs[0]);
    var s2 := StripOne(s1, dirs[1]);
    var s3 := StripOne(s2, dirs[2]);
    var s4 := StripOne(s3, dirs[3]);
    assert StripAllOf(path, dirs[0..]) == StripAllOf(s1, dirs[1..]) by { StripAllOfStep(path, dirs, 0); }
    assert StripAllOf(s1, dirs[1..]) == StripAllOf(s2, dirs[2..]) by { StripAllOfStep(s1, dirs, 1); }
    assert StripAllOf(s2, dirs[2..]) == StripAllOf(s3, dirs[3..]) by { StripAllOfStep(s2, dirs, 2); }
    assert StripAllOf(s3, dirs[3..]) == StripAllOf(s4, dirs[4..]) by { StripAllOfStep(s3, dirs, 3); }
    assert dirs[0..] == dirs && dirs[4..] == [];
  }

  /** Each base directory is checked once, in list order: a later one is stripped after an earlier one. */
  lemma BaseDirectoriesInOrder(rest: string)
    ensures StripAllOf("ProjectHimalaya/Project/" + rest, BaseDirs) == rest
  {
    StripAllOfBase("ProjectHimalaya/Project/" + rest);
    BaseChainInOrder(rest);
  }

  lemma BaseChainInOrder(rest: string)
    ensures var path := "ProjectHimalaya/Project/" + rest;
      StripOne(StripOne(StripOne(StripOne(path, "ProjectHimalaya"), "BowersWorld-com"), "AndyWeb"), "Project") == rest
  {
    var path := "ProjectHimalaya/Project/" + rest;
    var inner := "Project/" + rest;
    var s1 := StripOne(path, "ProjectHimalaya");
    assert s1 == inner by {
      assert path == "ProjectHimalaya" + "/" + inner;
      StripOneHit("ProjectHimalaya", inner);
    }
    var s2 := StripOne(s1, "BowersWorld-com");
    assert s2 == inner by {
      StripOneMiss(inner, "BowersWorld-com");
    }
    var s3 := StripOne(s2, "AndyWeb");
    assert s3 == inner by {
      StripOneMiss(inner, "AndyWeb");
    }
    assert inner == "Project" + "/" + rest;
    StripOneHit("Project", rest);
  }

  /** ... and an earlier one is not stripped after a later one. */
  lemma BaseDirectoriesOnce(rest: string)
    ensures StripAllOf("Project/ProjectHimalaya/" + rest, BaseDirs) == "ProjectHimalaya/" + rest
  {
    StripAllOfBase("Project/ProjectHimalaya/" + rest);
    BaseChainOnce(rest);
  }

  lemma BaseChainOnce(rest: string)
    ensures var path := "Project/ProjectHimalaya/" + rest;
      StripOne(StripOne(StripOne(StripOne(path, "ProjectHimalaya"), "BowersWorld-com"), "AndyWeb"), "Project")
        == "ProjectHimalaya/" + rest
  {
    var path := "Project/ProjectHimalaya/" + rest;
    MissProjectHimalaya(path);
    StripOneMiss(path, "BowersWorld-com");
    StripOneMiss(path, "AndyWeb");
    HitProject(rest);
  }

  lemma MissProjectHimalaya(path: string)
    requires StartsWith(path, "Project/")
    ensures StripOne(path, "ProjectHimalaya") == path
  {
    assert path[7] == "Project/"[7];
    StripOneMissAt(path, "ProjectHimalaya", 7);
  }

  lemma HitProject(rest: string)
    ensures StripOne("Project/ProjectHimalaya/" + rest, "Project") == "ProjectHimalaya/" + rest
  {
    var tail := "ProjectHimalaya/" + rest;
    assert "Project/ProjectHimalaya/" + rest == "Project" + "/" + tail by {
      assert "Project/ProjectHimalaya/" == ("Project" + "/") + "ProjectHimalaya/";
      AppendAssoc("Project" + "/", "ProjectHimalaya/", rest);
    }
    StripOneHit("Project", tail);
  }

  // ---- whole paths ----

  /** `TypeError: 'str' object is not callable`. */
  datatype ConvertError = StrNotCallable

  /**
   * `_ConvertPathToPascalCase` as written: its parameter `Path` hides
   * `pathlib.Path`, so building the context path calls a string and raises
   * at the first non-empty part; a path with none gives the empty string.
   */
  function ConvertPathAsWritten(path: string): Result<string, ConvertError> {
    var parts := Split(path, '/');
    if NonEmptyCount(parts, |parts|) > 0 then Err(StrNotCallable) else Ok([])
  }

  /** The number of non-empty parts among `parts[..n]`. */
  function NonEmptyCount(parts: seq<string>, n: nat): nat
    requires n <= |parts|
  {
    if n == 0 then 0 else NonEmptyCount(parts, n - 1) + (if parts[n - 1] != [] then 1 else 0)
  }

  /** The part `parts[i]` converted in the context of the path up to it; only the last part is a file. */
  function ConvertPart(parts: seq<string>, i: nat): string
    requires i < |parts|
  {
    ConvertToPascalCase(parts[i], i < |parts| - 1, Some(ParsePath(Join(parts[..i + 1], '/'))))
  }

  /** Every part converted in its context, the empty ones included. */
  function Conversions(parts: seq<string>): (cs: seq<string>)
    ensures |cs| == |parts|
  {
    seq(|parts|, i requires 0 <= i < |parts| => ConvertPart(parts, i))
  }

  /** The entries of `conv` that stand at the non-empty parts among `parts[..n]`, in order. */
  function AtNonEmpty(parts: seq<string>, conv: seq<string>, n: nat): seq<string>
    requires n <= |parts| == |conv|
  {
    if n == 0 then []
    else AtNonEmpty(parts, conv, n - 1) + (if parts[n - 1] != [] then [conv[n - 1]] else [])
  }

  /** `ConvertedParts` after parts `..n`: the conversions of the non-empty ones, in order. */
  function ConvertedParts(parts: seq<string>, n: nat): seq<string>
    requires n <= |parts|
  {
    AtNonEmpty(parts, Conversions(parts), n)
  }

  /** The loop of `_ConvertPathToPascalCase` as evidently intended: each non-empty part converted in its context. */
  method ConvertPathToPascalCase(path: string) returns (r: string)
    ensures r == Join(ConvertedParts(Split(path, '/'), |Split(path, '/')|), '/')
  {
    var parts := Split(path, '/');
    var converted: seq<string> := [];
    for i := 0 to |parts|
      invariant converted == ConvertedParts(parts, i)
    {
      ConvertedPartsStep(parts, i);
      if parts[i] != [] {
        converted := converted + [ConvertPart(parts, i)];
      }
    }
    r := Join(converted, '/');
  }

  lemma LowerKeepsNoSlash(s: string)
    requires '/' !in s
    ensures '/' !in Lower(s)
  {
  }

  lemma CapitalizeKeepsNoSlash(w: string)
    requires '/' !in w
    ensures '/' !in Capitalize(w)
  {
    if w != [] {
      assert forall c :: c in w[1..] ==> c in w;
      LowerKeepsNoSlash(w[1..]);
      assert '/' !in [UpperChar(w[0])];
    }
  }

  lemma {:induction false} WordsKeepNoSlash(s: string)
    requires '/' !in s
    ensures forall k :: 0 <= k < |Words(s)| ==> '/' !in Words(s)[k]
    decreases |s|
  {
    if s != [] {
      assert forall c :: c in s[1..] ==> c in s;
      if IsSeparator(s[0]) {
        WordsKeepNoSlash(s[1..]);
      } else {
        var n := WordLen(s);
        assert forall c :: c in s[n..] ==> c in s;
        assert forall c :: c in s[..n] ==> c in s;
        WordsKeepNoSlash(s[n..]);
        assert Words(s) == [s[..n]] + Words(s[n..]);
      }
    }
  }

  lemma {:induction false} PascalJoinKeepsNoSlash(ws: seq<string>)
    requires forall k :: 0 <= k < |ws| ==> forall i :: 0 <= i < |ws[k]| ==> !IsSeparator(ws[k][i])
    requires forall k :: 0 <= k < |ws| ==> '/' !in ws[k]
    ensures '/' !in PascalJoin(ws)
  {
    if ws != [] {
      PascalJoinKeepsNoSlash(ws[1..]);
      CapitalizeKeepsNoSlash(ws[0]);
      assert PascalJoin(ws) == Capitalize(ws[0]) + PascalJoin(ws[1..]);
    }
  }

  lemma PascalKeepsNoSlash(s: string)
    requires '/' !in s
    ensures '/' !in PascalJoin(Words(s))
  {
    WordsKeepNoSlash(s);
    PascalJoinKeepsNoSlash(Words(s));
  }

  /** A conversion never introduces a '/'. */
  lemma ConvertKeepsNoSlash(name: string, isDirectory: bool, filePath: Option<PurePath>)
    requires '/' !in name
    ensures '/' !in ConvertToPascalCase(name, isDirectory, filePath)
  {
    var e := ApplyWebExceptions(name, filePath);
    if name in WebExceptions {
      ExceptionsKeepTheirName();
    } else if e.Some? && Upper(name) != "API" {
      LowerKeepsNoSlash(name);
    } else if e.None? {
      var (stem, ext) := StemAndExtension(name, isDirectory);
      assert forall c :: c in stem ==> c in name;
      assert forall c :: c in ext ==> c in name;
      PascalKeepsNoSlash(stem);
    }
  }

  /** A converted part holds no '/' when the part holds none. */
  lemma ConvertPartKeepsNoSlash(parts: seq<string>, i: nat)
    requires i < |parts| && '/' !in parts[i]
    ensures '/' !in ConvertPart(parts, i)
  {
    ConvertKeepsNoSlash(parts[i], i < |parts| - 1, Some(ParsePath(Join(parts[..i + 1], '/'))));
  }

  lemma ConvertedPartsStep(parts: seq<string>, i: nat)
    requires i < |parts|
    ensures ConvertedParts(parts, i + 1)
      == ConvertedParts(parts, i) + (if parts[i] != [] then [ConvertPart(parts, i)] else [])
  {
    assert Conversions(parts)[i] == ConvertPart(parts, i);
  }

  lemma {:induction false} AtNonEmptyCount(parts: seq<string>, conv: seq<string>, n: nat)
    requires n <= |parts| == |conv|
    ensures |AtNonEmpty(parts, conv, n)| == NonEmptyCount(parts, n)
  {
    if n > 0 {
      AtNonEmptyCount(parts, conv, n - 1);
    }
  }

  lemma {:induction false} AtNonEmptyNoSlash(parts: seq<string>, conv: seq<string>, n: nat)
    requires n <= |parts| == |conv|
    requires forall k :: 0 <= k < |conv| ==> '/' !in conv[k]
    ensures forall k :: 0 <= k < |AtNonEmpty(parts, conv, n)| ==> '/' !in AtNonEmpty(parts, conv, n)[k]
  {
    if n > 0 {
      AtNonEmptyNoSlash(parts, conv, n - 1);
    }
  }

  /** One converted part per non-empty part. */
  lemma ConvertedPartsCount(parts: seq<string>, n: nat)
    requires n <= |parts|
    ensures |ConvertedParts(parts, n)| == NonEmptyCount(parts, n)
  {
    AtNonEmptyCount(parts, Conversions(parts), n);
  }

  /** The converted parts hold no '/'. */
  lemma ConvertedPartsNoSlash(parts: seq<string>, n: nat)
    requires n <= |parts|
    requires forall k :: 0 <= k < |parts| ==> '/' !in parts[k]
    ensures forall k :: 0 <= k < |ConvertedParts(parts, n)| ==> '/' !in ConvertedParts(parts, n)[k]
  {
    var conv := Conversions(parts);
    forall k | 0 <= k < |conv| ensures '/' !in conv[k] {
      ConvertPartKeepsNoSlash(parts, k);
    }
    AtNonEmptyNoSlash(parts, conv, n);
  }

  /**
   * Every path with a non-empty segment makes the code as written raise,
   * while the intended conversion gives a path that splits back into one
   * converted segment per non-empty segment of the input, in order.
   */
  lemma ConvertPathDefect(path: string)
    requires NonEmptyCount(Split(path, '/'), |Split(path, '/')|) > 0
    ensures ConvertPathAsWritten(path) == Err(StrNotCallable)
    ensures var parts := Split(path, '/');
      Split(Join(ConvertedParts(parts, |parts|), '/'), '/') == ConvertedParts(parts, |parts|)
      && |ConvertedParts(parts, |parts|)| == NonEmptyCount(parts, |parts|)
  {
    var parts := Split(path, '/');
    ConvertedPartsCount(parts, |parts|);
    ConvertedPartsNoSlash(parts, |parts|);
    SplitJoin(ConvertedParts(parts, |parts|), '/');
  }

  /** `src/app.js` has two non-empty segments, so the code as written raises on it. */
  lemma SrcAppRaises()
    ensures NonEmptyCount(Split("src/app.js", '/'), |Split("src/app.js", '/')|) == 2
  {
    var path := "src/app.js";
    assert Split(path, '/') == ["src", "app.js"] by {
      SplitJoin(["src", "app.js"], '/');
      assert Join(["src", "app.js"], '/') == path;
    }
  }

  // ---- ProcessAllFiles ----

  /** An entry of the `Updates` folder: a regular file with the status its processing reported, or anything else. */
  datatype FolderEntry = RegularFile(status: string) | OtherEntry

  datatype Stats = Stats(moved: nat, skipped: nat, errors: nat, warnings: nat)

  /** What `ProcessAllFiles` returns: the folder is missing, it is empty, or its files were processed. */
  datatype ProcessOutcome = FolderMissing | NoFiles | Processed(stats: Stats, results: seq<string>)

  /** `Stats[status] += 1` if `status` is a key, else `Stats['errors'] += 1`. */
  function Count(s: Stats, status: string): Stats {
    if status == "moved" then s.(moved := s.moved + 1)
    else if status == "skipped" then s.(skipped := s.skipped + 1)
    else if status == "warnings" then s.(warnings := s.warnings + 1)
    else s.(errors := s.errors + 1)
  }

  /** The statuses of the regular files among `entries`, in order. */
  function Statuses(entries: seq<FolderEntry>): seq<string> {
    if entries == [] then []
    else
      var last := entries[|entries| - 1];
      Statuses(entries[..|entries| - 1]) + (if last.RegularFile? then [last.status] else [])
  }

  function StatsOf(statuses: seq<string>): Stats {
    if statuses == [] then Stats(0, 0, 0, 0) else Count(StatsOf(statuses[..|statuses| - 1]), statuses[|statuses| - 1])
  }

  function Sum(s: Stats): nat {
    s.moved + s.skipped + s.errors + s.warnings
  }

  /** The statuses `ProcessFile` can report. */
  predicate IsReportedStatus(status: string) {
    status == "moved" || status == "skipped" || status == "error" || status == "warning"
  }

  /**
   * Every processed file is counted once; with the statuses `ProcessFile`
   * reports, `error` and `warning` both land in `errors` (neither is a key of
   * `Stats`, whose key is `errors`) and `warnings` stays 0.
   */
  lemma {:induction false} StatsCountEveryFile(statuses: seq<string>)
    ensures Sum(StatsOf(statuses)) == |statuses|
    ensures (forall k :: 0 <= k < |statuses| ==> IsReportedStatus(statuses[k])) ==> StatsOf(statuses).warnings == 0
  {
    if statuses != [] {
      var init := statuses[..|statuses| - 1];
      StatsCountEveryFile(init);
      assert forall k :: 0 <= k < |init| ==> init[k] == statuses[k];
    }
  }

  /** `ProcessAllFiles` over the folder's entries, each file's status given by `ProcessFile`. */
  method ProcessAllFiles(folderExists: bool, entries: seq<FolderEntry>) returns (out: ProcessOutcome)
    ensures !folderExists ==> out == FolderMissing
    ensures folderExists && entries == [] ==> out == NoFiles
    ensures folderExists && entries != [] ==> out == Processed(StatsOf(Statuses(entries)), Statuses(entries))
    ensures out.Processed? ==> Sum(out.stats) == |out.results|
  {
    if !folderExists {
      return FolderMissing;
    }
    if entries == [] {
      return NoFiles;
    }
    var results: seq<string> := [];
    var stats := Stats(0, 0, 0, 0);
    for k := 0 to |entries|
      invariant results == Statuses(entries[..k])
      invariant stats == StatsOf(results)
    {
      assert entries[..k + 1][..k] == entries[..k];
      var e := entries[k];
      if e.RegularFile? {
        var status := e.status;
        assert (results + [status])[..|results|] == results;
        results := results + [status];
        if status == "moved" {
          stats := stats.(moved := stats.moved + 1);
        } else if status == "skipped" {
          stats := stats.(skipped := stats.skipped + 1);
        } else if status == "warnings" {
          stats := stats.(warnings := stats.warnings + 1);
        } else {
          stats := stats.(errors := stats.errors + 1);
        }
      }
    }
    assert entries[..|entries|] == entries;
    StatsCountEveryFile(results);
    out := Processed(stats, results);
  }
}
