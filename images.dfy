/** GET /images?name=...: the storefront's guard against path traversal.
    The untrusted name must pass a character filter, is joined onto
    <current directory>/public/images with Path.Combine, canonicalised with
    Path.GetFullPath, must then start with the base path's text
    (String.StartsWith, a plain prefix test) and must name an existing
    file. Paths are Unix paths: '/'-separated text. */
module Images {
  import opened Runtime
  import opened Http

  // ---------------------------------------------------------------------
  // The character filter ^[a-zA-Z0-9.\s]*$

  /** The characters .NET's \s matches: \t \n \v \f \r, U+0085 and the
      Unicode categories Zs, Zl and Zp. */
  predicate IsRegexSpace(c: char)
  {
    c == ' ' || '\t' <= c <= '\r' || c == '\U{85}' || c == '\U{A0}' || c == '\U{1680}' ||
    '\U{2000}' <= c <= '\U{200A}' || c == '\U{2028}' || c == '\U{2029}' || c == '\U{202F}' ||
    c == '\U{205F}' || c == '\U{3000}'
  }

  predicate IsNameChar(c: char)
  {
    'a' <= c <= 'z' || 'A' <= c <= 'Z' || '0' <= c <= '9' || c == '.' || IsRegexSpace(c)
  }

  /** Regex.IsMatch(name, @"^[a-zA-Z0-9.\s]*$"). */
  predicate PassesFilter(name: string)
    ensures PassesFilter(name) ==> '/' !in name && '\\' !in name && '\0' !in name && ',' !in name
  {
    forall i :: 0 <= i < |name| ==> IsNameChar(name[i])
  }

  // ---------------------------------------------------------------------
  // Path text and segments

  /** The text split at every '/': "" gives [""], "/a" gives ["", "a"]. */
  function Split(s: string): (r: seq<string>)
    ensures |r| >= 1
    ensures forall k :: 0 <= k < |r| ==> '/' !in r[k]
    ensures '\0' !in s ==> forall k :: 0 <= k < |r| ==> '\0' !in r[k]
  {
    if s == [] then [""]
    else
      var rest := Split(s[1..]);
      if s[0] == '/' then [""] + rest else [[s[0]] + rest[0]] + rest[1..]
  }

  /** The segments joined with '/'. */
  function Join(segs: seq<string>): string
  {
    if segs == [] then ""
    else if |segs| == 1 then segs[0]
    else Join(segs[..|segs| - 1]) + "/" + segs[|segs| - 1]
  }

  /** The absolute path text of a list of segments; the root is "/". */
  function Render(segs: seq<string>): string
  {
    "/" + Join(segs)
  }

  /** A segment of a canonical path: a name, not "" or "." or "..", with
      no '/' and no NUL. */
  predicate IsPlainSegment(s: string)
  {
    s != "" && s != "." && s != ".." && '/' !in s && '\0' !in s
  }

  predicate IsCanonical(segs: seq<string>)
  {
    forall k :: 0 <= k < |segs| ==> IsPlainSegment(segs[k])
  }

  /** Path.GetFullPath's collapsing of an absolute path's segments onto a
      stack: "" and "." are dropped, ".." removes the segment kept last
      (and stays at the root), any other segment is kept. */
  function Normalize(stack: seq<string>, rest: seq<string>): seq<string>
    decreases |rest|
  {
    if rest == [] then stack
    else if rest[0] == "" || rest[0] == "." then Normalize(stack, rest[1..])
    else if rest[0] == ".." then Normalize(if stack == [] then [] else stack[..|stack| - 1], rest[1..])
    else Normalize(stack + [rest[0]], rest[1..])
  }

  /** Path.GetFullPath on Unix: an empty path or one holding NUL throws;
      a relative path is taken from the current directory cwd. */
  function FullPath(cwd: seq<string>, path: string): (r: Outcome<string>)
    ensures r.Throws? <==> path == [] || '\0' in path
  {
    if path == [] || '\0' in path then Throws(ArgumentException)
    else if path[0] == '/' then Returns(Render(Normalize([], Split(path[1..]))))
    else Returns(Render(Normalize(cwd, Split(path))))
  }

  /** Path.Combine(path1, path2) on Unix. */
  function Combine(path1: string, path2: string): (r: string)
    ensures path2 == "" ==> r == path1
    ensures path2 != "" && (path1 == "" || path2[0] == '/') ==> r == path2
    ensures path1 != "" && path2 != "" && path2[0] != '/' ==>
      && path1 <= r && |path1| + |path2| <= |r| <= |path1| + 1 + |path2|
      && r[|r| - |path2|..] == path2 && r[|r| - |path2| - 1] == '/'
  {
    if path2 == [] then path1
    else if path1 == [] || path2[0] == '/' then path2
    else if path1[|path1| - 1] == '/' then path1 + path2
    else path1 + "/" + path2
  }

  // ---------------------------------------------------------------------
  // The resolver

  /** Directory.GetCurrentDirectory() + "/public/images". */
  function BasePath(cwd: seq<string>): string
  {
    Render(cwd) + "/public/images"
  }

  /** The segments of the image directory. */
  function BaseDir(cwd: seq<string>): seq<string>
  {
    cwd + ["public", "images"]
  }

  /** How a request for an image ends. */
  datatype Resolution =
    | InvalidName              // the filter refused the name
    | OutsideBase              // the canonical path does not start with the base path
    | NotFound                 // File.Exists is false
    | FileAt(path: string)     // the file that is sent
    | Threw(exception: Exception)

  /** The resolver: filter, join, canonicalise, prefix test, existence test.
      files holds the full paths of the existing regular files. */
  function ResolveImage(cwd: seq<string>, name: string, files: set<string>): (r: Resolution)
    ensures r.FileAt? ==> PassesFilter(name) && BasePath(cwd) <= r.path && r.path in files
    ensures !PassesFilter(name) <==> r == InvalidName
  {
    if !PassesFilter(name) then InvalidName
    else
      var basePath := BasePath(cwd);
      match FullPath(cwd, Combine(basePath, name))
      case Throws(e) => Threw(e)
      case Returns(filePath) =>
        if !(basePath <= filePath) then OutsideBase
        else if filePath !in files then NotFound
        else FileAt(filePath)
  }

  const InvalidImageName: string := "Invalid image name!"
  const ImageNotFound: string := "Image not found!"

  /** The /images endpoint: the query's name value, resolved, and the
      message or file each outcome answers with. */
  function ImagesEndpoint(cwd: seq<string>, query: StringValues, files: set<string>): (r: Response)
    ensures r.SendFile? ==> r.path in files && BasePath(cwd) <= r.path
  {
    match ResolveImage(cwd, ToStringOrEmpty(query), files)
    case InvalidName => Text(200, InvalidImageName)
    case OutsideBase => Text(200, InvalidImageName)
    case NotFound => Text(200, ImageNotFound)
    case FileAt(p) => SendFile(p)
    case Threw(e) => Crash(e)
  }

  // ---------------------------------------------------------------------
  // Lemmas about paths

  lemma {:induction false} SplitNoSlash(s: string)
    requires '/' !in s
    ensures Split(s) == [s]
  {
    if s != [] {
      SplitNoSlash(s[1..]);
      assert [s[0]] + s[1..] == s;
    }
  }

  lemma {:induction false} SplitConcat(a: string, b: string)
    ensures Split(a + "/" + b) == Split(a) + Split(b)
  {
    if a == [] {
      assert a + "/" + b == "/" + b;
      assert ("/" + b)[1..] == b;
    } else {
      assert (a + "/" + b)[0] == a[0];
      assert (a + "/" + b)[1..] == a[1..] + "/" + b;
      SplitConcat(a[1..], b);
    }
  }

  lemma {:induction false} SplitJoin(segs: seq<string>)
    requires |segs| >= 1
    requires forall k :: 0 <= k < |segs| ==> '/' !in segs[k]
    ensures Split(Join(segs)) == segs
  {
    if |segs| == 1 {
      SplitNoSlash(segs[0]);
    } else {
      var init := segs[..|segs| - 1];
      SplitJoin(init);
      SplitConcat(Join(init), segs[|segs| - 1]);
      SplitNoSlash(segs[|segs| - 1]);
      assert init + [segs[|segs| - 1]] == segs;
    }
  }

  /** Appending one segment to a non-empty path appends "/" and the segment to its text. */
  lemma RenderSnoc(segs: seq<string>, s: string)
    requires segs != []
    ensures Render(segs + [s]) == Render(segs) + "/" + s
  {
    assert (segs + [s])[..|segs|] == segs;
  }

  /** A character that is no separator and in no segment is not in the joined text. */
  lemma {:induction false} JoinAvoids(segs: seq<string>, c: char)
    requires c != '/'
    requires forall k :: 0 <= k < |segs| ==> c !in segs[k]
    ensures c !in Join(segs)
  {
    if |segs| > 1 {
      JoinAvoids(segs[..|segs| - 1], c);
    }
  }

  /** The joined text of canonical segments starts with the first segment's first character. */
  lemma {:induction false} JoinHead(segs: seq<string>)
    requires segs != [] && segs[0] != ""
    ensures |Join(segs)| > 0 && Join(segs)[0] == segs[0][0]
  {
    if |segs| > 1 {
      JoinHead(segs[..|segs| - 1]);
    }
  }

  lemma {:induction false} NormalizeAppend(stack: seq<string>, a: seq<string>, b: seq<string>)
    ensures Normalize(stack, a + b) == Normalize(Normalize(stack, a), b)
    decreases |a|
  {
    if a != [] {
      assert (a + b)[0] == a[0];
      assert (a + b)[1..] == a[1..] + b;
      var next := if a[0] == "" || a[0] == "." then stack
                  else if a[0] == ".." then (if stack == [] then [] else stack[..|stack| - 1])
                  else stack + [a[0]];
      NormalizeAppend(next, a[1..], b);
    } else {
      assert a + b == b;
    }
  }

  /** Canonical segments are kept as they are. */
  lemma {:induction false} NormalizeCanonical(stack: seq<string>, segs: seq<string>)
    requires IsCanonical(segs)
    ensures Normalize(stack, segs) == stack + segs
    decreases |segs|
  {
    if segs != [] {
      NormalizeCanonical(stack + [segs[0]], segs[1..]);
      assert stack + [segs[0]] + segs[1..] == stack + segs;
    }
  }

  /** Normalizing NUL-free segments onto a canonical stack gives a canonical path. */
  lemma {:induction false} NormalizeIsCanonical(stack: seq<string>, rest: seq<string>)
    requires IsCanonical(stack)
    requires forall k :: 0 <= k < |rest| ==> '/' !in rest[k] && '\0' !in rest[k]
    ensures IsCanonical(Normalize(stack, rest))
    decreases |rest|
  {
    if rest != [] {
      var next := if rest[0] == "" || rest[0] == "." then stack
                  else if rest[0] == ".." then (if stack == [] then [] else stack[..|stack| - 1])
                  else stack + [rest[0]];
      assert IsCanonical(next);
      NormalizeIsCanonical(next, rest[1..]);
    }
  }

  /** With a non-root working directory the base path text is the text of
      the image directory's segments. */
  lemma BasePathIsRendered(cwd: seq<string>)
    requires cwd != []
    ensures BasePath(cwd) == Render(BaseDir(cwd))
  {
    RenderSnoc(cwd, "public");
    RenderSnoc(cwd + ["public"], "images");
    assert cwd + ["public"] + ["images"] == BaseDir(cwd);
  }

  // ---------------------------------------------------------------------
  // What the resolver does with a name that passes the filter

  /** Where a name that passes the filter lands once canonicalised: the
      base directory itself for "" and ".", its parent for "..", and the
      entry of the base directory named by the name otherwise. */
  function Target(base: seq<string>, name: string): seq<string>
    requires base != []
  {
    if name == "" || name == "." then base
    else if name == ".." then base[..|base| - 1]
    else base + [name]
  }

  /** Canonicalising the text of segments that hold no separator and no
      NUL collapses them as Normalize does. */
  lemma {:induction false} FullPathOfRender(cwd: seq<string>, segs: seq<string>)
    requires segs != []
    requires forall k :: 0 <= k < |segs| ==> '/' !in segs[k] && '\0' !in segs[k]
    ensures FullPath(cwd, Render(segs)) == Returns(Render(Normalize([], segs)))
  {
    var text := Render(segs);
    assert text[1..] == Join(segs);
    SplitJoin(segs);
    JoinAvoids(segs, '\0');
  }

  /** Normalizing a canonical path followed by more segments starts from the canonical path. */
  lemma NormalizeAfterCanonical(base: seq<string>, more: seq<string>)
    requires IsCanonical(base)
    ensures Normalize([], base + more) == Normalize(base, more)
  {
    NormalizeAppend([], base, more);
    NormalizeCanonical([], base);
    assert [] + base == base;
  }

  /** An empty name leaves the base path as it is. */
  lemma {:induction false} ResolvedEmptyName(cwd: seq<string>)
    requires cwd != [] && IsCanonical(cwd)
    ensures FullPath(cwd, Combine(BasePath(cwd), "")) == Returns(Render(BaseDir(cwd)))
  {
    var base := BaseDir(cwd);
    BasePathIsRendered(cwd);
    FullPathOfRender(cwd, base);
    NormalizeAfterCanonical(base, []);
    assert base + [] == base;
  }

  /** A non-empty name free of separators is canonicalised as one more segment. */
  lemma {:induction false} ResolvedSegment(cwd: seq<string>, name: string)
    requires cwd != [] && IsCanonical(cwd)
    requires name != "" && '/' !in name && '\0' !in name
    ensures FullPath(cwd, Combine(BasePath(cwd), name)) == Returns(Render(Normalize(BaseDir(cwd), [name])))
  {
    var base := BaseDir(cwd);
    BasePathIsRendered(cwd);
    var text := Render(base);
    assert text[|text| - 1] == 's';
    RenderSnoc(base, name);
    assert Combine(text, name) == Render(base + [name]);
    FullPathOfRender(cwd, base + [name]);
    NormalizeAfterCanonical(base, [name]);
  }

  /** A name that passes the filter is joined on as ONE segment: after
      canonicalisation it is the base directory, its parent or one entry
      of it, never anywhere else. */
  lemma {:induction false} ResolvedPath(cwd: seq<string>, name: string)
    requires cwd != [] && IsCanonical(cwd)
    requires PassesFilter(name)
    ensures FullPath(cwd, Combine(BasePath(cwd), name)) == Returns(Render(Target(BaseDir(cwd), name)))
  {
    if name == "" {
      ResolvedEmptyName(cwd);
    } else {
      ResolvedSegment(cwd, name);
      assert [name][1..] == [];
    }
  }

  /** The plain prefix test refuses exactly ".." among the names that pass
      the filter. */
  lemma {:induction false} PrefixTestRefusesOnlyParent(cwd: seq<string>, name: string)
    requires cwd != [] && IsCanonical(cwd)
    requires PassesFilter(name)
    ensures BasePath(cwd) <= Render(Target(BaseDir(cwd), name)) <==> name != ".."
  {
    var base := BaseDir(cwd);
    BasePathIsRendered(cwd);
    if name == ".." {
      var parent := base[..|base| - 1];
      assert parent == cwd + ["public"];
      RenderSnoc(parent, "images");
      assert parent + ["images"] == base;
    } else if name != "" && name != "." {
      RenderSnoc(base, name);
    }
  }

  /** No sibling-directory bypass: for a name that passes the filter, the
      source's plain StartsWith test agrees with a separator-aware
      containment test (equal to the base path, or below it). */
  lemma {:induction false} PrefixTestIsSeparatorAware(cwd: seq<string>, name: string)
    requires cwd != [] && IsCanonical(cwd)
    requires PassesFilter(name)
    ensures var p := Render(Target(BaseDir(cwd), name));
      BasePath(cwd) <= p <==> (p == BasePath(cwd) || BasePath(cwd) + "/" <= p)
  {
    var base := BaseDir(cwd);
    BasePathIsRendered(cwd);
    PrefixTestRefusesOnlyParent(cwd, name);
    if name != "" && name != "." && name != ".." {
      RenderSnoc(base, name);
    }
  }

  /** Every outcome of the resolver, for a non-root working directory. */
  lemma {:induction false} ResolveImageOutcomes(cwd: seq<string>, name: string, files: set<string>)
    requires cwd != [] && IsCanonical(cwd)
    ensures var r := ResolveImage(cwd, name, files);
      var p := if PassesFilter(name) then Render(Target(BaseDir(cwd), name)) else "";
      && (r == InvalidName <==> !PassesFilter(name))
      && (r == OutsideBase <==> PassesFilter(name) && name == "..")
      && (r == NotFound <==> PassesFilter(name) && name != ".." && p !in files)
      && (r.FileAt? <==> PassesFilter(name) && name != ".." && p in files)
      && (r.FileAt? ==> r.path == p)
      && !r.Threw?
  {
    if PassesFilter(name) {
      ResolvedPath(cwd, name);
      PrefixTestRefusesOnlyParent(cwd, name);
    }
  }

  /** A file is sent only for a name that passes the filter, and it is
      the entry of the image directory with that very name; the image
      directory itself is never sent as it is not a regular file. */
  lemma {:induction false} SentFileIsEntryOfBase(cwd: seq<string>, query: StringValues, files: set<string>)
    requires cwd != [] && IsCanonical(cwd)
    requires Render(BaseDir(cwd)) !in files
    requires ImagesEndpoint(cwd, query, files).SendFile?
    ensures var name := ToStringOrEmpty(query);
      PassesFilter(name) && IsPlainSegment(name) &&
      ImagesEndpoint(cwd, query, files).path == Render(BaseDir(cwd) + [name])
  {
    var name := ToStringOrEmpty(query);
    ResolveImageOutcomes(cwd, name, files);
  }

  /** A name that resolves to the image directory itself ("" or ".", also a
      request without a name) is answered "Image not found!". */
  lemma {:induction false} DirectoryIsNotFound(cwd: seq<string>, query: StringValues, files: set<string>)
    requires cwd != [] && IsCanonical(cwd)
    requires Render(BaseDir(cwd)) !in files
    requires ToStringOrEmpty(query) in {"", "."}
    ensures ImagesEndpoint(cwd, query, files) == Text(200, ImageNotFound)
  {
    ResolveImageOutcomes(cwd, ToStringOrEmpty(query), files);
  }

  /** Two or more non-empty names in the query are joined with a comma,
      which the filter refuses. */
  lemma RepeatedNameRefused(cwd: seq<string>, query: StringValues, files: set<string>)
    requires |NonEmpty(query)| >= 2
    ensures ImagesEndpoint(cwd, query, files) == Text(200, InvalidImageName)
  {
    var name := ToStringOrEmpty(query);
    var i :| 0 <= i < |name| && name[i] == ',';
    assert !IsNameChar(name[i]);
  }

  /** Empty repeats of `name` are skipped by the conversion: a query whose
      only non-empty name is `name` is answered as if `name` were given once. */
  lemma BlankNamesIgnored(cwd: seq<string>, query: StringValues, name: string, files: set<string>)
    requires NonEmpty(query) == [name]
    ensures ImagesEndpoint(cwd, query, files) == ImagesEndpoint(cwd, [name], files)
  {
  }

  /** The canonical text of an absolute path never starts with "//". */
  lemma {:induction false} CanonicalTextHasNoDoubleSlash(cwd: seq<string>, path: string)
    requires path != [] && path[0] == '/' && '\0' !in path
    ensures FullPath(cwd, path).Returns?
    ensures var p := FullPath(cwd, path).value; |p| < 2 || p[1] != '/'
  {
    var segs := Normalize([], Split(path[1..]));
    NormalizeIsCanonical([], Split(path[1..]));
    if segs != [] {
      JoinHead(segs);
    }
  }

  /** With the root as working directory the base path text is
      "//public/images", which no canonical path starts with: every name
      is refused. */
  lemma {:induction false} RootWorkingDirectoryRefusesAll(name: string, files: set<string>)
    ensures ResolveImage([], name, files) in {InvalidName, OutsideBase}
  {
    if PassesFilter(name) {
      var basePath := BasePath([]);
      assert basePath == "//public/images";
      var combined := Combine(basePath, name);
      assert basePath <= combined;
      assert '\0' !in combined by {
        assert combined == basePath || combined == basePath + "/" + name;
      }
      CanonicalTextHasNoDoubleSlash([], combined);
      assert basePath[1] == '/';
    }
  }

  /** Regrouping the pieces of "../<sibling>/<file>" joined onto a path. */
  lemma CombinedPieces(text: string, sibling: string, file: string)
    ensures text + "/" + ("../" + sibling + "/" + file) == text + "/" + ".." + "/" + sibling + "/" + file
  {
    assert "../" == ".." + "/";
  }

  /** The text Path.Combine builds for "../<sibling>/<file>". */
  lemma {:induction false} SiblingCombined(cwd: seq<string>, sibling: string, file: string)
    requires cwd != []
    ensures Combine(BasePath(cwd), "../" + sibling + "/" + file) == Render(BaseDir(cwd) + ["..", sibling, file])
  {
    var base := BaseDir(cwd);
    var text := Render(base);
    var name := "../" + sibling + "/" + file;
    assert BasePath(cwd) == text by {
      BasePathIsRendered(cwd);
    }
    assert Combine(text, name) == text + "/" + name by {
      assert text[|text| - 1] == 's';
      assert name[0] == '.';
    }
    CombinedPieces(text, sibling, file);
    var up := base + [".."];
    var sub := up + [sibling];
    RenderSnoc(base, "..");
    RenderSnoc(up, sibling);
    RenderSnoc(sub, file);
    assert sub + [file] == base + ["..", sibling, file];
  }

  /** "..", then two plain segments, applied to the images directory. */
  lemma NormalizeSibling(cwd: seq<string>, sibling: string, file: string)
    requires IsPlainSegment(sibling) && IsPlainSegment(file)
    ensures Normalize(BaseDir(cwd), ["..", sibling, file]) == cwd + ["public", sibling, file]
  {
    var base := BaseDir(cwd);
    assert base[..|base| - 1] == cwd + ["public"];
    assert ["..", sibling, file][1..] == [sibling, file];
    assert Normalize(base, ["..", sibling, file]) == Normalize(cwd + ["public"], [sibling, file]);
    assert [sibling, file][1..] == [file];
    assert cwd + ["public"] + [sibling] == cwd + ["public", sibling];
    assert Normalize(cwd + ["public"], [sibling, file]) == Normalize(cwd + ["public", sibling], [file]);
    assert cwd + ["public", sibling] + [file] == cwd + ["public", sibling, file];
  }

  /** "../<sibling>/<file>" canonicalises into the sibling directory of the images directory. */
  lemma {:induction false} SiblingResolved(cwd: seq<string>, sibling: string, file: string)
    requires cwd != [] && IsCanonical(cwd)
    requires IsPlainSegment(sibling) && IsPlainSegment(file)
    ensures FullPath(cwd, Render(BaseDir(cwd) + ["..", sibling, file])) == Returns(Render(cwd + ["public", sibling, file]))
  {
    var base := BaseDir(cwd);
    assert IsCanonical(base);
    var segs := base + ["..", sibling, file];
    assert forall k :: 0 <= k < |segs| ==> '/' !in segs[k] && '\0' !in segs[k];
    FullPathOfRender(cwd, segs);
    NormalizeAfterCanonical(base, ["..", sibling, file]);
    NormalizeSibling(cwd, sibling, file);
  }

  /** Regrouping the pieces of a sibling's path text. */
  lemma SiblingTextPieces(root: string, suffix: string, file: string)
    ensures root + "/" + "public" + "/" + ("images" + suffix) + "/" + file ==
            root + "/public/images" + suffix + "/" + file
  {
    assert "/" + "public" + "/" + "images" == "/public/images";
  }

  /** The sibling's text extends the base path's text. */
  lemma {:induction false} SiblingText(cwd: seq<string>, suffix: string, file: string)
    requires cwd != []
    ensures Render(cwd + ["public", "images" + suffix, file]) == BasePath(cwd) + suffix + "/" + file
  {
    var sibling := "images" + suffix;
    var dir := cwd + ["public"];
    var sub := cwd + ["public", sibling];
    assert dir + [sibling] == sub;
    assert sub + [file] == cwd + ["public", sibling, file];
    RenderSnoc(cwd, "public");
    RenderSnoc(dir, sibling);
    RenderSnoc(sub, file);
    SiblingTextPieces(Render(cwd), suffix, file);
  }

  /** Without the filter the plain prefix test would be bypassed by a
      sibling directory: "../images-evil/x" canonicalises to a path that
      starts with the base path's text but lies outside the base. The
      filter refuses every such name. */
  lemma {:induction false} SiblingBypassNeedsFilter(cwd: seq<string>, suffix: string, file: string)
    requires cwd != [] && IsCanonical(cwd)
    requires suffix != "" && IsPlainSegment("images" + suffix) && IsPlainSegment(file)
    ensures var name := "../" + ("images" + suffix) + "/" + file;
      var p := Render(cwd + ["public", "images" + suffix, file]);
      && FullPath(cwd, Combine(BasePath(cwd), name)) == Returns(p)
      && BasePath(cwd) <= p
      && !(BasePath(cwd) + "/" <= p)
      && !PassesFilter(name)
  {
    var sibling := "images" + suffix;
    var name := "../" + sibling + "/" + file;
    SiblingCombined(cwd, sibling, file);
    SiblingResolved(cwd, sibling, file);
    SiblingText(cwd, suffix, file);
    var p := BasePath(cwd) + suffix + "/" + file;
    assert suffix[0] in sibling;
    assert p[|BasePath(cwd)|] == suffix[0];
    assert name[2] == '/' && !IsNameChar(name[2]);
  }
}
