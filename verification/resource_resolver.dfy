/** The schema resource resolver used when validating XML against schemas
    that include other schemas: each schema file name is resolved once,
    relative paths with leading "../" are normalised against the path of
    the including schema, and the directory every resolved name was found
    in is remembered. Reading the resource is a parameter saying whether
    the normalised path can be opened. */
module ResourceResolvers {
  import opened Wrappers
  import JS = JavaStrings

  /** `File.separator` on the platforms the program runs on. */
  const SEPARATOR := "/"

  /** The resolver: the schema base path and the resource-name to
      directory map. */
  datatype Resolver = Resolver(schemaBasePath: string, pathMap: map<string, string>)

  function NewResolver(schemaBasePath: string): (r: Resolver)
    ensures r.schemaBasePath == schemaBasePath && r.pathMap == map[]
  {
    Resolver(schemaBasePath, map[])
  }

  predicate EndsWithSlashOrEmpty(s: string) {
    s == "" || s[|s| - 1] == '/'
  }

  // ---------------------------------------------------------------------
  // Path normalisation
  // ---------------------------------------------------------------------

  /** One step of the "../" loop: drop the last character, then keep
      everything up to and including the last '/'. On an empty base path
      `substring(0, -1)` throws. */
  function ParentDir(base: string): (r: Result<string, string>)
    ensures r.Failure? <==> base == ""
    ensures r.Success? ==> |r.value| < |base| && r.value == base[..|r.value|]
    ensures r.Success? ==> EndsWithSlashOrEmpty(r.value)
    ensures r.Success? ==> JS.Avoids(base[|r.value|..|base| - 1], '/')
  {
    if base == "" then Failure("StringIndexOutOfBoundsException")
    else
      var t := base[..|base| - 1];
      var i := JS.LastIndexOf(t, "/");
      JS.LastIndexOfSingle(t, "/");
      assert base[i + 1..|base| - 1] == t[i + 1..];
      Success(base[..i + 1])
  }

  /** The last '/' of `p + c` is the last character of `p`, or there is
      none when `p` is empty. */
  lemma LastSlash(p: string, c: string)
    requires EndsWithSlashOrEmpty(p) && JS.Avoids(c, '/')
    ensures JS.LastIndexOf(p + c, "/") == |p| - 1
  {
    var s := p + c;
    forall j | |p| <= j < |s| ensures !JS.OccursAt(s, "/", j) {
      assert s[j] == c[j - |p|];
    }
    if p != "" {
      assert JS.OccursAt(s, "/", |p| - 1) by { assert s[|p| - 1..|p|] == [p[|p| - 1]]; }
    }
  }

  /** The parent of `p + c` or `p + c + "/"` is `p`, for a directory path
      `p` and a non-empty component `c`. */
  lemma ParentOfChild(p: string, c: string, trailing: bool)
    requires EndsWithSlashOrEmpty(p) && JS.Avoids(c, '/') && c != ""
    ensures ParentDir(p + c + (if trailing then "/" else "")) == Success(p)
  {
    var base := p + c + (if trailing then "/" else "");
    var t := base[..|base| - 1];
    if trailing {
      assert t == p + c;
      LastSlash(p, c);
    } else {
      assert t == p + c[..|c| - 1];
      LastSlash(p, c[..|c| - 1]);
    }
    assert base[..|p|] == p;
  }

  /** The number of leading "../" of a relative path. */
  function Ups(rel: string): (n: nat)
    ensures 3 * n <= |rel|
    decreases |rel|
  {
    if JS.StartsWith(rel, "../") then 1 + Ups(rel[3..]) else 0
  }

  /** The relative path after its leading "../" are removed. */
  function Rest(rel: string): (r: string)
    ensures !JS.StartsWith(r, "../")
    ensures r == rel[3 * Ups(rel)..]
    decreases |rel|
  {
    if JS.StartsWith(rel, "../") then Rest(rel[3..]) else rel
  }

  /** `getNormalizedPath(base, rel)`: base, separator and relative path,
      after each leading "../" has moved the base one directory up. */
  function Normalize(base: string, rel: string): (r: Result<string, string>)
    ensures !JS.StartsWith(rel, "../") ==> r == Success(base + SEPARATOR + rel)
    ensures r.Failure? ==> Ups(rel) > 0
    decreases |rel|
  {
    if !JS.StartsWith(rel, "../") then Success(base + SEPARATOR + rel)
    else
      var parent :- ParentDir(base);
      Normalize(parent, rel[3..])
  }

  /** `r` is a prefix of `base`, the separator and `rest`; the prefix is
      all of `base` unless the base was moved up, and then it is a
      directory path shorter than `base`. */
  predicate NormalizedFrom(r: string, base: string, rest: string, moved: bool) {
    |r| > |rest| && |r| - |rest| - 1 <= |base| &&
    var n := |r| - |rest| - 1;
    r[n..] == SEPARATOR + rest && r[..n] == base[..n] &&
    (!moved ==> n == |base|) &&
    (moved ==> n < |base| && EndsWithSlashOrEmpty(r[..n]))
  }

  /** A normalised path is a prefix of the base path, the separator and
      the relative path without its "../"; each "../" shortened the base
      to a directory path. */
  lemma {:induction false} NormalizeShape(base: string, rel: string)
    requires Normalize(base, rel).Success?
    ensures NormalizedFrom(Normalize(base, rel).value, base, Rest(rel), Ups(rel) > 0)
    decreases |rel|
  {
    var r := Normalize(base, rel).value;
    if JS.StartsWith(rel, "../") {
      var parent := ParentDir(base).value;
      assert r == Normalize(parent, rel[3..]).value;
      NormalizeShape(parent, rel[3..]);
      assert Rest(rel) == Rest(rel[3..]);
      var n := |r| - |Rest(rel)| - 1;
      assert r[..n] == parent[..n];
    } else {
      assert r == base + SEPARATOR + rel;
    }
  }

  /** Moving a relative path one directory up cancels one component of the
      base path. */
  lemma NormalizeUp(p: string, c: string, trailing: bool, rel: string)
    requires EndsWithSlashOrEmpty(p) && JS.Avoids(c, '/') && c != ""
    ensures Normalize(p + c + (if trailing then "/" else ""), "../" + rel) == Normalize(p, rel)
  {
    ParentOfChild(p, c, trailing);
    assert JS.StartsWith("../" + rel, "../");
    assert ("../" + rel)[3..] == rel;
  }

  /** The loop of `getNormalizedPath`, as written. */
  method NormalizedPath(basePath: string, relativePath: string) returns (r: Result<string, string>)
    ensures r == Normalize(basePath, relativePath)
  {
    if !JS.StartsWith(relativePath, "../") {
      return Success(basePath + SEPARATOR + relativePath);
    }
    var base := basePath;
    var rel := relativePath;
    while JS.StartsWith(rel, "../")
      invariant Normalize(base, rel) == Normalize(basePath, relativePath)
      decreases |rel|
    {
      if base == "" {
        return Failure("StringIndexOutOfBoundsException");
      }
      base := base[..JS.LastIndexOf(base[..|base| - 1], "/") + 1];
      rel := rel[3..];
    }
    return Success(base + SEPARATOR + rel);
  }

  // ---------------------------------------------------------------------
  // Resolving a resource
  // ---------------------------------------------------------------------

  /** The text after the last '/' (`s.substring(s.lastIndexOf("/") + 1)`). */
  function ResourceName(s: string): (r: string)
    ensures JS.Avoids(r, '/') && JS.EndsWith(s, r)
  {
    var i := JS.LastIndexOf(s, "/");
    JS.LastIndexOfSingle(s, "/");
    s[i + 1..]
  }

  /** The resource name is everything after the last '/': the character
      before it is a '/' unless the name is the whole ID. */
  lemma ResourceNameAfterLastSlash(s: string)
    ensures var r := ResourceName(s); |r| < |s| ==> s[|s| - |r| - 1] == '/'
  {
    JS.LastIndexOfSingle(s, "/");
  }

  /** The system ID without a leading "./". */
  function Stripped(systemId: string): (r: string)
    ensures JS.StartsWith(systemId, "./") ==> r == systemId[2..]
    ensures !JS.StartsWith(systemId, "./") ==> r == systemId
  {
    if JS.StartsWith(systemId, "./") then systemId[2..] else systemId
  }

  /** The directory of the including schema: what the map holds for its
      name, or the schema base path (also when there is no base URI). */
  function BaseResourcePath(res: Resolver, baseURI: Option<string>): (r: string)
    ensures baseURI.Some? && ResourceName(baseURI.value) in res.pathMap ==> r == res.pathMap[ResourceName(baseURI.value)]
    ensures baseURI.None? || ResourceName(baseURI.value) !in res.pathMap ==> r == res.schemaBasePath
  {
    if baseURI.Some? && ResourceName(baseURI.value) in res.pathMap then res.pathMap[ResourceName(baseURI.value)]
    else res.schemaBasePath
  }

  /** What `LSInputImpl` is built from; the stream's content is left out. */
  datatype Input = Input(publicId: Option<string>, systemId: string)

  /** The resolver after the call and what the call returned (`None` for
      the null of an already resolved name) or raised. */
  datatype Resolution = Resolution(resolver: Resolver, input: Result<Option<Input>, string>)

  /** The scanner over the opened stream: a null stream throws in the
      constructor, an empty one in `next()`, which finds no token; any
      other text gives the input. */
  function ReadInput(text: Option<string>, publicId: Option<string>, sys: string): (r: Result<Option<Input>, string>)
    ensures r.Success? <==> text.Some? && |text.value| > 0
    ensures r.Success? ==> r.value == Some(Input(publicId, sys))
    ensures text.None? ==> r == Failure("NullPointerException")
    ensures text == Some("") ==> r == Failure("NoSuchElementException")
  {
    match text
    case None => Failure("NullPointerException")
    case Some(t) => if |t| == 0 then Failure("NoSuchElementException") else Success(Some(Input(publicId, sys)))
  }

  /** `resolveResource`. `open(path)` is the text of the normalised path as
      the class loader or else the file system reads it, and `None` when
      neither can open it. The map is updated first; then a null stream
      makes the scanner's constructor throw, and an empty text makes its
      `next()` throw, since there is no token to return. */
  function ResolveResource(res: Resolver, publicId: Option<string>, systemId: string, baseURI: Option<string>,
                           open: string -> Option<string>): (r: Resolution)
    ensures r.resolver.schemaBasePath == res.schemaBasePath
    // a name seen before is not resolved again
    ensures ResourceName(systemId) in res.pathMap ==> r == Resolution(res, Success(None))
  {
    var name := ResourceName(systemId);
    if name in res.pathMap then Resolution(res, Success(None))
    else
      var sys := Stripped(systemId);
      var basePath := BaseResourcePath(res, baseURI);
      match Normalize(basePath, sys)
      case Failure(e) => Resolution(res, Failure(e))
      case Success(path) =>
        var pathMap :=
          if JS.Contains(sys, "/") then res.pathMap[name := path[..JS.LastIndexOf(path, "/") + 1]]
          else (KeyIsResourceName(systemId); res.pathMap[sys := basePath]);
        Resolution(res.(pathMap := pathMap), ReadInput(open(path), publicId, sys))
  }

  /** A new name whose path does not normalise changes nothing and
      raises the normalisation's error. */
  lemma ResolveResourceFails(res: Resolver, publicId: Option<string>, systemId: string, baseURI: Option<string>,
                             open: string -> Option<string>)
    ensures var n := Normalize(BaseResourcePath(res, baseURI), Stripped(systemId));
      ResourceName(systemId) !in res.pathMap && n.Failure? ==>
      ResolveResource(res, publicId, systemId, baseURI, open) == Resolution(res, Failure(n.error))
  {
  }

  /** A new name whose path normalises and holds a '/' is recorded with
      the normalised path up to its last '/'. */
  lemma ResolveResourceRecordsDir(res: Resolver, publicId: Option<string>, systemId: string, baseURI: Option<string>,
                                  open: string -> Option<string>)
    ensures var n := Normalize(BaseResourcePath(res, baseURI), Stripped(systemId));
      ResourceName(systemId) !in res.pathMap && n.Success? && JS.Contains(Stripped(systemId), "/") ==>
      ResolveResource(res, publicId, systemId, baseURI, open).resolver.pathMap
        == res.pathMap[ResourceName(systemId) := n.value[..JS.LastIndexOf(n.value, "/") + 1]]
  {
    var name := ResourceName(systemId);
    var n := Normalize(BaseResourcePath(res, baseURI), Stripped(systemId));
    if name !in res.pathMap && n.Success? && JS.Contains(Stripped(systemId), "/") {
      var dir := n.value[..JS.LastIndexOf(n.value, "/") + 1];
      assert ResolveResource(res, publicId, systemId, baseURI, open).resolver == res.(pathMap := res.pathMap[name := dir]);
    }
  }

  /** A new name whose path normalises and has no '/' is recorded with the
      including schema's directory. */
  lemma ResolveResourceRecordsBase(res: Resolver, publicId: Option<string>, systemId: string, baseURI: Option<string>,
                                   open: string -> Option<string>)
    ensures var n := Normalize(BaseResourcePath(res, baseURI), Stripped(systemId));
      ResourceName(systemId) !in res.pathMap && n.Success? && !JS.Contains(Stripped(systemId), "/") ==>
      ResolveResource(res, publicId, systemId, baseURI, open).resolver.pathMap
        == res.pathMap[ResourceName(systemId) := BaseResourcePath(res, baseURI)]
  {
    var name := ResourceName(systemId);
    var n := Normalize(BaseResourcePath(res, baseURI), Stripped(systemId));
    if name !in res.pathMap && n.Success? && !JS.Contains(Stripped(systemId), "/") {
      KeyIsResourceName(systemId);
      var dir := BaseResourcePath(res, baseURI);
      assert ResolveResource(res, publicId, systemId, baseURI, open).resolver == res.(pathMap := res.pathMap[name := dir]);
    }
  }

  /** A new name whose path normalises returns the input exactly when the
      normalised path opens and is not empty; a path that does not open
      raises a `NullPointerException`, an empty one a
      `NoSuchElementException`. */
  lemma ResolveResourceInput(res: Resolver, publicId: Option<string>, systemId: string, baseURI: Option<string>,
                             open: string -> Option<string>)
    ensures var n := Normalize(BaseResourcePath(res, baseURI), Stripped(systemId));
      var r := ResolveResource(res, publicId, systemId, baseURI, open);
      ResourceName(systemId) !in res.pathMap && n.Success? ==>
      (r.input.Success? <==> open(n.value).Some? && |open(n.value).value| > 0) &&
      (r.input.Success? ==> r.input.value == Some(Input(publicId, Stripped(systemId)))) &&
      (open(n.value).None? ==> r.input == Failure("NullPointerException")) &&
      (open(n.value) == Some("") ==> r.input == Failure("NoSuchElementException"))
  {
  }

  /** A stripped system ID without '/' is the resource name itself, so the
      source's two `put` calls use the same key. */
  lemma KeyIsResourceName(systemId: string)
    requires !JS.Contains(Stripped(systemId), "/")
    ensures Stripped(systemId) == ResourceName(systemId)
  {
    var sys := Stripped(systemId);
    assert JS.Avoids(sys, '/') by {
      forall j | 0 <= j < |sys| ensures sys[j] != '/' {
        assert !JS.OccursAt(sys, "/", j) && sys[j..j + 1] == [sys[j]];
      }
    }
    if JS.StartsWith(systemId, "./") {
      assert systemId == "./" + sys;
      LastSlash("./", sys);
    } else {
      LastSlash("", sys);
      assert "" + sys == systemId;
    }
  }

  /** A resolution that got as far as normalising the path remembers the
      name, so resolving any system ID with the same name again returns
      null and changes nothing. */
  lemma ResolvedOnce(res: Resolver, publicId: Option<string>, systemId: string, baseURI: Option<string>,
                     open: string -> Option<string>, publicId2: Option<string>, systemId2: string,
                     baseURI2: Option<string>, open2: string -> Option<string>)
    ensures (ResourceName(systemId) !in res.pathMap
             && Normalize(BaseResourcePath(res, baseURI), Stripped(systemId)).Success?
             && ResourceName(systemId2) == ResourceName(systemId)) ==>
      var first := ResolveResource(res, publicId, systemId, baseURI, open);
      ResolveResource(first.resolver, publicId2, systemId2, baseURI2, open2) == Resolution(first.resolver, Success(None))
  {
    ResolveResourceRecordsDir(res, publicId, systemId, baseURI, open);
    ResolveResourceRecordsBase(res, publicId, systemId, baseURI, open);
  }
}
