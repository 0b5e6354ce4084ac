/** The path strings `pathlib.PurePosixPath` prints. A path is split at its
    slashes; empty and `.` components are dropped (`..` is kept); exactly
    two leading slashes survive as the root `//`, one or three or more
    become `/`; a relative path without components prints as `.`. */
module PosixPaths {
  // Only the language-neutral text helpers are used: `RawSplit` keeps every
  // piece, empty ones included, as Python's `str.split` does; `Join` and
  // `Avoids` are plain joining and character absence.
  import JS = JavaStrings

  /** A component of a printed path: not empty, not `.`, without a slash. */
  predicate IsComponent(n: string) {
    |n| > 0 && n != "." && JS.Avoids(n, '/')
  }

  predicate AllComponents(ps: seq<string>) {
    forall i :: 0 <= i < |ps| ==> IsComponent(ps[i])
  }

  /** The anchor of `s`. */
  function Root(s: string): (r: string)
    ensures r == "" || r == "/" || r == "//"
  {
    if |s| >= 2 && s[0] == '/' && s[1] == '/' && (|s| == 2 || s[2] != '/') then "//"
    else if |s| >= 1 && s[0] == '/' then "/"
    else ""
  }

  /** The pieces that are components, in order. The pieces between
      slashes hold no slash, so this drops exactly the empty and `.`
      pieces. */
  function Components(pieces: seq<string>): (ps: seq<string>)
    ensures AllComponents(ps) && |ps| <= |pieces|
  {
    if |pieces| == 0 then []
    else (if IsComponent(pieces[0]) then [pieces[0]] else []) + Components(pieces[1..])
  }

  /** The components of `s` (`PurePosixPath(s).parts` without the root). */
  function Parts(s: string): seq<string> {
    Components(JS.RawSplit(s, "/"))
  }

  /** `str()` of a path with this root and these components. */
  function Format(root: string, ps: seq<string>): string {
    if |ps| == 0 then (if root == "" then "." else root)
    else root + JS.Join(ps, "/")
  }

  /** `str(PurePosixPath(s))`. */
  function Normalize(s: string): (r: string)
    ensures |r| > 0
  {
    Format(Root(s), Parts(s))
  }

  /** A path string as `pathlib` prints it: normalising changes nothing. */
  predicate Normal(p: string) {
    Normalize(p) == p
  }

  /** `dir / name` for a printed directory and one component:
      `Path('.') / name` is `name`, a bare root is followed directly. */
  function Child(dir: string, name: string): string {
    if dir == "." then name
    else if dir == "/" || dir == "//" then dir + name
    else dir + "/" + name
  }

  /** `Path.name`: the last component, or `""` when there is none. */
  function Name(p: string): string {
    var ps := Parts(p);
    if |ps| == 0 then "" else ps[|ps| - 1]
  }

  // ----- properties -----

  lemma {:induction false} ComponentsOfComponents(ps: seq<string>)
    requires AllComponents(ps)
    ensures Components(ps) == ps
    decreases |ps|
  {
    if |ps| > 0 {
      ComponentsOfComponents(ps[1..]);
    }
  }

  lemma {:induction false} JoinStart(ps: seq<string>)
    requires |ps| >= 1 && |ps[0]| > 0
    ensures |JS.Join(ps, "/")| > 0 && JS.Join(ps, "/")[0] == ps[0][0]
    decreases |ps|
  {
  }

  lemma {:induction false} JoinAppend(ps: seq<string>, n: string)
    requires |ps| >= 1
    ensures JS.Join(ps + [n], "/") == JS.Join(ps, "/") + "/" + n
    decreases |ps|
  {
    if |ps| == 1 {
      assert ps + [n] == [ps[0], n];
      assert JS.Join([n], "/") == n;
    } else {
      assert (ps + [n])[1..] == ps[1..] + [n];
      JoinAppend(ps[1..], n);
    }
  }

  /** The pieces of `"/" + s` are an empty one, then those of `s`. */
  lemma RawSplitSlash(s: string)
    ensures JS.RawSplit("/" + s, "/") == [""] + JS.RawSplit(s, "/")
  {
    JS.RawSplitCons("", "/", s);
  }

  /** Formatting and reading back give the root and the components. */
  lemma FormatRoundTrip(root: string, ps: seq<string>)
    requires root == "" || root == "/" || root == "//"
    requires AllComponents(ps)
    ensures Root(Format(root, ps)) == root && Parts(Format(root, ps)) == ps
  {
    if |ps| == 0 {
      FormatRoundTripBare(root);
    } else {
      FormatRoundTripJoined(root, ps);
    }
  }

  /** A root alone, or `.`, reads back as that root without components. */
  lemma FormatRoundTripBare(root: string)
    requires root == "" || root == "/" || root == "//"
    ensures Root(Format(root, [])) == root && Parts(Format(root, [])) == []
  {
    JS.RawSplitNoDelimiter(".", "/");
    JS.RawSplitNoDelimiter("", "/");
    if root == "/" {
      RawSplitSlash("");
      assert "/" + "" == "/";
      assert Components(["", ""]) == Components([""]) == [];
    } else if root == "//" {
      RawSplitSlash("/");
      RawSplitSlash("");
      assert "/" + "/" == "//" && "/" + "" == "/";
      assert JS.RawSplit("//", "/") == ["", "", ""];
      assert Components(["", "", ""]) == Components(["", ""]) == Components([""]) == [];
    } else {
      assert Components(["."]) == [];
    }
  }

  /** A root followed by joined components reads back as both. */
  lemma FormatRoundTripJoined(root: string, ps: seq<string>)
    requires root == "" || root == "/" || root == "//"
    requires AllComponents(ps) && |ps| > 0
    ensures Root(Format(root, ps)) == root && Parts(Format(root, ps)) == ps
  {
    JoinParts(ps);
    var j := JS.Join(ps, "/");
    if root == "/" {
      RootedParts(j);
      assert Format(root, ps) == "/" + j;
    } else if root == "//" {
      RootedParts("/" + j);
      RootedParts(j);
      var t := "//" + j;
      assert t == Format(root, ps) && t == "/" + ("/" + j);
      assert t[0] == '/' && t[1] == '/' && t[2] == j[0];
    } else {
      assert Format(root, ps) == j;
    }
  }

  /** Components joined with slashes read back as themselves, and the text
      starts with the first component's first character. */
  lemma JoinParts(ps: seq<string>)
    requires AllComponents(ps) && |ps| > 0
    ensures Parts(JS.Join(ps, "/")) == ps
    ensures |JS.Join(ps, "/")| > 0 && JS.Join(ps, "/")[0] == ps[0][0] && ps[0][0] != '/'
  {
    JoinStart(ps);
    forall i | 0 <= i < |ps| ensures JS.Avoids(ps[i], "/"[0]) {
    }
    JS.RawSplitJoin(ps, "/");
    ComponentsOfComponents(ps);
    assert ps[0][0] in ps[0];
  }

  /** A leading slash adds an empty piece, which is not a component. */
  lemma RootedParts(s: string)
    ensures Parts("/" + s) == Parts(s)
  {
    RawSplitSlash(s);
    var pieces := JS.RawSplit(s, "/");
    assert Components([""] + pieces) == Components(pieces) by {
      assert ([""] + pieces)[1..] == pieces;
    }
  }

  /** A formatted path is printed as it is. */
  lemma FormatNormal(root: string, ps: seq<string>)
    requires root == "" || root == "/" || root == "//"
    requires AllComponents(ps)
    ensures Normal(Format(root, ps))
  {
    FormatRoundTrip(root, ps);
  }

  /** Normalising is idempotent: its result is a printed path with the
      same root and components. */
  lemma NormalizeNormal(s: string)
    ensures Normal(Normalize(s))
    ensures Root(Normalize(s)) == Root(s) && Parts(Normalize(s)) == Parts(s)
  {
    FormatRoundTrip(Root(s), Parts(s));
  }

  /** Joining a component appends it to the components. */
  lemma ChildFormat(root: string, ps: seq<string>, name: string)
    requires root == "" || root == "/" || root == "//"
    requires AllComponents(ps)
    ensures Child(Format(root, ps), name) == Format(root, ps + [name])
  {
    if |ps| > 0 {
      JoinStart(ps);
      if |ps| == 1 {
        assert JS.Join(ps, "/") == ps[0];
      }
      assert Format(root, ps) != "." && Format(root, ps) != "/" && Format(root, ps) != "//" by {
        assert Format(root, ps)[|root|] == ps[0][0];
      }
      JoinAppend(ps, name);
    }
  }

  /** Joining a component to a printed directory keeps the root and
      appends the component, as `pathlib` does; the result is printed as
      it is and named by the component. */
  lemma ChildSpec(dir: string, name: string)
    requires Normal(dir) && IsComponent(name)
    ensures Root(Child(dir, name)) == Root(dir)
    ensures Parts(Child(dir, name)) == Parts(dir) + [name]
    ensures Normal(Child(dir, name)) && Name(Child(dir, name)) == name
  {
    var r, ps := Root(dir), Parts(dir);
    ChildFormat(r, ps, name);
    FormatRoundTrip(r, ps + [name]);
  }

  /** Trailing slashes and `.` disappear. */
  lemma NormalizeExamples()
    ensures Normalize("store/") == "store"
    ensures Normalize("") == "." && Normalize(".") == "."
    ensures Child(".", "exec_1") == "exec_1"
  {
    JS.RawSplitNoDelimiter("", "/");
    JS.RawSplitNoDelimiter(".", "/");
    JS.RawSplitCons("store", "/", "");
    assert "store/" == "store" + "/" + "";
    assert JS.Join(["store"], "/") == "store";
  }
}
