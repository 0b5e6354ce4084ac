/** The informational record of a loaded plugin: its identifier, the
    version's major/minor part and revision, and its links to the previous
    and next plugin of a version chain. Chain links are references in the
    program; here a link names the linked plugin by its full identifier. */
module Plugins {
  import opened Wrappers
  import JS = JavaStrings

  /** How a plugin relates to its precursor in the chain. */
  datatype Connection = REVISION | EXTENSION | INCOMPATIBLE

  datatype PluginInfo = PluginInfo(
    name: string,
    directory: Option<string>,
    prodVersion: string,
    roddyAPIVersion: string,
    jdkVersion: string,
    dependencies: map<string, string>,
    nextInChain: Option<string>,
    previousInChain: Option<string>,
    previousInChainConnectionType: Connection,
    isBetaPlugin: bool)

  /** The constructor: no chain links, connection INCOMPATIBLE, not beta. */
  function NewPluginInfo(name: string, directory: Option<string>, version: string, apiVersion: string,
                         jdkVersion: string, dependencies: map<string, string>): (r: PluginInfo)
    ensures r.name == name && r.prodVersion == version && r.directory == directory
    ensures r.roddyAPIVersion == apiVersion && r.jdkVersion == jdkVersion && r.dependencies == dependencies
    ensures r.nextInChain.None? && r.previousInChain.None?
    ensures r.previousInChainConnectionType == INCOMPATIBLE && !r.isBetaPlugin
  {
    PluginInfo(name, directory, version, apiVersion, jdkVersion, dependencies, None, None, INCOMPATIBLE, false)
  }

  function SetNextInChain(p: PluginInfo, next: Option<string>): (r: PluginInfo)
    ensures r.nextInChain == next
    ensures r == p.(nextInChain := r.nextInChain)
  {
    p.(nextInChain := next)
  }

  function SetPreviousInChain(p: PluginInfo, previous: Option<string>): (r: PluginInfo)
    ensures r.previousInChain == previous
    ensures r == p.(previousInChain := r.previousInChain)
  {
    p.(previousInChain := previous)
  }

  function SetPreviousInChainConnectionType(p: PluginInfo, c: Connection): (r: PluginInfo)
    ensures r.previousInChainConnectionType == c
    ensures r == p.(previousInChainConnectionType := r.previousInChainConnectionType)
  {
    p.(previousInChainConnectionType := c)
  }

  function SetIsBetaPlugin(p: PluginInfo, beta: bool): (r: PluginInfo)
    ensures r.isBetaPlugin == beta
    ensures r == p.(isBetaPlugin := r.isBetaPlugin)
  {
    p.(isBetaPlugin := beta)
  }

  /** Each setter is read back by its getter, touches nothing else, and
      setting a link again replaces the earlier one. */
  lemma ChainSettersRoundTrip(p: PluginInfo, a: Option<string>, b: Option<string>, c: Connection)
    ensures SetNextInChain(SetNextInChain(p, a), b) == SetNextInChain(p, b)
    ensures SetPreviousInChain(SetNextInChain(p, a), b).nextInChain == a
    ensures SetNextInChain(SetPreviousInChain(p, b), a).previousInChain == b
    ensures SetPreviousInChainConnectionType(SetNextInChain(p, a), c).nextInChain == a
    ensures SetNextInChain(p, p.nextInChain) == p && SetPreviousInChain(p, p.previousInChain) == p
  {
  }

  /** `getFullID()`, which `toString()` also returns. */
  function FullID(p: PluginInfo): (r: string)
    ensures JS.StartsWith(r, p.name) && JS.EndsWith(r, p.prodVersion)
    ensures |r| == |p.name| + 1 + |p.prodVersion| && r[|p.name|] == ':'
  {
    p.name + ":" + p.prodVersion
  }

  function ToString(p: PluginInfo): (r: string)
    ensures r == FullID(p)
  {
    FullID(p)
  }

  /** A name and a non-empty version free of colons are recovered from the
      identifier by splitting at ':'. */
  lemma FullIDRoundTrip(p: PluginInfo)
    requires JS.Avoids(p.name, ':') && JS.Avoids(p.prodVersion, ':') && p.prodVersion != ""
    ensures JS.Split(FullID(p), ":") == [p.name, p.prodVersion]
  {
    var xs := [p.name, p.prodVersion];
    assert JS.Join(xs, ":") == FullID(p) by {
      assert JS.Join(xs[1..], ":") == p.prodVersion;
    }
    JS.SplitJoin(xs, ":");
  }

  /** `getMajorAndMinor()`: the first piece of the version split at '-'.
      A version made only of dashes splits into nothing and the index is
      out of bounds. */
  function MajorAndMinor(p: PluginInfo): (r: Result<string, string>)
    ensures r.Failure? <==> JS.Split(p.prodVersion, "-") == []
    ensures r.Success? ==> r.value == JS.Split(p.prodVersion, "-")[0]
  {
    var split := JS.Split(p.prodVersion, "-");
    if |split| == 0 then Failure("ArrayIndexOutOfBoundsException") else Success(split[0])
  }

  /** `getRevision()`: 0 for a version with a single piece, otherwise the
      conversion helper's `toInt(split[1], 0)`, passed in as `toInt`. An
      empty split makes `split[1]` throw; the handler keeps the initial 0. */
  function Revision(p: PluginInfo, toInt: (string, int) -> int): (r: int)
    ensures |JS.Split(p.prodVersion, "-")| < 2 ==> r == 0
    ensures |JS.Split(p.prodVersion, "-")| >= 2 ==> r == toInt(JS.Split(p.prodVersion, "-")[1], 0)
  {
    var split := JS.Split(p.prodVersion, "-");
    if |split| == 1 then 0
    else if |split| == 0 then 0
    else toInt(split[1], 0)
  }

  /** A version without '-' is its own major/minor part and revision 0. */
  lemma PlainVersion(p: PluginInfo, toInt: (string, int) -> int)
    requires JS.Avoids(p.prodVersion, '-')
    ensures MajorAndMinor(p) == Success(p.prodVersion)
    ensures Revision(p, toInt) == 0
  {
    JS.SplitNoDelimiter(p.prodVersion, "-");
  }

  /** For `a-c` and `a-c-rest` with `a` and `c` free of '-' and `c` not
      empty: the major/minor part is `a`, the revision is `toInt(c, 0)`. */
  lemma VersionParts(p: PluginInfo, a: string, c: string, rest: Option<string>, toInt: (string, int) -> int)
    requires JS.Avoids(a, '-') && JS.Avoids(c, '-') && c != ""
    requires p.prodVersion == a + "-" + JS.WithRest(c, "-", rest)
    ensures MajorAndMinor(p) == Success(a)
    ensures Revision(p, toInt) == toInt(c, 0)
  {
    JS.SplitFirstTwo(a, c, "-", rest);
  }
}
