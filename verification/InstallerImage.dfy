/** Printing the installer image of a node, and parsing schematic and version back. */
module InstallerImage {
  import opened Common

  const DEFAULT_SCHEMATIC := "376567988ad370138ad8b2698212367b8edcb69b5fd68c80be1f2ec7d603b4ba"
  const DEFAULT_FACTORY := "factory.talos.dev"
  const DEFAULT_PLATFORM := "metal"

  datatype NodeConfig = NodeConfig(factory: string, platform: string, talosVersion: string, secureBoot: bool)

  /** cmp.Or: the first non-empty of three. */
  function Or(a: string, b: string, c: string): string {
    if a != "" then a else if b != "" then b else c
  }

  function TrimV(s: string): string { if s != "" && s[0] == 'v' then s[1..] else s }

  function Schematic(resolved: string): string { Or(resolved, DEFAULT_SCHEMATIC, "") }

  /** tag is the version the program was built with. */
  function Version(node: NodeConfig, cluster: NodeConfig, tag: string): string {
    TrimV(Or(node.talosVersion, cluster.talosVersion, tag))
  }

  /** Everything before the slash in front of the schematic. */
  function Repository(node: NodeConfig, cluster: NodeConfig): string {
    Or(node.factory, cluster.factory, DEFAULT_FACTORY) + "/" +
    Or(node.platform, cluster.platform, DEFAULT_PLATFORM) + "-installer" +
    (if node.secureBoot || cluster.secureBoot then "-secureboot" else "")
  }

  function InstallerImage(node: NodeConfig, cluster: NodeConfig, resolved: string, tag: string): string {
    Repository(node, cluster) + "/" + Schematic(resolved) + ":v" + Version(node, cluster, tag)
  }

  /** x is the first of the options that is set, or empty if none is. */
  ghost predicate IsFirstSet(x: string, options: seq<string>) {
    if x == "" then forall k :: 0 <= k < |options| ==> options[k] == ""
    else exists k :: IsFirstSetAt(x, options, k)
  }

  ghost predicate IsFirstSetAt(x: string, options: seq<string>, k: int) {
    0 <= k < |options| && options[k] == x && forall j :: 0 <= j < k ==> options[j] == ""
  }

  lemma OrIsFirstSet(x: string, a: string, b: string, c: string)
    ensures IsFirstSet(x, [a, b, c]) <==> x == Or(a, b, c)
  {
    assert [a, b, c][0] == a && [a, b, c][1] == b && [a, b, c][2] == c;
    var k := if a != "" then 0 else if b != "" then 1 else 2;
    assert Or(a, b, c) != "" ==> IsFirstSetAt(Or(a, b, c), [a, b, c], k);
  }

  /** The image in full. Each of factory, platform and version is the node's setting, or
      else the cluster's, or else the default; the schematic is the resolved one, if
      any; the version is printed with one v, whether or not its setting has one. */
  lemma ImageText(node: NodeConfig, cluster: NodeConfig, resolved: string, tag: string,
                  factory: string, platform: string, schematic: string, version: string)
    requires IsFirstSet(factory, [node.factory, cluster.factory, "factory.talos.dev"])
    requires IsFirstSet(platform, [node.platform, cluster.platform, "metal"])
    requires schematic == if resolved != "" then resolved else DEFAULT_SCHEMATIC
    requires IsFirstSet(version, [node.talosVersion, cluster.talosVersion, tag])
    ensures var installer := if node.secureBoot || cluster.secureBoot then "-installer-secureboot" else "-installer";
      InstallerImage(node, cluster, resolved, tag) ==
      factory + "/" + platform + installer + "/" + schematic + ":v" + (if "v" <= version then version[1..] else version)
  {
    OrIsFirstSet(factory, node.factory, cluster.factory, "factory.talos.dev");
    OrIsFirstSet(platform, node.platform, cluster.platform, "metal");
    OrIsFirstSet(version, node.talosVersion, cluster.talosVersion, tag);
    var name := factory + "/" + platform;
    assert name + "-installer" + "-secureboot" == name + "-installer-secureboot";
    assert name + "-installer" + "" == name + "-installer";
    assert version != "" ==> version[..1] == [version[0]];
  }

  /** A leading v in a version setting makes no difference. */
  lemma LeadingVIsOptional(node: NodeConfig, cluster: NodeConfig, tag: string, x: string)
    ensures Version(node.(talosVersion := "v" + x), cluster, tag) == x
    ensures x != "" && x[0] != 'v' ==> Version(node.(talosVersion := x), cluster, tag) == x
  {
    assert ("v" + x)[1..] == x;
  }

  // ---------------------------------------------------------------- parsing

  predicate IsAlnum(c: char) { 'a' <= c <= 'z' || 'A' <= c <= 'Z' || '0' <= c <= '9' }

  predicate AllAlnum(s: string) { forall k :: 0 <= k < |s| ==> IsAlnum(s[k]) }

  /** Where the run of alphanumerics that begins at i ends. */
  function AlnumEnd(s: string, i: nat): (j: nat)
    requires i <= |s|
    ensures i <= j <= |s| && (j < |s| ==> !IsAlnum(s[j]))
    ensures forall k :: i <= k < j ==> IsAlnum(s[k])
    decreases |s| - i
  {
    if i < |s| && IsAlnum(s[i]) then AlnumEnd(s, i + 1) else i
  }

  /** Position i holds a slash, and what follows reads as <schematic>:<something>. */
  predicate ReadableAt(s: string, i: int) {
    0 <= i < |s| && s[i] == '/' &&
    var j := AlnumEnd(s, i + 1);
    i + 1 < j && j + 1 < |s| && s[j] == ':'
  }

  /** The schematic and version that follow the slash at i. The v is dropped only if
      something is left to be the version. */
  function ReadAt(s: string, i: nat): (string, string)
    requires ReadableAt(s, i)
  {
    var j := AlnumEnd(s, i + 1);
    (s[i + 1..j], if s[j + 1] == 'v' && j + 2 < |s| then s[j + 2..] else s[j + 1..])
  }

  /** The greedy search: the last readable position before i, or -1. */
  function LastReadable(input: string, i: nat): (k: int)
    requires i <= |input|
    ensures -1 <= k < i && (k >= 0 ==> ReadableAt(input, k))
    ensures forall j :: k < j < i ==> !ReadableAt(input, j)
  {
    if i == 0 then -1
    else if ReadableAt(input, i - 1) then i - 1
    else LastReadable(input, i - 1)
  }

  /** extractSchematicAndVersion; None is its error. The dot matches no newline. */
  function Extract(input: string): Option<(string, string)> {
    var k := LastReadable(input, |input|);
    if '\n' in input || k < 0 then None else Some(ReadAt(input, k))
  }

  // ---------------------------------------------------------------- the reference

  /** A way to read input as the pattern says: a slash, the schematic, a colon, and
      the version with or without a v before it. */
  ghost predicate Splits(input: string, slash: nat, schematic: string, v: bool, version: string) {
    && '\n' !in input && version != "" && MatchesClass(schematic)
    && HoldsAt(input, slash, schematic, Tail(v, version))
  }

  /** [a-zA-Z0-9]* */
  ghost predicate MatchesClass(s: string) {
    forall c :: c in s ==> 'a' <= c <= 'z' || 'A' <= c <= 'Z' || '0' <= c <= '9'
  }

  lemma ClassIsAlnum(s: string)
    ensures MatchesClass(s) <==> AllAlnum(s)
  {
    assert forall k :: 0 <= k < |s| ==> s[k] in s;
  }

  ghost predicate HoldsAt(input: string, slash: nat, schematic: string, tail: string) {
    var colon := slash + 1 + |schematic|;
    && schematic != "" && AllAlnum(schematic)
    && colon < |input| && input[slash] == '/' && input[colon] == ':'
    && input[slash + 1..colon] == schematic && input[colon + 1..] == tail
  }

  function Tail(v: bool, version: string): string { (if v then "v" else "") + version }

  /** The matcher prefers the last slash, and there the reading that drops a v. */
  ghost predicate Preferred(input: string, slash: nat, v: bool) {
    forall t: nat, sch, u, ver :: Splits(input, t, sch, u, ver) ==> t < slash || (t == slash && (v || !u))
  }

  lemma TailOfTail(input: string, k: nat)
    requires k < |input|
    ensures input[k..][1..] == input[k + 1..]
  {
  }

  lemma ReadBack(input: string, slash: nat, schematic: string, tail: string)
    requires HoldsAt(input, slash, schematic, tail) && tail != ""
    ensures ReadableAt(input, slash)
    ensures ReadAt(input, slash) == (schematic, if tail[0] == 'v' && |tail| > 1 then tail[1..] else tail)
  {
    var colon := slash + 1 + |schematic|;
    forall k | slash < k < colon ensures IsAlnum(input[k]) {
      assert input[k] == schematic[k - slash - 1];
    }
    assert AlnumEnd(input, slash + 1) == colon;
    TailOfTail(input, colon + 1);
  }

  predicate DropsV(input: string, slash: nat)
    requires ReadableAt(input, slash)
  {
    var j := AlnumEnd(input, slash + 1);
    input[j + 1] == 'v' && j + 2 < |input|
  }

  /** What is read at a slash is a split, dropping a v wherever a split can. */
  lemma ReadIsASplit(input: string, slash: nat)
    requires '\n' !in input && ReadableAt(input, slash)
    ensures var (schematic, version) := ReadAt(input, slash);
      Splits(input, slash, schematic, DropsV(input, slash), version)
  {
    ClassIsAlnum(ReadAt(input, slash).0);
  }

  lemma SplitIsRead(input: string, slash: nat, schematic: string, v: bool, version: string)
    requires Splits(input, slash, schematic, v, version)
    ensures ReadableAt(input, slash)
    ensures v || version[0] != 'v' || |version| == 1 ==> ReadAt(input, slash) == (schematic, version)
    ensures v ==> DropsV(input, slash)
    ensures !v && version[0] == 'v' && |version| > 1 ==> Splits(input, slash, schematic, true, version[1..])
  {
    ReadBack(input, slash, schematic, Tail(v, version));
    TailParts(v, version);
  }

  lemma TailParts(v: bool, version: string)
    requires version != ""
    ensures v ==> Tail(v, version)[1..] == version && Tail(v, version)[0] == 'v' && |Tail(v, version)| == 1 + |version|
    ensures !v ==> Tail(v, version) == version
    ensures version[0] == 'v' ==> version == Tail(true, version[1..])
  {
    assert version == [version[0]] + version[1..];
  }

  /** The regular expression's answer, as its matcher's preference among splits. */
  lemma ExtractIsTheGreedySplit(input: string, schematic: string, version: string)
    ensures Extract(input) == Some((schematic, version)) <==> IsGreedySplit(input, schematic, version)
  {
    if Extract(input) == Some((schematic, version)) {
      ExtractedIsPreferred(input, LastReadable(input, |input|));
    }
    if IsGreedySplit(input, schematic, version) {
      PreferredIsExtracted(input, schematic, version);
    }
  }

  ghost predicate IsGreedySplit(input: string, schematic: string, version: string) {
    exists slash: nat, v :: Splits(input, slash, schematic, v, version) && Preferred(input, slash, v)
  }

  lemma PreferredIsExtracted(input: string, schematic: string, version: string)
    requires IsGreedySplit(input, schematic, version)
    ensures Extract(input) == Some((schematic, version))
  {
    var slash: nat, v :| Splits(input, slash, schematic, v, version) && Preferred(input, slash, v);
    SplitIsRead(input, slash, schematic, v, version);
    var last := LastReadable(input, |input|);
    ReadIsASplit(input, last);
    assert last == slash;
  }

  lemma ExtractedIsPreferred(input: string, slash: nat)
    requires '\n' !in input && LastReadable(input, |input|) == slash
    ensures IsGreedySplit(input, ReadAt(input, slash).0, ReadAt(input, slash).1)
  {
    var v := DropsV(input, slash);
    ReadIsASplit(input, slash);
    forall t: nat, sch, u, ver | Splits(input, t, sch, u, ver) ensures t < slash || (t == slash && (v || !u)) {
      SplitIsRead(input, t, sch, u, ver);
    }
    assert Splits(input, slash, ReadAt(input, slash).0, v, ReadAt(input, slash).1) && Preferred(input, slash, v);
  }

  // ---------------------------------------------------------------- the round trip

  function Image(repository: string, schematic: string, version: string): string {
    repository + "/" + schematic + ":v" + version
  }

  /** Some slash inside s is followed by something that reads as schematic and version. */
  predicate HidesAnImage(s: string) {
    exists j :: 0 <= j < |s| && ReadableAt(s, j)
  }

  /** image ends in a slash, the schematic, ":v" and the version. */
  ghost predicate EndsAsPrinted(image: string, slash: nat, schematic: string, version: string) {
    var colon := slash + 1 + |schematic|;
    && |image| == colon + 2 + |version|
    && image[slash] == '/' && image[colon] == ':' && image[colon + 1] == 'v'
    && image[slash + 1..colon] == schematic && image[colon + 1..] == "v" + version && image[colon + 2..] == version
  }

  lemma ImageEndsAsPrinted(repository: string, schematic: string, version: string)
    ensures EndsAsPrinted(Image(repository, schematic, version), |repository|, schematic, version)
  {
  }

  /** Parsing gives back what was printed exactly when nothing contains a newline, the
      schematic is alphanumeric and not empty, and the version is not empty and does
      not itself contain the end of an image. */
  lemma RoundTripIff(repository: string, schematic: string, version: string)
    ensures Extract(Image(repository, schematic, version)) == Some((schematic, version)) <==>
      && '\n' !in repository && '\n' !in version
      && schematic != "" && AllAlnum(schematic) && version != "" && !HidesAnImage(version)
  {
    var image := Image(repository, schematic, version);
    NewlineIn(repository, schematic, version);
    ImageEndsAsPrinted(repository, schematic, version);
    if '\n' !in image {
      if schematic != "" && AllAlnum(schematic) && version != "" {
        RoundTripAt(image, |repository|, schematic, version);
      } else if Extract(image).Some? {
        ReadParts(image, LastReadable(image, |image|));
      }
    }
  }

  lemma NewlineIn(repository: string, schematic: string, version: string)
    ensures '\n' in Image(repository, schematic, version) <==>
      '\n' in repository || '\n' in schematic || '\n' in version
    ensures '\n' in schematic ==> !AllAlnum(schematic)
  {
    if '\n' in schematic {
      var k :| 0 <= k < |schematic| && schematic[k] == '\n';
      assert !IsAlnum(schematic[k]);
    }
  }

  lemma ReadParts(image: string, slash: nat)
    requires ReadableAt(image, slash)
    ensures var (sch, ver) := ReadAt(image, slash);
      sch != "" && AllAlnum(sch) && ver != "" && slash + |sch| + |ver| + 2 <= |image|
  {
  }

  lemma RoundTripAt(image: string, at: nat, schematic: string, version: string)
    requires EndsAsPrinted(image, at, schematic, version) && '\n' !in image
    requires schematic != "" && AllAlnum(schematic) && version != ""
    ensures Extract(image) == Some((schematic, version)) <==> !HidesAnImage(version)
  {
    OwnSlash(image, at, schematic, version);
    var slash := LastReadable(image, |image|);
    if slash == at {
      NothingHidden(image, at, schematic, version);
    } else {
      SlashInVersion(image, at, schematic, version, slash);
      ReadParts(image, slash);
    }
  }

  /** The slash the printer put before the schematic reads back what was printed. */
  lemma OwnSlash(image: string, at: nat, schematic: string, version: string)
    requires EndsAsPrinted(image, at, schematic, version)
    requires schematic != "" && AllAlnum(schematic) && version != ""
    ensures ReadableAt(image, at) && ReadAt(image, at) == (schematic, version)
  {
    assert ("v" + version)[1..] == version;
    ReadBack(image, at, schematic, "v" + version);
  }

  lemma NothingHidden(image: string, at: nat, schematic: string, version: string)
    requires EndsAsPrinted(image, at, schematic, version) && AllAlnum(schematic)
    requires LastReadable(image, |image|) == at
    ensures !HidesAnImage(version)
  {
    forall j | 0 <= j < |version| ensures !ReadableAt(version, j) {
      SlashInVersion(image, at, schematic, version, at + |schematic| + 3 + j);
    }
  }

  /** A later slash lies in the version and reads the same there. */
  lemma SlashInVersion(image: string, at: nat, schematic: string, version: string, i: nat)
    requires EndsAsPrinted(image, at, schematic, version) && AllAlnum(schematic) && at < i < |image|
    ensures var start := at + |schematic| + 3;
      if i < start then image[i] != '/' else ReadableAt(image, i) == ReadableAt(version, i - start)
  {
    var start := at + |schematic| + 3;
    if i >= start {
      ReadsTheSameAfter(image, start, version, i - start);
    } else if i <= at + |schematic| {
      assert image[i] == image[at + 1..at + 1 + |schematic|][i - at - 1];
      assert IsAlnum(schematic[i - at - 1]);
    }
  }

  lemma ReadsTheSameAfter(image: string, start: nat, version: string, j: nat)
    requires start + |version| == |image| && image[start..] == version && j < |version|
    ensures ReadableAt(image, start + j) == ReadableAt(version, j)
  {
    forall k | 0 <= k < |version| ensures image[start + k] == version[k] {
      assert image[start..][k] == image[start + k];
    }
    EndsTheSameAfter(image, start, version, j + 1);
  }

  lemma EndsTheSameAfter(image: string, start: nat, version: string, j: nat)
    requires start + |version| == |image| && j <= |version|
    requires forall k :: 0 <= k < |version| ==> image[start + k] == version[k]
    ensures AlnumEnd(image, start + j) == start + AlnumEnd(version, j)
    decreases |version| - j
  {
    if j < |version| && IsAlnum(version[j]) { EndsTheSameAfter(image, start, version, j + 1); }
  }

  /** In terms of the configuration: parsing gives back the resolved schematic, or the
      default one, and the version without its v. */
  lemma InstallerImageRoundTrip(node: NodeConfig, cluster: NodeConfig, resolved: string, tag: string,
                                schematic: string, setting: string)
    requires schematic == if resolved != "" then resolved else DEFAULT_SCHEMATIC
    requires IsFirstSet(setting, [node.talosVersion, cluster.talosVersion, tag])
    ensures var version := if "v" <= setting then setting[1..] else setting;
      Extract(InstallerImage(node, cluster, resolved, tag)) == Some((schematic, version)) <==>
      && '\n' !in Repository(node, cluster) && MatchesClass(schematic)
      && '\n' !in version && version != "" && !HidesAnImage(version)
  {
    OrIsFirstSet(setting, node.talosVersion, cluster.talosVersion, tag);
    RoundTripIff(Repository(node, cluster), Schematic(resolved), Version(node, cluster, tag));
    ClassIsAlnum(schematic);
    assert setting != "" ==> setting[..1] == [setting[0]];
  }

  /** A version without a slash hides nothing. */
  lemma NoSlashNothingHidden(version: string)
    ensures '/' !in version ==> !HidesAnImage(version)
  {
  }
}
