/** The `update` command's decisions: the version string the binary carries,
    the semantic version read back from it, whether the latest release is
    already installed, and which release asset fits the platform. */
module Update {
  import opened Wrappers
  import opened TextUtil

  /** A downloadable file of a release. */
  datatype Asset = Asset(name: string, downloadUrl: string)

  /** A release as the release listing describes it. */
  datatype Release = Release(tagName: string, assets: seq<Asset>)

  datatype UpdateError =
    | NoAssetForPlatform(goos: string, goarch: string, wantName: string)

  /** What `runUpdate` does once it knows the latest release. */
  datatype Decision =
    | AlreadyLatest(version: string)   // reports the installed version and stops
    | Install(asset: Asset)            // downloads this asset
    | Failed(error: UpdateError)       // no asset for this platform

  // ---------------------------------------------------------------------
  // The version string

  /** Whether a build commit is recorded: `SetVersion` ignores "none" and "". */
  predicate HasCommit(commit: string) {
    commit != "none" && commit != ""
  }

  /** `SetVersion`: the version, followed by " (commit)" when a commit is
      recorded. The version is always a prefix, and the result is the bare
      version exactly when no commit is recorded. */
  function Decorate(version: string, commit: string): (r: string)
    ensures |version| <= |r| && r[..|version|] == version
    ensures r == version <==> !HasCommit(commit)
  {
    if HasCommit(commit) then version + " (" + commit + ")" else version
  }

  /** Where the first space of `s` is, stated through characters. */
  lemma SpaceIndex(s: string)
    ensures var i := Index(s, " ");
      && (i == -1 <==> ' ' !in s)
      && (i != -1 ==> 0 <= i < |s| && s[i] == ' ' && ' ' !in s[..i])
  {
    IndexSpec(s, " ");
    var i := Index(s, " ");
    forall j | 0 <= j < |s|
      ensures OccursAt(s, " ", j) <==> s[j] == ' '
    {
      assert |s[j..j + 1]| == 1 && s[j..j + 1][0] == s[j];
    }
    if i != -1 {
      assert OccursAt(s, " ", i);
      forall j | 0 <= j < i
        ensures s[..i][j] != ' '
      {
        assert !OccursAt(s, " ", j);
      }
    } else {
      forall j | 0 <= j < |s|
        ensures s[j] != ' '
      {
        assert !OccursAt(s, " ", j);
      }
    }
  }

  /** The text before the first space of `v`, or all of `v`: a space-free
      prefix that ends at the first space, and is `v` itself when `v` holds
      no space. */
  function BeforeSpace(v: string): (w: string)
    ensures |w| <= |v| && w == v[..|w|] && ' ' !in w
    ensures |w| < |v| ==> v[|w|] == ' '
    ensures ' ' !in v ==> w == v
  {
    SpaceIndex(v);
    var idx := Index(v, " ");
    if idx != -1 then v[..idx] else v
  }

  /** Removing a prefix keeps a string space-free. */
  lemma TrimPrefixNoSpace(s: string, prefix: string)
    requires ' ' !in s
    ensures ' ' !in TrimPrefix(s, prefix)
  {
    var r := TrimPrefix(s, prefix);
    forall k | 0 <= k < |r|
      ensures r[k] != ' '
    {
      assert r[k] == s[|s| - |r| + k];
    }
  }

  /** `parseCurrentVersion`: "" and "dev" read as "dev"; any other version
      string is cut at its first space and loses one leading "v". The result
      never holds a space, and a space-free version only loses its "v". */
  function ParseCurrentVersion(v: string): (r: string)
    ensures v == "" || v == "dev" ==> r == "dev"
    ensures v != "" && v != "dev" ==> ' ' !in r
    ensures v != "" && ' ' !in v ==> r == TrimPrefix(v, "v")
  {
    if v == "" || v == "dev" then
      assert "dev"[..1] != "v" by { assert "dev"[..1][0] == 'd'; }
      "dev"
    else
      TrimPrefixNoSpace(BeforeSpace(v), "v");
      TrimPrefix(BeforeSpace(v), "v")
  }

  /** Reading back what `SetVersion` stored gives the version without its
      "v", with or without a recorded commit. */
  lemma ParseDecorated(v: string, commit: string)
    requires v != "" && ' ' !in v
    ensures ParseCurrentVersion(Decorate(v, commit)) == TrimPrefix(v, "v")
  {
    var d := Decorate(v, commit);
    if HasCommit(commit) {
      assert d == v + (" (" + commit + ")");
      assert d[|v|] == ' ' && d[..|v|] == v;
      SpaceIndex(d);
      var idx := Index(d, " ");
      assert idx == |v|;
      assert |d| > 3;
    }
  }

  // ---------------------------------------------------------------------
  // The "already latest" decision

  /** `runUpdate` stops when the installed version is a release build whose
      version is the release tag without its "v". */
  predicate IsLatest(rootVersion: string, tagName: string) {
    var current := ParseCurrentVersion(rootVersion);
    current != "dev" && current == TrimPrefix(tagName, "v")
  }

  /** The installed release is the latest exactly when the tag is its
      version with a "v" in front, or the version itself when that does not
      start with "v"; a development build never is. */
  lemma LatestExactly(rootVersion: string, tagName: string)
    ensures var current := ParseCurrentVersion(rootVersion);
      IsLatest(rootVersion, tagName) <==>
        current != "dev" && (tagName == "v" + current || (tagName == current && !("v" <= tagName)))
  {
    var current := ParseCurrentVersion(rootVersion);
    if "v" <= tagName {
      assert tagName == "v" + tagName[1..];
    }
  }

  /** A development build always updates. */
  lemma DevAlwaysUpdates(rootVersion: string, tagName: string)
    requires rootVersion == "" || rootVersion == "dev"
    ensures !IsLatest(rootVersion, tagName)
  {
  }

  /** A release build of version `x`, with or without a recorded commit, is
      the latest when the release is tagged "v" + `x`. */
  lemma SameReleaseIsLatest(x: string, commit: string)
    requires ' ' !in x && x != "" && x != "dev" && (x[0] != 'v')
    ensures IsLatest(Decorate(x, commit), "v" + x)
  {
    ParseDecorated(x, commit);
    assert x[..1] != "v" by { assert x[..1][0] == x[0]; }
    assert TrimPrefix(x, "v") == x;
    var tag := "v" + x;
    assert tag[..1] == "v" && tag[1..] == x;
    assert TrimPrefix(tag, "v") == x;
  }

  // ---------------------------------------------------------------------
  // The release asset

  const TarGz := ".tar.gz"
  const Zip := ".zip"

  predicate EndsWith(s: string, suffix: string) {
    |suffix| <= |s| && s[|s| - |suffix|..] == suffix
  }

  lemma EndsWithAppend(s: string, suffix: string)
    ensures EndsWith(s + suffix, suffix)
  {
    assert (s + suffix)[|s|..] == suffix;
  }

  /** A name ending in ".tar.gz" does not end in ".zip". */
  lemma TarGzIsNotZip(name: string)
    requires EndsWith(name, TarGz)
    ensures !EndsWith(name, Zip)
  {
    var n := |name|;
    assert name[n - 4..][0] == name[n - 7..][3] == 'r';
  }

  /** The archive extension: ".zip" on windows, ".tar.gz" elsewhere. */
  function Extension(goos: string): (r: string)
    ensures r == Zip <==> goos == "windows"
    ensures r == TarGz <==> goos != "windows"
  {
    if goos == "windows" then Zip else TarGz
  }

  /** `wantName`: "bible_<version>_<os>_<arch>" and the archive extension. */
  function AssetName(version: string, goos: string, goarch: string): (r: string)
    ensures |r| >= 6 + |version| && r[..6] == "bible_" && r[6..6 + |version|] == version
    ensures EndsWith(r, Extension(goos))
  {
    var stem := "bible_" + version + "_" + goos + "_" + goarch;
    assert stem == "bible_" + (version + "_" + goos + "_" + goarch);
    assert stem[6..6 + |version|] == version;
    EndsWithAppend(stem, Extension(goos));
    stem + Extension(goos)
  }

  /** The position of the first asset called `name`, if any. */
  function FirstNamed(assets: seq<Asset>, name: string): (r: Option<nat>)
    ensures r.None? <==> forall i :: 0 <= i < |assets| ==> assets[i].name != name
    ensures r.Some? ==>
              && r.value < |assets| && assets[r.value].name == name
              && forall i :: 0 <= i < r.value ==> assets[i].name != name
    decreases |assets|
  {
    if assets == [] then None
    else if assets[0].name == name then Some(0)
    else
      match FirstNamed(assets[1..], name)
      case None => None
      case Some(i) => Some(i + 1)
  }

  /** `findAsset`: the first asset named for this platform, or an error that
      names the platform and the file it wanted. */
  function FindAsset(release: Release, version: string, goos: string, goarch: string): (r: Result<Asset, UpdateError>)
    ensures var want := AssetName(version, goos, goarch);
      && (r.Err? <==> forall a :: a in release.assets ==> a.name != want)
      && (r.Err? ==> r.error == NoAssetForPlatform(goos, goarch, want))
      && (r.Ok? ==>
            && r.value.name == want
            && exists i :: 0 <= i < |release.assets| && release.assets[i] == r.value
                 && forall j :: 0 <= j < i ==> release.assets[j].name != want)
  {
    var want := AssetName(version, goos, goarch);
    match FirstNamed(release.assets, want)
    case None => Err(NoAssetForPlatform(goos, goarch, want))
    case Some(i) => Ok(release.assets[i])
  }

  /** The archive is unpacked as a zip exactly when its name ends in ".zip". */
  predicate IsZipArchive(name: string) {
    EndsWith(name, Zip)
  }

  /** The asset `findAsset` picks is unpacked as a zip exactly on windows. */
  lemma FoundArchiveKind(release: Release, version: string, goos: string, goarch: string)
    requires FindAsset(release, version, goos, goarch).Ok?
    ensures IsZipArchive(FindAsset(release, version, goos, goarch).value.name) <==> goos == "windows"
  {
    var name := FindAsset(release, version, goos, goarch).value.name;
    assert EndsWith(name, Extension(goos));
    if goos != "windows" {
      TarGzIsNotZip(name);
    }
  }

  /** `runUpdate` after fetching the release: stop when already latest,
      otherwise install the asset for this platform or fail. */
  function Decide(rootVersion: string, release: Release, goos: string, goarch: string): (r: Decision)
    ensures r.AlreadyLatest? <==> IsLatest(rootVersion, release.tagName)
    ensures r.AlreadyLatest? ==> r.version == TrimPrefix(release.tagName, "v")
    ensures r.Install? ==>
              && r.asset in release.assets
              && r.asset.name == AssetName(TrimPrefix(release.tagName, "v"), goos, goarch)
    ensures r.Failed? ==> forall a :: a in release.assets ==> a.name != AssetName(TrimPrefix(release.tagName, "v"), goos, goarch)
  {
    var latest := TrimPrefix(release.tagName, "v");
    var current := ParseCurrentVersion(rootVersion);
    if current != "dev" && current == latest then AlreadyLatest(latest)
    else
      match FindAsset(release, latest, goos, goarch)
      case Ok(a) => Install(a)
      case Err(e) => Failed(e)
  }
}
