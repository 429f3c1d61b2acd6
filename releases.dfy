/** The download page's release-asset classifier (`fetchLatestAssets`,
    `fetchLatestAssetUrl`). The GitHub API request is left out: its outcome
    is the list of assets, or `None` when the request, the status check or
    the JSON decoding failed. */
module Releases {
  import opened Wrappers
  import opened Text

  const ReleaseUrl: string := "https://github.com/BBIYAKYEE7/sugang/releases/latest"

  /** The platform argument; any other string matches no asset. */
  datatype Platform = Windows | Mac | Linux | Unknown

  /** A release asset: its `name` and `browser_download_url`. */
  datatype Asset = Asset(name: string, downloadUrl: string)

  /** An entry offered to the user. */
  datatype Download = Download(title: string, url: string, filename: string)

  const Fallback: Download := Download("GitHub Releases", ReleaseUrl, "releases")

  /** The platform filter of each `forEach`. */
  predicate Included(p: Platform, name: string) {
    match p
    case Windows =>
      (ContainsCI(name, "windows") || EndsWithCI(name, ".exe"))
      && !ContainsCI(name, "mac") && !ContainsCI(name, "linux")
    case Mac =>
      (ContainsCI(name, "mac") || EndsWithCI(name, ".dmg") || EndsWithCI(name, ".pkg"))
      && !ContainsCI(name, "windows") && !ContainsCI(name, "linux")
    case Linux =>
      (ContainsCI(name, "linux") || EndsWithCI(name, ".appimage") || EndsWithCI(name, ".deb") || EndsWithCI(name, ".rpm"))
      && !ContainsCI(name, "windows") && !ContainsCI(name, "mac")
    case Unknown => false
  }

  /** The label of an included asset: the first architecture test that matches. */
  function Label(p: Platform, name: string): (r: string)
    ensures r != Fallback.title
  {
    match p
    case Windows =>
      if ContainsCI(name, "x64") || ContainsCI(name, "amd64") then "Windows x64"
      else if ContainsCI(name, "x86") || ContainsCI(name, "i386") then "Windows x86"
      else if ContainsCI(name, "arm64") then "Windows ARM64"
      else "Windows"
    case Mac =>
      if ContainsCI(name, "arm64") || ContainsCI(name, "m1") || ContainsCI(name, "m2") || ContainsCI(name, "apple") then "macOS Apple Silicon"
      else if ContainsCI(name, "intel") || ContainsCI(name, "x86_64") then "macOS Intel"
      else "macOS"
    case Linux =>
      if ContainsCI(name, "x64") || ContainsCI(name, "amd64") then "Linux x64"
      else if ContainsCI(name, "x86") || ContainsCI(name, "i386") then "Linux x86"
      else if ContainsCI(name, "arm64") || ContainsCI(name, "aarch64") then "Linux ARM64"
      else if ContainsCI(name, "arm") || ContainsCI(name, "armv7") then "Linux ARM"
      else "Linux"
    case Unknown => "Unknown"
  }

  /** The object pushed for an included asset. */
  function Entry(p: Platform, a: Asset): Download {
    Download(Label(p, a.name), a.downloadUrl, a.name)
  }

  /** `platformAssets` after the `forEach` over `assets`. */
  function Classified(p: Platform, assets: seq<Asset>): (r: seq<Download>)
    ensures |r| <= |assets|
  {
    if assets == [] then []
    else
      var last := assets[|assets| - 1];
      Classified(p, assets[..|assets| - 1]) + (if Included(p, last.name) then [Entry(p, last)] else [])
  }

  /** The loop building `platformAssets` with `push`. */
  method CollectPlatformAssets(p: Platform, assets: seq<Asset>) returns (platformAssets: seq<Download>)
    ensures platformAssets == Classified(p, assets)
  {
    platformAssets := [];
    for i := 0 to |assets|
      invariant platformAssets == Classified(p, assets[..i])
    {
      assert assets[..i + 1][..i] == assets[..i];
      if Included(p, assets[i].name) {
        platformAssets := platformAssets + [Entry(p, assets[i])];
      }
    }
    assert assets[..|assets|] == assets;
  }

  /** The list `fetchLatestAssets` resolves to. */
  function LatestAssets(p: Platform, response: Option<seq<Asset>>): (r: seq<Download>)
    ensures |r| >= 1
  {
    match response
    case None => [Fallback]
    case Some(assets) =>
      var found := Classified(p, assets);
      if |found| > 0 then found else [Fallback]
  }

  /** `fetchLatestAssets(platform)` once the request has settled. */
  method FetchLatestAssets(p: Platform, response: Option<seq<Asset>>) returns (r: seq<Download>)
    ensures r == LatestAssets(p, response)
  {
    if response.None? {
      return [Fallback];
    }
    var platformAssets := CollectPlatformAssets(p, response.value);
    r := if |platformAssets| > 0 then platformAssets else [Fallback];
  }

  /** `i` is the first asset of `assets` that platform `p` includes. */
  predicate FirstIncluded(p: Platform, assets: seq<Asset>, i: int) {
    0 <= i < |assets| && Included(p, assets[i].name)
    && forall j :: 0 <= j < i ==> !Included(p, assets[j].name)
  }

  /** `fetchLatestAssetUrl`: the first entry's url, or the releases page
      when it is empty. */
  function LatestAssetUrl(p: Platform, response: Option<seq<Asset>>): (url: string)
    ensures url != []
    ensures url == ReleaseUrl || (response.Some? && exists a :: a in response.value && Included(p, a.name) && url == a.downloadUrl)
    ensures response.None? ==> url == ReleaseUrl
    ensures response.Some? && (forall j :: 0 <= j < |response.value| ==> !Included(p, response.value[j].name)) ==> url == ReleaseUrl
    ensures response.Some? ==> forall i :: FirstIncluded(p, response.value, i) ==>
              url == if response.value[i].downloadUrl != [] then response.value[i].downloadUrl else ReleaseUrl
  {
    var list := LatestAssets(p, response);
    FallbackExactlyWhenNothingMatched(p, response);
    if response.Some? then
      var found := Classified(p, response.value);
      ClassifiedMembers(p, response.value);
      ClassifiedNoneIncluded(p, response.value);
      ClassifiedStartsWithFirstIncluded(p, response.value);
      assert found != [] ==> list[0] in found;
      if list[0].url != [] then list[0].url else ReleaseUrl
    else ReleaseUrl
  }

  /** Classification distributes over concatenation: the output keeps input order. */
  lemma {:induction false} ClassifiedAppend(p: Platform, a: seq<Asset>, b: seq<Asset>)
    ensures Classified(p, a + b) == Classified(p, a) + Classified(p, b)
    decreases |b|
  {
    if b == [] {
      assert a + b == a;
    } else {
      var n := |b| - 1;
      assert (a + b)[..|a + b| - 1] == a + b[..n];
      assert (a + b)[|a + b| - 1] == b[n];
      ClassifiedAppend(p, a, b[..n]);
    }
  }

  /** One entry per included asset, carrying the asset's own url and name
      under the label of its first matching test, and nothing else. */
  lemma {:induction false} ClassifiedMembers(p: Platform, assets: seq<Asset>)
    ensures forall d :: d in Classified(p, assets) <==> exists a :: a in assets && Included(p, a.name) && d == Entry(p, a)
  {
    if assets != [] {
      var n := |assets| - 1;
      ClassifiedMembers(p, assets[..n]);
      assert assets == assets[..n] + [assets[n]];
      forall a | a in assets ensures a in assets[..n] || a == assets[n] {
      }
    }
  }

  /** Nothing is dropped exactly when every asset passes the platform filter. */
  lemma {:induction false} ClassifiedKeepsAllIff(p: Platform, assets: seq<Asset>)
    ensures |Classified(p, assets)| == |assets| <==> forall i :: 0 <= i < |assets| ==> Included(p, assets[i].name)
  {
    if assets != [] {
      var n := |assets| - 1;
      var pre := assets[..n];
      var kept := Included(p, assets[n].name);
      ClassifiedKeepsAllIff(p, pre);
      assert |Classified(p, assets)| == |Classified(p, pre)| + (if kept then 1 else 0);
      if forall i :: 0 <= i < |assets| ==> Included(p, assets[i].name) {
        forall i | 0 <= i < n ensures Included(p, pre[i].name) {
          assert pre[i] == assets[i];
        }
      } else if kept {
        var i :| 0 <= i < |assets| && !Included(p, assets[i].name);
        assert pre[i] == assets[i];
      }
    }
  }

  /** The result is the fallback entry alone exactly when the request failed
      or no asset matched; otherwise it is the classified list itself. */
  lemma FallbackExactlyWhenNothingMatched(p: Platform, response: Option<seq<Asset>>)
    ensures LatestAssets(p, response) == [Fallback] <==> response.None? || Classified(p, response.value) == []
    ensures response.Some? && Classified(p, response.value) != [] ==> LatestAssets(p, response) == Classified(p, response.value)
  {
    if response.Some? && Classified(p, response.value) != [] {
      var found := Classified(p, response.value);
      ClassifiedMembers(p, response.value);
      assert found[0] in found;
      assert found[0].title != Fallback.title;
    }
  }

  /** Nothing is classified exactly when no asset is included. */
  lemma {:induction false} ClassifiedNoneIncluded(p: Platform, assets: seq<Asset>)
    ensures Classified(p, assets) == [] <==> forall j :: 0 <= j < |assets| ==> !Included(p, assets[j].name)
  {
    if assets != [] {
      var n := |assets| - 1;
      ClassifiedNoneIncluded(p, assets[..n]);
      assert forall j :: 0 <= j < n ==> assets[..n][j] == assets[j];
    }
  }

  lemma ClassifiedStartsWithFirstIncluded(p: Platform, assets: seq<Asset>)
    ensures forall i :: FirstIncluded(p, assets, i) ==>
              Classified(p, assets) != [] && Classified(p, assets)[0] == Entry(p, assets[i])
  {
    forall i | FirstIncluded(p, assets, i)
      ensures Classified(p, assets) != [] && Classified(p, assets)[0] == Entry(p, assets[i])
    {
      ClassifiedHead(p, assets, i);
    }
  }

  /** The first entry is the one of the first included asset. */
  lemma ClassifiedHead(p: Platform, assets: seq<Asset>, i: int)
    requires FirstIncluded(p, assets, i)
    ensures Classified(p, assets) != [] && Classified(p, assets)[0] == Entry(p, assets[i])
  {
    var pre, a, post := assets[..i], assets[i], assets[i + 1..];
    assert assets == pre + ([a] + post);
    assert forall j :: 0 <= j < |pre| ==> pre[j] == assets[j];
    ClassifiedNoneIncluded(p, pre);
    ClassifiedAppend(p, pre, [a] + post);
    ClassifiedAppend(p, [a], post);
    assert [a][..0] == [];
    assert Classified(p, [a]) == [Entry(p, a)];
  }

  /** No platform other than Windows, macOS or Linux is offered anything. */
  lemma {:induction false} UnknownPlatformFallsBack(assets: seq<Asset>)
    ensures Classified(Unknown, assets) == []
    ensures LatestAssets(Unknown, Some(assets)) == [Fallback]
  {
    if assets != [] {
      UnknownPlatformFallsBack(assets[..|assets| - 1]);
    }
  }

  /** Each asset is offered to at most one platform. */
  lemma PlatformsDisjoint(name: string)
    ensures !(Included(Windows, name) && Included(Mac, name))
    ensures !(Included(Windows, name) && Included(Linux, name))
    ensures !(Included(Mac, name) && Included(Linux, name))
  {
    var l := Lower(name);
    if Included(Windows, name) && Included(Linux, name) {
      if EndsWith(l, ".appimage") {
        EndsWithBoth(l, ".appimage", ".exe");
      }
    }
    if Included(Mac, name) && Included(Linux, name) {
      if EndsWith(l, ".appimage") {
        EndsWithBoth(l, ".appimage", ".dmg");
        EndsWithBoth(l, ".appimage", ".pkg");
      }
    }
  }
}
