/** The rest of the download page's logic: `detectOS`, the choice between a
    direct download and the architecture modal, and the theme toggle. */
module Site {
  import opened Wrappers
  import opened Text
  import opened Releases

  /** `detectOS`: Windows first, then macOS, then Linux, else unknown. */
  function DetectOS(userAgent: string): (p: Platform)
    ensures p == Windows <==> ContainsCI(userAgent, "windows nt")
    ensures p == Mac <==> !ContainsCI(userAgent, "windows nt")
                          && (ContainsCI(userAgent, "mac os x") || ContainsCI(userAgent, "macintosh"))
    ensures p == Linux <==> !ContainsCI(userAgent, "windows nt") && !ContainsCI(userAgent, "mac os x")
                            && !ContainsCI(userAgent, "macintosh") && ContainsCI(userAgent, "linux")
  {
    if ContainsCI(userAgent, "windows nt") then Windows
    else if ContainsCI(userAgent, "mac os x") || ContainsCI(userAgent, "macintosh") then Mac
    else if ContainsCI(userAgent, "linux") then Linux
    else Unknown
  }

  /** Where a download click leads. */
  datatype Navigation = Redirect(url: string) | OpenModal(assets: seq<Download>, platform: Platform)

  /** `showArchitectureSelector` once the asset list is known: a single entry
      (the fallback included) is opened directly, more open the modal. */
  function ShowArchitectureSelector(p: Platform, assets: seq<Download>): (n: Navigation)
    ensures n.Redirect? <==> |assets| == 1
    ensures n.Redirect? ==> n.url == assets[0].url
    ensures n.OpenModal? ==> n.assets == assets && n.platform == p
  {
    if |assets| == 1 && assets[0].filename == "releases" then Redirect(assets[0].url)
    else if |assets| == 1 then Redirect(assets[0].url)
    else OpenModal(assets, p)
  }

  /** The whole download click for a platform: nothing matched goes to the
      releases page, one match is downloaded directly, and several open the
      modal with exactly the platform's matches in input order. */
  lemma DownloadClickOutcome(p: Platform, response: Option<seq<Asset>>)
    ensures var found := if response.Some? then Classified(p, response.value) else [];
            var n := ShowArchitectureSelector(p, LatestAssets(p, response));
            (|found| == 0 ==> n == Redirect(ReleaseUrl)) &&
            (|found| == 1 ==> n == Redirect(found[0].url)) &&
            (|found| >= 2 ==> n == OpenModal(found, p))
  {
    FallbackExactlyWhenNothingMatched(p, response);
  }

  /** `handlePrimaryClick`: the detected platform's selector, or the
      unsupported-system alert (`None`) for an unknown one. */
  function PrimaryClick(userAgent: string, response: Option<seq<Asset>>): (n: Option<Navigation>)
    ensures n.None? <==> DetectOS(userAgent) == Unknown
    ensures n.Some? ==> n.value == ShowArchitectureSelector(DetectOS(userAgent), LatestAssets(DetectOS(userAgent), response))
  {
    var os := DetectOS(userAgent);
    if os == Unknown then None else Some(ShowArchitectureSelector(os, LatestAssets(os, response)))
  }

  /** The page is light exactly when the `data-theme` attribute is "light". */
  predicate IsLight(attr: Option<string>) {
    attr == Some("light")
  }

  /** The attribute and stored value after one toggle. */
  datatype ThemeState = ThemeState(attr: Option<string>, stored: string)

  function Toggled(attr: Option<string>): (t: ThemeState)
    ensures IsLight(t.attr) != IsLight(attr)
    ensures t.stored == if IsLight(t.attr) then "light" else "dark"
    ensures t.attr == None || t.attr == Some("light")
  {
    if IsLight(attr) then ThemeState(None, "dark") else ThemeState(Some("light"), "light")
  }

  /** Two toggles restore the theme; they restore the attribute itself unless
      it held a value other than "light" (such as a stored "dark"). */
  lemma ToggleTwice(attr: Option<string>)
    ensures IsLight(Toggled(Toggled(attr).attr).attr) == IsLight(attr)
    ensures attr == None || attr == Some("light") ==> Toggled(Toggled(attr).attr).attr == attr
    ensures attr.Some? && attr != Some("light") ==> Toggled(Toggled(attr).attr).attr == None
  {
  }

  /** The document's `data-theme` attribute and the `theme` entry of local storage. */
  class ThemePage {
    var attr: Option<string>
    var stored: Option<string>

    /** Mounting the page applies a non-empty stored theme to the attribute. */
    constructor (storedTheme: Option<string>)
      ensures stored == storedTheme
      ensures attr == if storedTheme.Some? && storedTheme.value != "" then storedTheme else None
    {
      stored := storedTheme;
      attr := if storedTheme.Some? && storedTheme.value != "" then storedTheme else None;
    }

    /** `toggleTheme`. */
    method ToggleTheme()
      modifies this
      ensures IsLight(attr) != IsLight(old(attr))
      ensures attr == Toggled(old(attr)).attr && stored == Some(Toggled(old(attr)).stored)
    {
      var current := if attr == Some("light") then "dark" else "light";
      if current == "light" {
        attr := Some("light");
        stored := Some("light");
      } else {
        attr := None;
        stored := Some("dark");
      }
    }
  }
}
