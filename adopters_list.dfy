/**
 * `AdoptersList`: fetches the projects of the cloud development tools working
 * group and shows the adopters of the Open VSX project as cards, with the logo
 * that suits the page's theme.
 *
 * As for the members list, the component's state is a class whose methods are the
 * events React and `fetch` deliver; each request has its own abort signal, and
 * `console.error` is the list of errors logged.
 */
module Adopters {
  import opened Wrappers
  import opened WebFetch

  datatype Adopter = Adopter(name: string, logo: string, projects: seq<string>, homepageUrl: string, logoWhite: string)

  datatype Project = Project(projectId: string, name: string, url: string, logo: string, adopters: seq<Adopter>)

  const AdoptersApi: string := "https://api.eclipse.org/adopters/projects?working_group=cloud-development-tools"
  const OpenVsxProject: string := "ecd.openvsx"
  const AdopterImages: string := "https://api.eclipse.org/adopters/assets/images/adopters/"

  /** `projects.find((p) => p.project_id == id)`: the first project with the id, if any. */
  function FindProject(projects: seq<Project>, id: string): (r: Option<Project>)
    ensures r.None? <==> forall k :: 0 <= k < |projects| ==> projects[k].projectId != id
    ensures r.Some? ==>
      exists k :: 0 <= k < |projects| && projects[k] == r.value && r.value.projectId == id &&
        forall j :: 0 <= j < k ==> projects[j].projectId != id
  {
    if projects == [] then None
    else if projects[0].projectId == id then Some(projects[0])
    else
      var r := FindProject(projects[1..], id);
      assert forall j :: 0 < j < |projects| ==> projects[j] == projects[1..][j - 1];
      r
  }

  /** The message of the Error a response that is not ok throws. */
  const FetchFailed := "Failed to fetch adopters"

  /**
   * `logoUrl` in `AdopterItem`: the white logo under the dark theme, the plain one
   * otherwise, under the adopters' image path when it is not empty.
   */
  function LogoUrl(logo: string, logoWhite: string, themeType: string): (r: string)
    ensures var chosen := if themeType == "dark" then logoWhite else logo;
      (Truthy(r) <==> Truthy(chosen)) && (Truthy(chosen) ==> r == AdopterImages + chosen)
  {
    var logoUrl := if themeType == "dark" then logoWhite else logo;
    if logoUrl != "" then AdopterImages + logoUrl else logoUrl
  }

  /** `AdopterItem`: a link heading iff the homepage is set, the logo iff its URL is set, else the name. */
  function AdopterItem(name: string, logo: string, logoWhite: string, url: string, themeType: string): (c: Card)
    ensures c.heading.LinkHeading? <==> Truthy(url)
    ensures c.heading.text == name && (c.heading.LinkHeading? ==> c.heading.href == url)
    ensures c.picture.Image? <==> Truthy(LogoUrl(logo, logoWhite, themeType))
    ensures c.picture.Image? ==> c.picture.src == LogoUrl(logo, logoWhite, themeType)
    ensures c.picture.NameText? ==> c.picture.text == name
  {
    var logoUrl := LogoUrl(logo, logoWhite, themeType);
    Card(
      if url != "" then LinkHeading(url, name) else TextHeading(name),
      if logoUrl != "" then Image(logoUrl) else NameText(name))
  }

  function CardOf(a: Adopter, themeType: string): Card {
    AdopterItem(a.name, a.logo, a.logoWhite, a.homepageUrl, themeType)
  }

  class AdoptersList {
    var loaded: bool
    var adopters: seq<Adopter>
    /** The abort signal of each request started, by request number: aborted or not. */
    var signals: seq<bool>
    /** The request of the effect run whose cleanup is still due. */
    var current: Option<nat>
    var logged: seq<JsError>

    predicate Valid()
      reads this
    {
      current.Some? ==> current.value < |signals|
    }

    /** The first render: not loaded, no adopters. */
    constructor ()
      ensures Valid() && !loaded && adopters == [] && signals == [] && current == None && logged == []
    {
      loaded := false;
      adopters := [];
      signals := [];
      current := None;
      logged := [];
    }

    /**
     * The effect, run after a render whose `loaded` changed: once loaded it does
     * nothing; otherwise it starts a request with a fresh signal.
     */
    method RunEffect() returns (request: Option<nat>)
      requires Valid() && current.None?
      modifies this
      ensures Valid()
      ensures old(loaded) ==> request == None && signals == old(signals) && current == None
      ensures !old(loaded) ==> request == Some(|old(signals)|) && signals == old(signals) + [false] && current == request
      ensures loaded == old(loaded) && adopters == old(adopters) && logged == old(logged)
    {
      if loaded {
        request := None;
        return;
      }
      request := Some(|signals|);
      signals := signals + [false];
      current := request;
    }

    /** The effect's cleanup, at unmount or before it runs again: abort its request. */
    method Cleanup()
      requires Valid() && current.Some?
      modifies this
      ensures Valid() && current == None
      ensures signals == old(signals)[old(current).value := true]
      ensures loaded == old(loaded) && adopters == old(adopters) && logged == old(logged)
    {
      signals := signals[current.value := true];
      current := None;
    }

    /**
     * Request `request` settled: an ok response whose projects include Open VSX sets
     * its adopters, and leaves them as they were otherwise; an error other than an
     * AbortError is logged; then `loaded` is set unless the request's signal was
     * aborted.
     */
    method Settle(request: nat, outcome: Settlement<seq<Project>>)
      requires Valid() && request < |signals|
      modifies this
      ensures Valid()
      ensures outcome.Delivered? && FindProject(outcome.data, OpenVsxProject).Some? ==>
        adopters == FindProject(outcome.data, OpenVsxProject).value.adopters
      ensures !(outcome.Delivered? && FindProject(outcome.data, OpenVsxProject).Some?) ==> adopters == old(adopters)
      ensures logged == old(logged) + Logged(outcome, FetchFailed)
      ensures signals == old(signals) && current == old(current)
      ensures loaded == (old(loaded) || !signals[request])
    {
      match outcome {
        case Delivered(projects) =>
          var project := FindProject(projects, OpenVsxProject);
          if project.Some? {
            adopters := project.value.adopters;
          }
        case NotOk =>
          logged := logged + [JsError(false, "Error", FetchFailed)];
        case Rejected(e) =>
          if !IsAbortError(e) {
            logged := logged + [e];
          }
      }
      if !signals[request] {
        loaded := true;
      }
    }

    /** The render: a spinner while there are no adopters, else one card per adopter in order. */
    function Render(themeType: string): (v: ListView)
      reads this
      ensures v.Spinner? <==> adopters == []
      ensures v.Grid? ==> |v.cards| == |adopters| && forall k :: 0 <= k < |adopters| ==> v.cards[k] == CardOf(adopters[k], themeType)
    {
      if |adopters| == 0 then Spinner
      else Grid(seq(|adopters|, k requires 0 <= k < |adopters| reads this => CardOf(adopters[k], themeType)))
    }
  }
}
