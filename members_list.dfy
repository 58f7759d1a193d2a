/**
 * `MembersList`: fetches the organizations of an Eclipse working group and shows
 * those with a given membership level as cards.
 *
 * The component's state (`loaded`, `members`) is a class whose methods are the
 * events React and `fetch` deliver: the effect running, its cleanup, and the
 * request settling. Each request the effect starts has its own abort signal,
 * recorded as aborted or not by request number; `console.error` is the list of
 * errors logged.
 */
module Members {
  import opened Wrappers
  import opened Seqs
  import opened WebFetch

  datatype Level = SD | AP | AS

  datatype LevelEntry = LevelEntry(level: Level, description: string, sortOrder: string)

  /** An organization of the response; `webLogo` is `logos.web`, which may be null. */
  datatype Member = Member(
    organizationId: int, name: string, webLogo: Option<string>, website: string, levels: seq<LevelEntry>)

  const MembersApi: string := "https://membership.eclipse.org/api/organizations?working_group="

  /** `member.levels.some((l) => l.level === level)`. */
  function HasLevel(level: Level): Member -> bool {
    (m: Member) => exists k :: 0 <= k < |m.levels| && m.levels[k].level == level
  }

  /** `data.filter(...)`: the members with the level. */
  function OfLevel(data: seq<Member>, level: Level): seq<Member> {
    Filter(HasLevel(level), data)
  }

  /**
   * The filter keeps exactly the members that hold the level, each as often as the
   * response lists it, in response order.
   */
  lemma OfLevelSpec(data: seq<Member>, level: Level)
    ensures forall m :: multiset(OfLevel(data, level))[m] == if HasLevel(level)(m) then multiset(data)[m] else 0
    ensures forall m :: m in OfLevel(data, level) <==> m in data && HasLevel(level)(m)
    ensures IsSubsequence(OfLevel(data, level), data)
  {
    forall m ensures multiset(OfLevel(data, level))[m] == if HasLevel(level)(m) then multiset(data)[m] else 0 {
      FilterCounts(HasLevel(level), data, m);
    }
    FilterIsSubsequence(HasLevel(level), data);
  }

  /** A response with no member of the level leaves nothing to show. */
  lemma NoneOfLevel(data: seq<Member>, level: Level)
    requires forall k :: 0 <= k < |data| ==> !HasLevel(level)(data[k])
    ensures OfLevel(data, level) == []
  {
    FilterNone(HasLevel(level), data);
  }

  /** The message of the Error a response that is not ok throws. */
  const FetchFailed := "Failed to fetch members"

  /** `MemberItem`: a link heading iff the website is set, the logo iff it is set, else the name. */
  function MemberItem(name: string, logo: Option<string>, url: string): (c: Card)
    ensures c.heading.LinkHeading? <==> Truthy(url)
    ensures c.heading.text == name && (c.heading.LinkHeading? ==> c.heading.href == url)
    ensures c.picture.Image? <==> logo.Some? && Truthy(logo.value)
    ensures c.picture.Image? ==> c.picture.src == logo.value
    ensures c.picture.NameText? ==> c.picture.text == name
  {
    Card(
      if url != "" then LinkHeading(url, name) else TextHeading(name),
      if logo.Some? && logo.value != "" then Image(logo.value) else NameText(name))
  }

  function CardOf(m: Member): Card {
    MemberItem(m.name, m.webLogo, m.website)
  }

  class MembersList {
    const collaborationId: string
    const level: Level
    var loaded: bool
    var members: seq<Member>
    /** The abort signal of each request started, by request number: aborted or not. */
    var signals: seq<bool>
    /** The request of the effect run whose cleanup is still due. */
    var current: Option<nat>
    var logged: seq<JsError>

    /** The current request is one that was started, and every member shown holds the level. */
    predicate Valid()
      reads this
    {
      (current.Some? ==> current.value < |signals|) &&
      forall k :: 0 <= k < |members| ==> HasLevel(level)(members[k])
    }

    /** The first render: not loaded, no members. */
    constructor (collaborationId: string, level: Level)
      ensures Valid() && this.collaborationId == collaborationId && this.level == level
      ensures !loaded && members == [] && signals == [] && current == None && logged == []
    {
      this.collaborationId := collaborationId;
      this.level := level;
      loaded := false;
      members := [];
      signals := [];
      current := None;
      logged := [];
    }

    /** The URL the effect fetches. */
    function Url(): string {
      MembersApi + collaborationId
    }

    /**
     * The effect, run after a render whose `members` or `loaded` changed: once
     * loaded it does nothing; otherwise it starts a request with a fresh signal.
     */
    method RunEffect() returns (request: Option<nat>)
      requires Valid() && current.None?
      modifies this
      ensures Valid()
      ensures old(loaded) ==> request == None && signals == old(signals) && current == None
      ensures !old(loaded) ==> request == Some(|old(signals)|) && signals == old(signals) + [false] && current == request
      ensures loaded == old(loaded) && members == old(members) && logged == old(logged)
    {
      if loaded {
        request := None;
        return;
      }
      request := Some(|signals|);
      signals := signals + [false];
      current := request;
    }

    /** The effect's cleanup, before it runs again or at unmount: abort its request. */
    method Cleanup()
      requires Valid() && current.Some?
      modifies this
      ensures Valid() && current == None
      ensures signals == old(signals)[old(current).value := true]
      ensures loaded == old(loaded) && members == old(members) && logged == old(logged)
    {
      signals := signals[current.value := true];
      current := None;
    }

    /**
     * Request `request` settled: an ok response sets the members of the level; an
     * error other than an AbortError is logged; then `loaded` is set unless the
     * request's signal was aborted.
     */
    method Settle(request: nat, outcome: Settlement<seq<Member>>)
      requires Valid() && request < |signals|
      modifies this
      ensures Valid()
      ensures outcome.Delivered? ==> members == OfLevel(outcome.data, level)
      ensures !outcome.Delivered? ==> members == old(members)
      ensures logged == old(logged) + Logged(outcome, FetchFailed)
      ensures signals == old(signals) && current == old(current)
      ensures loaded == (old(loaded) || !signals[request])
    {
      match outcome {
        case Delivered(data) =>
          members := OfLevel(data, level);
        case NotOk =>
          logged := logged + [JsError(false, "Error", FetchFailed)];
        case Rejected(e) =>
          if !IsAbortError(e) {
            logged := logged + [e];
          }
      }
      if !signals[request] {
        loaded := true;
      }
    }

    /** The render: a spinner while there are no members, else one card per member in order. */
    function Render(): (v: ListView)
      reads this
      ensures v.Spinner? <==> members == []
      ensures v.Grid? ==> |v.cards| == |members| && forall k :: 0 <= k < |members| ==> v.cards[k] == CardOf(members[k])
    {
      if |members| == 0 then Spinner else Grid(seq(|members|, k requires 0 <= k < |members| reads this => CardOf(members[k])))
    }
  }
}
