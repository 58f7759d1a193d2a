/**
 * The Open VSX extension census: `retrieve_extensions` pages through the search
 * API, `get_extension` fetches each extension with five tries, `get_all_extensions`
 * keeps the ones that arrived, `get_all_by_license` groups them by license, and
 * `write_tsv_file` lays them out as a tab-separated table.
 *
 * Each `requests.get` is an input: the search requests are the successive replies
 * observed, and the tries of one extension lookup are a function from the try
 * number to what that try returned. `time.sleep` is recorded as the list of pauses.
 */
module AllExtensions {
  import opened Wrappers
  import opened Text
  import opened Seqs

  const ApiEndpoint: string := "https://open-vsx.org/"

  /** One entry of a search result page. */
  datatype Summary = Summary(namespace: string, name: string, url: string)

  /** The publisher record of an extension. */
  datatype Publisher = Publisher(loginName: string, fullName: Option<string>)

  /**
   * The JSON of one extension, with the keys the census reads; an optional key is
   * `None` when the JSON lacks it. `allVersions` and `files` are JSON objects, only
   * counted.
   */
  datatype Extension = Extension(
    name: string, namespace: string, allVersions: map<string, string>, publishedBy: Publisher,
    license: Option<string>, timestamp: string, downloadCount: int, reviewCount: int,
    files: map<string, string>, preRelease: bool, verified: bool, unrelatedPublisher: bool,
    namespaceAccess: string, preview: bool, homepage: Option<string>, repository: Option<string>,
    bugs: Option<string>, dependencies: seq<string>)

  /*
   * `retrieve_extensions`: request `offset=len(extensions)` until the number of
   * extensions gathered equals the reply's `totalSize`; any exception ends the loop
   * and the extensions gathered so far are returned.
   */

  /**
   * What one search request produced. `Broken` is an exception before the page was
   * added (the request, the JSON, or a missing 'extensions'); a reply without
   * 'totalSize' raises only after its page was added.
   */
  datatype SearchReply = Results(extensions: seq<Summary>, totalSize: Option<int>) | Broken(message: string)

  /** The offsets requested, the extensions returned, and whether the loop ended. */
  datatype Retrieval = Retrieval(offsets: seq<nat>, extensions: seq<Summary>, finished: bool)

  function PageUrl(offset: nat): string {
    ApiEndpoint + "api/-/search?size=100" + "&offset=" + NatToString(offset)
  }

  function PageOf(reply: SearchReply): seq<Summary> {
    if reply.Results? then reply.extensions else []
  }

  /** Whether the loop ends at this reply, with `before` extensions gathered before it. */
  predicate Stops(reply: SearchReply, before: nat) {
    match reply
    case Broken(_) => true
    case Results(page, total) => total.None? || before + |page| == total.value
  }

  /** The loop from reply `i` on, having requested `offsets` and gathered `acc`. */
  function RetrieveFrom(replies: seq<SearchReply>, i: nat, offsets: seq<nat>, acc: seq<Summary>): Retrieval
    requires i <= |replies|
    decreases |replies| - i
  {
    if i == |replies| then Retrieval(offsets, acc, false)
    else
      var next := acc + PageOf(replies[i]);
      if Stops(replies[i], |acc|) then Retrieval(offsets + [|acc|], next, true)
      else RetrieveFrom(replies, i + 1, offsets + [|acc|], next)
  }

  /** What `retrieve_extensions` does over the observed replies (`finished` false: it still pages). */
  function Retrieve(replies: seq<SearchReply>): Retrieval {
    RetrieveFrom(replies, 0, [], [])
  }

  /** The extensions of the first `n` replies, in order. */
  function Gathered(replies: seq<SearchReply>, n: nat): seq<Summary>
    requires n <= |replies|
  {
    if n == 0 then [] else Gathered(replies, n - 1) + PageOf(replies[n - 1])
  }

  /** The requests' offsets count what came before, and the result is every page requested. */
  lemma {:induction false} RetrieveFromGathers(replies: seq<SearchReply>, i: nat, offsets: seq<nat>, acc: seq<Summary>)
    requires i <= |replies| && |offsets| == i && acc == Gathered(replies, i)
    requires forall k :: 0 <= k < i ==> offsets[k] == |Gathered(replies, k)|
    ensures var r := RetrieveFrom(replies, i, offsets, acc);
      i <= |r.offsets| <= |replies| &&
      (forall k :: 0 <= k < |r.offsets| ==> r.offsets[k] == |Gathered(replies, k)|) &&
      r.extensions == Gathered(replies, |r.offsets|)
    decreases |replies| - i
  {
    if i < |replies| {
      var next := acc + PageOf(replies[i]);
      assert next == Gathered(replies, i + 1);
      if !Stops(replies[i], |acc|) {
        RetrieveFromGathers(replies, i + 1, offsets + [|acc|], next);
      }
    }
  }

  /** The loop went on after each of the first `n` replies. */
  predicate GoesOn(replies: seq<SearchReply>, n: nat)
    requires n <= |replies|
  {
    n == 0 || (GoesOn(replies, n - 1) && !Stops(replies[n - 1], |Gathered(replies, n - 1)|))
  }

  /** No reply among the first `n` of a loop that went on stops it. */
  lemma {:induction false} GoesOnAt(replies: seq<SearchReply>, n: nat, k: nat)
    requires n <= |replies| && GoesOn(replies, n) && k < n
    ensures !Stops(replies[k], |Gathered(replies, k)|)
  {
    if k < n - 1 {
      GoesOnAt(replies, n - 1, k);
    }
  }

  /** The loop went on after each of the first `n - 1` replies and ended at reply `n - 1`. */
  predicate EndsAt(replies: seq<SearchReply>, n: nat)
    requires n <= |replies|
  {
    n > 0 && GoesOn(replies, n - 1) && Stops(replies[n - 1], |Gathered(replies, n - 1)|)
  }

  /** The loop goes on past every reply before its last, and ends exactly when that last one stops it. */
  lemma {:induction false} RetrieveFromStops(replies: seq<SearchReply>, i: nat, offsets: seq<nat>, acc: seq<Summary>)
    requires i <= |replies| && |offsets| == i && acc == Gathered(replies, i)
    requires GoesOn(replies, i)
    ensures var r := RetrieveFrom(replies, i, offsets, acc);
      |r.offsets| <= |replies| &&
      (r.finished ==> EndsAt(replies, |r.offsets|)) &&
      (!r.finished ==> |r.offsets| == |replies| && GoesOn(replies, |replies|))
    decreases |replies| - i
  {
    if i < |replies| {
      var next := acc + PageOf(replies[i]);
      assert next == Gathered(replies, i + 1);
      if !Stops(replies[i], |acc|) {
        assert GoesOn(replies, i + 1);
        assert RetrieveFrom(replies, i, offsets, acc) == RetrieveFrom(replies, i + 1, offsets + [|acc|], next);
        RetrieveFromStops(replies, i + 1, offsets + [|acc|], next);
      } else {
        assert RetrieveFrom(replies, i, offsets, acc) == Retrieval(offsets + [|acc|], next, true);
        assert EndsAt(replies, i + 1);
      }
    }
  }

  /**
   * Request `k` asks for offset `|Gathered(replies, k)|`, the number of extensions
   * so far; the result is all extensions of the pages requested; the loop went on
   * past every reply but its last, and ended exactly when that last reply stops it.
   */
  lemma RetrieveSpec(replies: seq<SearchReply>)
    ensures var r := Retrieve(replies);
      |r.offsets| <= |replies| &&
      (forall k :: 0 <= k < |r.offsets| ==> r.offsets[k] == |Gathered(replies, k)|) &&
      r.extensions == Gathered(replies, |r.offsets|)
    ensures var r := Retrieve(replies);
      (r.finished ==> EndsAt(replies, |r.offsets|)) &&
      (!r.finished ==> |r.offsets| == |replies| && GoesOn(replies, |replies|))
  {
    RetrieveFromGathers(replies, 0, [], []);
    RetrieveFromStops(replies, 0, [], []);
  }

  /** `retrieve_extensions`, with the search URLs it requested. */
  method RetrieveExtensions(replies: seq<SearchReply>) returns (urls: seq<string>, r: Retrieval)
    ensures r == Retrieve(replies)
    ensures |urls| == |r.offsets| && forall k :: 0 <= k < |urls| ==> urls[k] == PageUrl(r.offsets[k])
  {
    var extensions: seq<Summary> := [];
    var done := false;
    var offset: nat := 0;
    var offsets: seq<nat> := [];
    var i := 0;
    urls := [];
    while !done && i < |replies|
      invariant i <= |replies| && offset == |extensions|
      invariant |urls| == |offsets| && forall k :: 0 <= k < |urls| ==> urls[k] == PageUrl(offsets[k])
      invariant !done ==> RetrieveFrom(replies, i, offsets, extensions) == Retrieve(replies)
      invariant done ==> Retrieval(offsets, extensions, true) == Retrieve(replies)
      decreases |replies| - i, if done then 0 else 1
    {
      urls := urls + [PageUrl(offset)];
      offsets := offsets + [offset];
      match replies[i]
      case Broken(_) =>
        done := true;
      case Results(page, total) =>
        extensions := extensions + page;
        offset := |extensions|;
        // A missing 'totalSize' raises KeyError here, which also ends the loop.
        if total.None? || |extensions| == total.value {
          done := true;
        }
      i := i + 1;
    }
    r := Retrieval(offsets, extensions, done);
  }

  /*
   * `get_extension`: up to five tries; a try that raises a `RequestException` (no
   * response, an HTTP error status, a body that is not JSON) is followed by a
   * two-second pause; after five failures the result is `None`.
   */

  /** What one `requests.get` of an extension produced; `body` is `None` when it is not JSON. */
  datatype Fetch = Response(status: int, body: Option<Extension>) | RequestError(message: string)

  /** The try returned its JSON: `raise_for_status` passes every status outside 400..599. */
  predicate Fetched(f: Fetch) {
    f.Response? && !(400 <= f.status < 600) && f.body.Some?
  }

  function ExtensionUrl(s: Summary): string {
    ApiEndpoint + "api/" + s.namespace + "/" + s.name
  }

  /** The outcome of the tries from number `k` on. */
  function LookupFrom(tries: nat -> Fetch, k: nat): Option<Extension>
    requires k <= 5
    decreases 5 - k
  {
    if k == 5 then None
    else if Fetched(tries(k)) then tries(k).body
    else LookupFrom(tries, k + 1)
  }

  /** The value `get_extension` returns. */
  function Lookup(tries: nat -> Fetch): Option<Extension> {
    LookupFrom(tries, 0)
  }

  lemma {:induction false} LookupFromSpec(tries: nat -> Fetch, k: nat)
    requires k <= 5
    ensures LookupFrom(tries, k).Some? <==> exists j :: k <= j < 5 && Fetched(tries(j))
    ensures LookupFrom(tries, k).Some? ==>
      exists j :: k <= j < 5 && Fetched(tries(j)) && LookupFrom(tries, k) == tries(j).body &&
        forall i :: k <= i < j ==> !Fetched(tries(i))
    decreases 5 - k
  {
    if k < 5 && !Fetched(tries(k)) {
      LookupFromSpec(tries, k + 1);
    }
  }

  /** A lookup succeeds exactly when one of its five tries does, and returns the first success's JSON. */
  lemma LookupSpec(tries: nat -> Fetch)
    ensures Lookup(tries).Some? <==> exists j :: 0 <= j < 5 && Fetched(tries(j))
    ensures Lookup(tries).Some? ==>
      exists j :: 0 <= j < 5 && Fetched(tries(j)) && Lookup(tries) == tries(j).body &&
        forall i :: 0 <= i < j ==> !Fetched(tries(i))
  {
    LookupFromSpec(tries, 0);
  }

  /** `get_extension`, with the pauses it sleeps. */
  method GetExtension(tries: nat -> Fetch) returns (sleeps: seq<nat>, r: Option<Extension>)
    ensures r == Lookup(tries)
    ensures forall k :: 0 <= k < |sleeps| ==> sleeps[k] == 2 && !Fetched(tries(k))
    ensures r.Some? ==> |sleeps| < 5 && Fetched(tries(|sleeps|)) && r == tries(|sleeps|).body
    ensures r.None? ==> |sleeps| == 5
  {
    var retryCount := 5;
    sleeps := [];
    while retryCount > 0
      invariant 0 <= retryCount <= 5 && |sleeps| == 5 - retryCount
      invariant forall k :: 0 <= k < |sleeps| ==> sleeps[k] == 2 && !Fetched(tries(k))
      invariant LookupFrom(tries, |sleeps|) == Lookup(tries)
    {
      var response := tries(5 - retryCount);
      if Fetched(response) {
        return sleeps, response.body;
      }
      retryCount := retryCount - 1;
      sleeps := sleeps + [2];
    }
    r := None;
  }

  /*
   * `get_all_extensions`: look every search entry up, keep the JSON of those that
   * arrived, report the URL of those that did not, and report progress at every
   * hundredth entry.
   */

  /** The tries of each entry's lookup, from the tries of each URL. */
  function Lookups(fetch: string -> (nat -> Fetch)): Summary -> (nat -> Fetch) {
    s => fetch(ExtensionUrl(s))
  }

  /** The extensions found, in search order. */
  function Found(lookup: Summary -> (nat -> Fetch), ss: seq<Summary>): seq<Extension> {
    if ss == [] then []
    else
      var last := Lookup(lookup(ss[|ss| - 1]));
      Found(lookup, ss[..|ss| - 1]) + (if last.Some? then [last.value] else [])
  }

  /** The URLs of the entries whose lookup failed ('Error retrieving ...'). */
  function Missed(lookup: Summary -> (nat -> Fetch), ss: seq<Summary>): seq<string> {
    if ss == [] then []
    else
      var last := Lookup(lookup(ss[|ss| - 1]));
      Missed(lookup, ss[..|ss| - 1]) + (if last.None? then [ss[|ss| - 1].url] else [])
  }

  /** The counts at which 'Processed ... of ...' is printed among the first `n`. */
  function Milestones(n: nat): seq<nat> {
    if n == 0 then [] else Milestones(n - 1) + (if n % 100 == 0 then [n] else [])
  }

  /** Progress is reported at 100, 200, ... and nowhere else. */
  lemma {:induction false} MilestonesSpec(n: nat)
    ensures |Milestones(n)| == n / 100
    ensures forall j :: 0 <= j < |Milestones(n)| ==> Milestones(n)[j] == 100 * (j + 1)
  {
    if n > 0 {
      MilestonesSpec(n - 1);
      var q := (n - 1) / 100;
      assert n - 1 == 100 * q + (n - 1) % 100;
      if n % 100 == 0 {
        assert (n - 1) % 100 == 99;
        assert n == 100 * (q + 1);
        assert n / 100 == q + 1;
      } else {
        assert (n - 1) % 100 < 99;
        assert n == 100 * q + ((n - 1) % 100 + 1);
        assert n / 100 == q;
      }
    }
  }

  /** Every entry is either found or reported missing. */
  lemma {:induction false} FoundOrMissed(lookup: Summary -> (nat -> Fetch), ss: seq<Summary>)
    ensures |Found(lookup, ss)| + |Missed(lookup, ss)| == |ss|
  {
    if ss != [] {
      FoundOrMissed(lookup, ss[..|ss| - 1]);
    }
  }

  /** The lookups of consecutive runs of entries add up in order. */
  lemma {:induction false} FoundAppend(lookup: Summary -> (nat -> Fetch), a: seq<Summary>, b: seq<Summary>)
    ensures Found(lookup, a + b) == Found(lookup, a) + Found(lookup, b)
    decreases |b|
  {
    if b == [] {
      assert a + b == a;
    } else {
      var init := b[..|b| - 1];
      assert (a + b)[..|a + b| - 1] == a + init;
      FoundAppend(lookup, a, init);
    }
  }

  /** An extension is in the census exactly when some entry's lookup returned it. */
  lemma {:induction false} FoundSpec(lookup: Summary -> (nat -> Fetch), ss: seq<Summary>, e: Extension)
    ensures e in Found(lookup, ss) <==> exists k :: 0 <= k < |ss| && Lookup(lookup(ss[k])) == Some(e)
  {
    if ss != [] {
      var init := ss[..|ss| - 1];
      FoundSpec(lookup, init, e);
      if exists k :: 0 <= k < |init| && Lookup(lookup(init[k])) == Some(e) {
        var k :| 0 <= k < |init| && Lookup(lookup(init[k])) == Some(e);
        assert ss[k] == init[k];
      }
      if exists k :: 0 <= k < |ss| && Lookup(lookup(ss[k])) == Some(e) {
        var k :| 0 <= k < |ss| && Lookup(lookup(ss[k])) == Some(e);
        if k < |init| {
          assert init[k] == ss[k];
        }
      }
    }
  }

  /** What `get_all_extensions` returns, and what it reports. */
  datatype Census = Census(extensions: seq<Extension>, missed: seq<string>, progress: seq<nat>)

  /** The loop of `get_all_extensions` over the search entries. */
  method LookUpAll(lookup: Summary -> (nat -> Fetch), ss: seq<Summary>) returns (c: Census)
    ensures c == Census(Found(lookup, ss), Missed(lookup, ss), Milestones(|ss|))
  {
    var count: nat := 1;
    var all: seq<Extension> := [];
    var missed: seq<string> := [];
    var progress: seq<nat> := [];
    while count <= |ss|
      invariant 1 <= count <= |ss| + 1
      invariant all == Found(lookup, ss[..count - 1]) && missed == Missed(lookup, ss[..count - 1])
      invariant progress == Milestones(count - 1)
    {
      var extension := ss[count - 1];
      assert ss[..count][..count - 1] == ss[..count - 1];
      var _, results := GetExtension(lookup(extension));
      if results.None? {
        missed := missed + [extension.url];
      } else {
        all := all + [results.value];
      }
      if count % 100 == 0 {
        progress := progress + [count];
      }
      count := count + 1;
    }
    assert ss[..|ss|] == ss;
    c := Census(all, missed, progress);
  }

  /**
   * `get_all_extensions`: nothing after the search runs while it is still paging
   * (`None`); then the census of the entries it returned.
   */
  method GetAllExtensions(replies: seq<SearchReply>, fetch: string -> (nat -> Fetch))
    returns (urls: seq<string>, c: Option<Census>)
    ensures var found := Retrieve(replies);
      c == if found.finished then Some(Census(Found(Lookups(fetch), found.extensions),
        Missed(Lookups(fetch), found.extensions), Milestones(|found.extensions|))) else None
  {
    var found;
    urls, found := RetrieveExtensions(replies);
    if !found.finished {
      return urls, None;
    }
    var census := LookUpAll(Lookups(fetch), found.extensions);
    c := Some(census);
  }

  /*
   * `get_all_by_license`: the extensions grouped by their 'license' ('None' when it
   * is missing), each group in census order, the groups sorted by license. The
   * grouping is written for any key; the census uses the license.
   */

  function LicenseName(e: Extension): string {
    OrNone(e.license)
  }

  /** The key of each item, in order. */
  function KeysOf<E>(key: E -> string, xs: seq<E>): (r: seq<string>)
    ensures |r| == |xs|
  {
    if xs == [] then [] else KeysOf(key, xs[..|xs| - 1]) + [key(xs[|xs| - 1])]
  }

  /** The `k`-th key is the key of the `k`-th item. */
  lemma {:induction false} KeysOfIndex<E>(key: E -> string, xs: seq<E>, k: nat)
    requires k < |xs|
    ensures KeysOf(key, xs)[k] == key(xs[k])
  {
    if k < |xs| - 1 {
      KeysOfIndex(key, xs[..|xs| - 1], k);
    }
  }

  function Having<E>(key: E -> string, l: string): E -> bool {
    x => key(x) == l
  }

  /** A dictionary from key to the items with that key, in `sorted(d.items())` order. */
  function Grouped<E>(key: E -> string, xs: seq<E>): seq<(string, seq<E>)> {
    var keys := Sort(FirstOccurrences(KeysOf(key, xs)));
    seq(|keys|, i requires 0 <= i < |keys| => (keys[i], Filter(Having(key, keys[i]), xs)))
  }

  /** The dictionary `get_all_by_license` returns, as its list of items. */
  function ByLicense(all: seq<Extension>): seq<(string, seq<Extension>)> {
    Grouped(LicenseName, all)
  }

  /**
   * The keys are listed once each, in ascending order, and are exactly the keys of
   * the items; every group is non-empty and keeps the items' order.
   */
  lemma GroupedKeys<E>(key: E -> string, xs: seq<E>)
    ensures var g := Grouped(key, xs);
      forall i, j :: 0 <= i < j < |g| ==> Less(g[i].0, g[j].0)
    ensures var g := Grouped(key, xs);
      forall l :: (exists i :: 0 <= i < |g| && g[i].0 == l) <==> l in KeysOf(key, xs)
    ensures var g := Grouped(key, xs);
      forall i :: 0 <= i < |g| ==> g[i].1 != [] && IsSubsequence(g[i].1, xs)
  {
    var g := Grouped(key, xs);
    var keys := Sort(FirstOccurrences(KeysOf(key, xs)));
    FirstOccurrencesSpec(KeysOf(key, xs));
    forall l | l in KeysOf(key, xs)
      ensures exists i :: 0 <= i < |g| && g[i].0 == l
    {
      assert l in keys;
      var i :| 0 <= i < |keys| && keys[i] == l;
      assert g[i].0 == l;
    }
    forall i | 0 <= i < |g|
      ensures g[i].1 != [] && IsSubsequence(g[i].1, xs)
    {
      assert keys[i] in keys;
      var k :| 0 <= k < |xs| && KeysOf(key, xs)[k] == keys[i];
      KeysOfIndex(key, xs, k);
      FilterKeeps(Having(key, keys[i]), xs, xs[k]);
      FilterIsSubsequence(Having(key, keys[i]), xs);
    }
  }

  /** An item is in exactly the group of its own key. */
  lemma GroupedPartition<E>(key: E -> string, xs: seq<E>, x: E)
    requires x in xs
    ensures var g := Grouped(key, xs);
      (exists i :: 0 <= i < |g| && g[i].0 == key(x)) &&
      forall i :: 0 <= i < |g| ==> (x in g[i].1 <==> g[i].0 == key(x))
  {
    var g := Grouped(key, xs);
    var k :| 0 <= k < |xs| && xs[k] == x;
    KeysOfIndex(key, xs, k);
    assert key(x) in KeysOf(key, xs);
    GroupedKeys(key, xs);
    forall i | 0 <= i < |g|
      ensures x in g[i].1 <==> g[i].0 == key(x)
    {
      if g[i].0 == key(x) {
        FilterKeeps(Having(key, g[i].0), xs, x);
      }
    }
  }

  /** The dictionary the loop builds from `xs`: each key's items, appended as they come. */
  function GroupMap<E>(key: E -> string, xs: seq<E>): map<string, seq<E>> {
    if xs == [] then map[]
    else
      var m := GroupMap(key, xs[..|xs| - 1]);
      var x := xs[|xs| - 1];
      if key(x) in m then m[key(x) := m[key(x)] + [x]] else m[key(x) := [x]]
  }

  lemma KeysOfSnoc<E>(key: E -> string, xs: seq<E>, x: E)
    ensures KeysOf(key, xs + [x]) == KeysOf(key, xs) + [key(x)]
  {
    assert (xs + [x])[..|xs|] == xs;
  }

  /** The dictionary's keys are the items' keys. */
  lemma {:induction false} GroupMapHas<E>(key: E -> string, xs: seq<E>, l: string)
    ensures l in GroupMap(key, xs) <==> l in KeysOf(key, xs)
  {
    if xs != [] {
      var init := xs[..|xs| - 1];
      GroupMapHas(key, init, l);
      assert xs == init + [xs[|xs| - 1]];
      KeysOfSnoc(key, init, xs[|xs| - 1]);
    }
  }

  /** Each key's list is the items with that key, in order. */
  lemma {:induction false} GroupMapValues<E>(key: E -> string, xs: seq<E>, l: string)
    requires l in GroupMap(key, xs)
    ensures GroupMap(key, xs)[l] == Filter(Having(key, l), xs)
  {
    var init := xs[..|xs| - 1];
    var x := xs[|xs| - 1];
    assert xs == init + [x];
    FilterSnoc(Having(key, l), init, x);
    if l in GroupMap(key, init) {
      GroupMapValues(key, init, l);
    } else {
      GroupMapHas(key, init, l);
      forall k | 0 <= k < |init|
        ensures !Having(key, l)(init[k])
      {
        KeysOfIndex(key, init, k);
      }
      FilterNone(Having(key, l), init);
    }
  }

  /** The items of `m` for the keys `ks`, in that order. */
  function Items<E>(m: map<string, seq<E>>, ks: seq<string>): (r: seq<(string, seq<E>)>)
    requires forall l :: l in ks ==> l in m
    ensures |r| == |ks| && forall i :: 0 <= i < |ks| ==> r[i] == (ks[i], m[ks[i]])
  {
    seq(|ks|, i requires 0 <= i < |ks| => (ks[i], m[ks[i]]))
  }

  /** The finished dictionary, its items sorted, is the grouping. */
  lemma ItemsAreGroups<E>(key: E -> string, xs: seq<E>)
    ensures forall l :: l in Sort(FirstOccurrences(KeysOf(key, xs))) ==> l in GroupMap(key, xs)
    ensures Items(GroupMap(key, xs), Sort(FirstOccurrences(KeysOf(key, xs)))) == Grouped(key, xs)
  {
    FirstOccurrencesSpec(KeysOf(key, xs));
    forall l | l in KeysOf(key, xs)
      ensures l in GroupMap(key, xs) && GroupMap(key, xs)[l] == Filter(Having(key, l), xs)
    {
      GroupMapHas(key, xs, l);
      GroupMapValues(key, xs, l);
    }
  }

  /** The dictionary and its key order after the items `done`. */
  ghost predicate GroupedSoFar<E>(key: E -> string, done: seq<E>, m: map<string, seq<E>>, keys: seq<string>) {
    m == GroupMap(key, done) && keys == FirstOccurrences(KeysOf(key, done))
  }

  /** One step of the loop: append `x` to its key's list, or start the list and note the key. */
  method AddToGroup<E>(key: E -> string, ghost done: seq<E>, x: E, m: map<string, seq<E>>, keys: seq<string>)
    returns (m': map<string, seq<E>>, keys': seq<string>)
    requires GroupedSoFar(key, done, m, keys)
    ensures GroupedSoFar(key, done + [x], m', keys')
  {
    var name := key(x);
    assert (done + [x])[..|done|] == done;
    KeysOfSnoc(key, done, x);
    FirstOccurrencesSnoc(KeysOf(key, done), name);
    GroupMapHas(key, done, name);
    if name in m {
      m', keys' := m[name := m[name] + [x]], keys;
    } else {
      m', keys' := m[name := [x]], keys + [name];
    }
  }

  /** The loop of `get_all_by_license`, with the counts it reports progress at. */
  method GroupBy<E>(key: E -> string, xs: seq<E>) returns (groups: seq<(string, seq<E>)>, progress: seq<nat>)
    ensures groups == Grouped(key, xs)
    ensures progress == Milestones(|xs|)
  {
    var byKey: map<string, seq<E>> := map[];
    var keys: seq<string> := [];  // the dictionary's key order
    ghost var done: seq<E> := [];
    var count: nat := 1;
    progress := [];
    while count <= |xs|
      invariant 1 <= count <= |xs| + 1 && done == xs[..count - 1]
      invariant GroupedSoFar(key, done, byKey, keys)
      invariant progress == Milestones(count - 1)
    {
      var x := xs[count - 1];
      byKey, keys := AddToGroup(key, done, x, byKey, keys);
      done := done + [x];
      if count % 100 == 0 {
        progress := progress + [count];
      }
      count := count + 1;
    }
    assert done == xs;
    ItemsAreGroups(key, xs);
    groups := Items(byKey, Sort(keys));
  }

  /** `get_all_by_license` over the census. */
  method GetAllByLicense(all: seq<Extension>) returns (groups: seq<(string, seq<Extension>)>, progress: seq<nat>)
    ensures groups == ByLicense(all)
    ensures progress == Milestones(|all|)
  {
    groups, progress := GroupBy(LicenseName, all);
  }

  /*
   * `write_tsv_file`: a header of nineteen column names, then one line per
   * extension with its nineteen values, tab-separated.
   */

  /** The column names, in the four runs the header is written in. */
  const IdentityColumns: seq<string> := ["Name", "Namespace", "Versions", "Login Name"]
  const StandingColumns: seq<string> := ["Full Name", "License", "Timestamp", "Downloads", "Reviews", "Files"]
  const FlagColumns: seq<string> := ["PreRelease", "Verified", "Unrelated Publisher", "Namespace Access", "Preview"]
  const LinkColumns: seq<string> := ["Homepage", "Repo", "Bugs", "Bundled Extensions"]
  const Columns: seq<string> := IdentityColumns + StandingColumns + FlagColumns + LinkColumns

  /** The header line: the column names joined by tabs. */
  function Header(): string {
    Join(Columns, "\t") + "\n"
  }

  /** Python `str` of a boolean. */
  function PyBool(b: bool): string {
    if b then "True" else "False"
  }

  /** The values of one line, in the four runs the formats add them in. */
  function Identity(e: Extension): seq<string> {
    [e.name, e.namespace, NatToString(|e.allVersions|), e.publishedBy.loginName]
  }

  function Standing(e: Extension): seq<string> {
    [OrNone(e.publishedBy.fullName), OrNone(e.license), e.timestamp, IntToString(e.downloadCount),
     IntToString(e.reviewCount), NatToString(|e.files|)]
  }

  function Flags(e: Extension): seq<string> {
    [PyBool(e.preRelease), PyBool(e.verified), PyBool(e.unrelatedPublisher), e.namespaceAccess, PyBool(e.preview)]
  }

  function Links(e: Extension): seq<string> {
    [OrNone(e.homepage), OrNone(e.repository), OrNone(e.bugs), NatToString(|e.dependencies|)]
  }

  /** The values of one line, column by column. */
  function Cells(e: Extension): seq<string> {
    Identity(e) + Standing(e) + Flags(e) + Links(e)
  }

  /** One line as the four `%`-formats build it, each starting from the one before. */
  function Row(e: Extension): string {
    var row := Join(Identity(e), "\t");
    var row := Join([row] + Standing(e), "\t");
    var row := Join([row] + Flags(e), "\t");
    Join([row] + Links(e), "\t") + "\n"
  }

  /** The four formats build the nineteen values joined by tabs. */
  lemma RowCells(e: Extension)
    ensures Row(e) == Join(Cells(e), "\t") + "\n"
  {
    JoinStages(Identity(e), Standing(e), Flags(e), Links(e), "\t");
  }

  predicate Clean(s: string) {
    '\t' !in s && '\n' !in s
  }

  /** Every value of the line of `e` is free of tabs and line breaks. */
  predicate Plain(e: Extension) {
    AllClean(Cells(e))
  }

  /** A line of plain values splits at its tabs into one value per column. */
  lemma RowSplits(e: Extension)
    requires Plain(e)
    ensures |Cells(e)| == |Columns|
    ensures '\n' !in Join(Cells(e), "\t")
    ensures Split(Join(Cells(e), "\t"), '\t') == Cells(e)
  {
    JoinClean(Cells(e));
    SplitJoin(Cells(e), '\t');
  }

  lemma {:induction false} JoinClean(parts: seq<string>)
    requires forall k :: 0 <= k < |parts| ==> Clean(parts[k])
    ensures '\n' !in Join(parts, "\t")
    decreases |parts|
  {
    if |parts| > 1 {
      JoinClean(parts[..|parts| - 1]);
    }
  }

  predicate AllClean(parts: seq<string>) {
    forall k :: 0 <= k < |parts| ==> Clean(parts[k])
  }

  lemma AllCleanAppend(a: seq<string>, b: seq<string>)
    requires AllClean(a) && AllClean(b)
    ensures AllClean(a + b)
  {
    assert forall k :: |a| <= k < |a + b| ==> (a + b)[k] == b[k - |a|];
  }

  lemma IdentityColumnsClean() ensures AllClean(IdentityColumns) {}
  lemma StandingColumnsClean() ensures AllClean(StandingColumns) {}
  lemma FlagColumnsClean() ensures AllClean(FlagColumns) {}
  lemma LinkColumnsClean() ensures AllClean(LinkColumns) {}

  /** No column name holds a tab or a line break. */
  lemma ColumnsClean()
    ensures |Columns| == 19 && AllClean(Columns)
  {
    IdentityColumnsClean();
    StandingColumnsClean();
    FlagColumnsClean();
    LinkColumnsClean();
    AllCleanAppend(IdentityColumns, StandingColumns);
    AllCleanAppend(IdentityColumns + StandingColumns, FlagColumns);
    AllCleanAppend(IdentityColumns + StandingColumns + FlagColumns, LinkColumns);
  }

  /** The text of the first `n` rows. */
  function Rows(row: Extension -> string, exts: seq<Extension>, n: nat): string
    requires n <= |exts|
  {
    if n == 0 then [] else Rows(row, exts, n - 1) + row(exts[n - 1])
  }

  /** What `f` gives each extension (its line, or its values), in order. */
  function Each<T>(f: Extension -> T, exts: seq<Extension>): (r: seq<T>)
    ensures |r| == |exts| && forall k :: 0 <= k < |exts| ==> r[k] == f(exts[k])
  {
    seq(|exts|, k requires 0 <= k < |exts| => f(exts[k]))
  }

  lemma {:induction false} RowsTerminated(row: Extension -> string, line: Extension -> string, exts: seq<Extension>, n: nat)
    requires n <= |exts|
    requires forall k :: 0 <= k < |exts| ==> row(exts[k]) == line(exts[k]) + "\n"
    ensures Rows(row, exts, n) == Concat(Terminated(Each(line, exts[..n])))
  {
    if n > 0 {
      RowsTerminated(row, line, exts, n - 1);
      var t := Terminated(Each(line, exts[..n]));
      assert t[..|t| - 1] == Terminated(Each(line, exts[..n - 1]));
    } else {
      assert Terminated(Each(line, exts[..0])) == [];
    }
  }

  /** Each line split at its tabs. */
  function SplitAll(lines: seq<string>): (r: seq<seq<string>>)
    ensures |r| == |lines| && forall k :: 0 <= k < |lines| ==> r[k] == Split(lines[k], '\t')
  {
    seq(|lines|, k requires 0 <= k < |lines| => Split(lines[k], '\t'))
  }

  /** A tab-separated text read back: its lines, each split at its tabs. */
  function ReadBack(text: string): seq<seq<string>> {
    SplitAll(SplitLines(text))
  }

  /**
   * A header line and rows that each join their values by tabs read back as the
   * header names and the rows' values.
   */
  lemma TableReadsBack(header: seq<string>, cells: Extension -> seq<string>, row: Extension -> string,
                       exts: seq<Extension>)
    requires header != [] && forall k :: 0 <= k < |header| ==> Clean(header[k])
    requires forall k :: 0 <= k < |exts| ==>
      cells(exts[k]) != [] && row(exts[k]) == Join(cells(exts[k]), "\t") + "\n" &&
      forall j :: 0 <= j < |cells(exts[k])| ==> Clean(cells(exts[k])[j])
    ensures ReadBack(Join(header, "\t") + "\n" + Rows(row, exts, |exts|)) == [header] + Each(cells, exts)
  {
    JoinClean(header);
    SplitJoin(header, '\t');
    LinesSplit(cells, exts);
    TableLines(Join(header, "\t"), row, Joined(cells), exts);
    SplitAllLines(header, cells, exts);
  }

  lemma SplitAllLines(header: seq<string>, cells: Extension -> seq<string>, exts: seq<Extension>)
    requires Split(Join(header, "\t"), '\t') == header
    requires forall k :: 0 <= k < |exts| ==> Split(Joined(cells)(exts[k]), '\t') == cells(exts[k])
    ensures SplitAll([Join(header, "\t")] + Each(Joined(cells), exts)) == [header] + Each(cells, exts)
  {
    var lines := [Join(header, "\t")] + Each(Joined(cells), exts);
    forall k | 0 < k < |lines|
      ensures SplitAll(lines)[k] == ([header] + Each(cells, exts))[k]
    {
      assert lines[k] == Joined(cells)(exts[k - 1]);
    }
  }

  /** The line of an extension: its values joined by tabs. */
  function Joined(cells: Extension -> seq<string>): Extension -> string {
    e => Join(cells(e), "\t")
  }

  /** Lines of clean values have no line break, and split back into their values. */
  lemma LinesSplit(cells: Extension -> seq<string>, exts: seq<Extension>)
    requires forall k :: 0 <= k < |exts| ==>
      cells(exts[k]) != [] && forall j :: 0 <= j < |cells(exts[k])| ==> Clean(cells(exts[k])[j])
    ensures forall k :: 0 <= k < |exts| ==>
      '\n' !in Joined(cells)(exts[k]) && Split(Joined(cells)(exts[k]), '\t') == cells(exts[k])
  {
    forall k | 0 <= k < |exts|
      ensures '\n' !in Joined(cells)(exts[k]) && Split(Joined(cells)(exts[k]), '\t') == cells(exts[k])
    {
      JoinClean(cells(exts[k]));
      SplitJoin(cells(exts[k]), '\t');
    }
  }

  /** A header line followed by rows that are lines reads back as those lines. */
  lemma TableLines(header: string, row: Extension -> string, line: Extension -> string, exts: seq<Extension>)
    requires '\n' !in header
    requires forall k :: 0 <= k < |exts| ==> row(exts[k]) == line(exts[k]) + "\n" && '\n' !in line(exts[k])
    ensures SplitLines(header + "\n" + Rows(row, exts, |exts|)) == [header] + Each(line, exts)
  {
    var lines := [header] + Each(line, exts);
    RowsTerminated(row, line, exts, |exts|);
    assert exts[..|exts|] == exts;
    TerminatedCons(lines);
    assert lines[1..] == Each(line, exts);
    SplitLinesOfLines(lines);
  }

  /** `write_tsv_file`: the text it writes. */
  method WriteTsvFile(exts: seq<Extension>) returns (text: string)
    ensures text == Header() + Rows(Row, exts, |exts|)
  {
    text := WriteTable(Header(), Row, exts);
  }

  /** The header, then the line of each extension in turn. */
  method WriteTable(columns: string, row: Extension -> string, exts: seq<Extension>) returns (text: string)
    ensures text == columns + Rows(row, exts, |exts|)
  {
    text := columns;
    for k := 0 to |exts|
      invariant text == columns + Rows(row, exts, k)
    {
      text := text + row(exts[k]);
    }
  }

  /**
   * Read back line by line and split at tabs, the file of plain extensions is the
   * header's nineteen column names and then each extension's nineteen values.
   */
  lemma TsvTable(exts: seq<Extension>)
    requires forall k :: 0 <= k < |exts| ==> Plain(exts[k])
    ensures ReadBack(Header() + Rows(Row, exts, |exts|)) == [Columns] + Each(Cells, exts)
    ensures forall k :: 0 <= k < |exts| ==> |Cells(exts[k])| == |Columns|
  {
    ColumnsClean();
    forall k | 0 <= k < |exts|
      ensures Cells(exts[k]) != [] && Row(exts[k]) == Join(Cells(exts[k]), "\t") + "\n"
    {
      RowCells(exts[k]);
    }
    TableReadsBack(Columns, Cells, Row, exts);
  }
}
