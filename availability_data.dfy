/**
 * The Better Uptime availability report: `make_api_call`'s bounded retry,
 * `get_all_monitors`' paging and host filter, the daily sliding window of
 * `get_monitor_data`, the month stepping of `get_monthly_monitor_data`, and the
 * two drivers over all monitors.
 *
 * Each `requests.get` is an input: the attempts of one call are a function from
 * the attempt number to what that try returned. `time.sleep` is recorded as the
 * list of pauses, in seconds.
 */
module AvailabilityData {
  import opened Wrappers
  import opened Text
  import opened Seqs
  import opened Civil

  const ApiUrl: string := "https://betteruptime.com/api/v2"

  /** What one `requests.get` produced: a response, or an exception of the request itself. */
  datatype Attempt<T> = Reply(status: int, json: T) | Thrown(message: string)

  predicate Ok<T>(a: Attempt<T>) {
    a.Reply? && a.status == 200
  }

  function FailureMessage(url: string): string {
    "Failing call to " + url + " after multiple retries"
  }

  /*
   * `make_api_call`: the first try and five retries; before retry `k` (1-based)
   * it sleeps `(6 - retry_count) * 5 == 5 * k` seconds.
   */

  /** The outcome of the tries from number `k` on. */
  function CallFrom<T>(url: string, attempt: nat -> Attempt<T>, k: nat): (r: Result<T, string>)
    requires k <= 5
    decreases 5 - k
  {
    if Ok(attempt(k)) then Success(attempt(k).json)
    else if k == 5 then Failure(FailureMessage(url))
    else CallFrom(url, attempt, k + 1)
  }

  /** The value `make_api_call(url)` returns, or the exception it raises. */
  function Call<T>(url: string, attempt: nat -> Attempt<T>): Result<T, string> {
    CallFrom(url, attempt, 0)
  }

  /** A call succeeds exactly when one of its six tries is a 200, and returns the first 200's body. */
  lemma {:induction false} CallFromSpec<T>(url: string, attempt: nat -> Attempt<T>, k: nat)
    requires k <= 5
    ensures CallFrom(url, attempt, k).Success? <==> exists j :: k <= j <= 5 && Ok(attempt(j))
    ensures CallFrom(url, attempt, k).Success? ==>
      exists j :: k <= j <= 5 && Ok(attempt(j)) && CallFrom(url, attempt, k).value == attempt(j).json &&
        forall i :: k <= i < j ==> !Ok(attempt(i))
    ensures CallFrom(url, attempt, k).Failure? ==> CallFrom(url, attempt, k).error == FailureMessage(url)
    decreases 5 - k
  {
    if !Ok(attempt(k)) && k < 5 {
      CallFromSpec(url, attempt, k + 1);
    }
  }

  lemma CallSpec<T>(url: string, attempt: nat -> Attempt<T>)
    ensures Call(url, attempt).Success? <==> exists j :: 0 <= j <= 5 && Ok(attempt(j))
    ensures Call(url, attempt).Success? ==>
      exists j :: 0 <= j <= 5 && Ok(attempt(j)) && Call(url, attempt).value == attempt(j).json &&
        forall i :: 0 <= i < j ==> !Ok(attempt(i))
    ensures Call(url, attempt).Failure? ==> Call(url, attempt).error == FailureMessage(url)
  {
    CallFromSpec(url, attempt, 0);
  }

  /** `make_api_call`, with the pauses it sleeps. */
  method MakeApiCall<T>(url: string, attempt: nat -> Attempt<T>) returns (sleeps: seq<nat>, r: Result<T, string>)
    ensures r == Call(url, attempt)
    ensures |sleeps| <= 5 && forall k :: 0 <= k < |sleeps| ==> sleeps[k] == 5 * (k + 1)
    ensures forall k :: 0 <= k < |sleeps| ==> !Ok(attempt(k))
    ensures r.Success? ==> Ok(attempt(|sleeps|)) && r.value == attempt(|sleeps|).json
    ensures r.Failure? ==> |sleeps| == 5
  {
    var retryCount := 5;
    var done := false;
    sleeps := [];
    r := Failure(FailureMessage(url));
    while !done
      invariant 0 <= retryCount <= 5
      invariant |sleeps| == 5 - retryCount
      invariant forall k :: 0 <= k < |sleeps| ==> sleeps[k] == 5 * (k + 1)
      invariant forall k :: 0 <= k < |sleeps| ==> !Ok(attempt(k))
      invariant !done ==> CallFrom(url, attempt, |sleeps|) == Call(url, attempt)
      invariant done ==> r == Call(url, attempt)
      invariant done && r.Success? ==> Ok(attempt(|sleeps|)) && r.value == attempt(|sleeps|).json
      invariant done && r.Failure? ==> retryCount == 0
      decreases (if done then 0 else 1), retryCount
    {
      // The try after `5 - retryCount` failed ones.
      var response := attempt(5 - retryCount);
      if Ok(response) {
        done := true;
        r := Success(response.json);
      } else if retryCount > 0 {
        sleeps := sleeps + [(6 - retryCount) * 5];
        retryCount := retryCount - 1;
      } else {
        done := true;
        r := Failure(FailureMessage(url));
      }
    }
  }

  /*
   * `urlparse(url).hostname`, for ASCII URLs: the scheme is dropped when the text
   * before the first ':' is a scheme; the network location follows "//" and ends at
   * the first '/', '?' or '#'; the host is what follows its last '@', up to ':'
   * (or the bracketed part of an IPv6 literal), lower-cased, and absent when empty.
   */

  predicate IsAsciiLetter(c: char) {
    'a' <= c <= 'z' || 'A' <= c <= 'Z'
  }

  predicate IsSchemeChar(c: char) {
    IsAsciiLetter(c) || '0' <= c <= '9' || c == '+' || c == '-' || c == '.'
  }

  /** The URL after its scheme and ':', or the whole URL when it has no scheme. */
  function AfterScheme(url: string): (r: string)
    ensures |r| <= |url|
  {
    match IndexOfChar(url, ':')
    case None => url
    case Some(i) =>
      if i > 0 && IsAsciiLetter(url[0]) && forall k :: 0 <= k < i ==> IsSchemeChar(url[k]) then url[i + 1..]
      else url
  }

  /** The longest prefix of `s` holding none of the characters `stops`. */
  function UpTo(s: string, stops: set<char>): (r: string)
    ensures r <= s && forall k :: 0 <= k < |r| ==> r[k] !in stops
    ensures |r| < |s| ==> s[|r|] in stops
  {
    if s == [] || s[0] in stops then [] else [s[0]] + UpTo(s[1..], stops)
  }

  /** What follows the last `c` of `s`, or all of `s` without one: `s.rpartition(c)[2]`. */
  function AfterLast(s: string, c: char): (r: string)
    ensures c !in s ==> r == s
    ensures c !in r
  {
    if s == [] then []
    else if s[|s| - 1] == c then []
    else AfterLast(s[..|s| - 1], c) + [s[|s| - 1]]
  }

  function LowerChar(c: char): char {
    if 'A' <= c <= 'Z' then (c as int - 'A' as int + 'a' as int) as char else c
  }

  function Lower(s: string): (r: string)
    ensures |r| == |s| && forall k :: 0 <= k < |s| ==> r[k] == LowerChar(s[k])
  {
    seq(|s|, k requires 0 <= k < |s| => LowerChar(s[k]))
  }

  function NetLoc(url: string): string {
    var rest := AfterScheme(url);
    if |rest| >= 2 && rest[..2] == "//" then UpTo(rest[2..], {'/', '?', '#'}) else ""
  }

  function Hostname(url: string): Option<string> {
    var hostinfo := AfterLast(NetLoc(url), '@');
    var host := if '[' in hostinfo then UpTo(AfterFirst(hostinfo, '['), {']'}) else UpTo(hostinfo, {':'});
    if host == [] then None else Some(Lower(host))
  }

  /** What follows the first `c` of `s`: `s.partition(c)[2]`. */
  function AfterFirst(s: string, c: char): string {
    match IndexOfChar(s, c)
    case None => ""
    case Some(i) => s[i + 1..]
  }

  /** A host name `Hostname` gives back unchanged: no delimiter and no upper-case letter. */
  predicate PlainHost(h: string) {
    h != [] && forall k :: 0 <= k < |h| ==> h[k] !in "/?#@:[" && !('A' <= h[k] <= 'Z')
  }

  predicate PlainScheme(s: string) {
    s != [] && IsAsciiLetter(s[0]) && forall k :: 0 <= k < |s| ==> IsSchemeChar(s[k])
  }

  /** `urlparse` finds the host of "scheme://host/path". */
  lemma HostnameOf(scheme: string, host: string, path: string)
    requires PlainScheme(scheme) && PlainHost(host)
    requires path == [] || path[0] in "/?#"
    ensures Hostname(scheme + "://" + host + path) == Some(host)
  {
    var url := scheme + "://" + host + path;
    var rest := "//" + host + path;
    assert url == scheme + ":" + rest;
    SchemeOf(scheme, rest);
    NetLocOf(url, host, path);
    assert '@' !in host && '[' !in host;
    UpToPrefix(host, [], {':'});
    assert host + [] == host;
    assert Lower(host) == host;
  }

  lemma SchemeOf(scheme: string, rest: string)
    requires PlainScheme(scheme)
    ensures AfterScheme(scheme + ":" + rest) == rest
  {
    var url := scheme + ":" + rest;
    assert ':' !in scheme;
    assert url[|scheme|] == ':' && url[..|scheme|] == scheme;
    assert IndexOfChar(url, ':') == Some(|scheme|);
    assert url[|scheme| + 1..] == rest;
  }

  lemma NetLocOf(url: string, host: string, path: string)
    requires AfterScheme(url) == "//" + host + path
    requires forall k :: 0 <= k < |host| ==> host[k] !in "/?#"
    requires path == [] || path[0] in "/?#"
    ensures NetLoc(url) == host
  {
    var rest := "//" + host + path;
    assert rest[0] == '/' && rest[1] == '/';
    assert rest[..2] == "//";
    assert rest[2..] == host + path;
    UpToPrefix(host, path, {'/', '?', '#'});
  }

  /** `UpTo` stops right after a prefix free of stops when a stop or the end follows. */
  lemma {:induction false} UpToPrefix(s: string, tail: string, stops: set<char>)
    requires forall k :: 0 <= k < |s| ==> s[k] !in stops
    requires tail == [] || tail[0] in stops
    ensures UpTo(s + tail, stops) == s
  {
    if s != [] {
      assert (s + tail)[1..] == s[1..] + tail;
      UpToPrefix(s[1..], tail, stops);
    }
  }

  /*
   * `get_all_monitors`: follow `pagination.next` from the first page, keeping the
   * monitors whose URL's host is exactly "open-vsx.org". The calls of the loop are
   * the observed ones; a chain of pages longer than that is reported as pending.
   */

  datatype Monitor = Monitor(id: string, name: string, url: string, createdAt: string)

  /** One page of `/monitors`: its `data` and its `pagination.next`. */
  datatype Page = Page(data: seq<Monitor>, next: Option<string>)

  /** The result of a loop over observed calls: a value, the exception raised, or not finished yet. */
  datatype Outcome<T> = Done(value: T) | Raised(message: string) | Pending

  /** The URLs requested, in order, and the outcome. */
  datatype Listing = Listing(urls: seq<string>, result: Outcome<seq<Monitor>>)

  const MonitorsUrl: string := ApiUrl + "/monitors"

  predicate OnOpenVsx(m: Monitor) {
    Hostname(m.url) == Some("open-vsx.org")
  }

  function Prepend(found: seq<Monitor>, o: Outcome<seq<Monitor>>): Outcome<seq<Monitor>> {
    if o.Done? then Done(found + o.value) else o
  }

  /** The listing from the page at `url` on, with `calls[i]` the tries of the `i`-th page request. */
  function ListFrom(calls: seq<nat -> Attempt<Page>>, url: string, keep: Monitor -> bool): Listing
    decreases |calls|
  {
    if calls == [] then Listing([], Pending)
    else
      match Call(url, calls[0])
      case Failure(e) => Listing([url], Raised(e))
      case Success(page) =>
        var ours := Filter(keep, page.data);
        if page.next.None? then Listing([url], Done(ours))
        else
          var rest := ListFrom(calls[1..], page.next.value, keep);
          Listing([url] + rest.urls, Prepend(ours, rest.result))
  }

  /** Every monitor listed has the host "open-vsx.org"; one URL is requested per call. */
  lemma {:induction false} ListFromSpec(calls: seq<nat -> Attempt<Page>>, url: string, keep: Monitor -> bool)
    ensures var l := ListFrom(calls, url, keep);
      |l.urls| <= |calls| && (calls != [] ==> l.urls[0] == url) &&
      (l.result.Done? ==> forall k :: 0 <= k < |l.result.value| ==> keep(l.result.value[k]))
    decreases |calls|
  {
    if calls != [] {
      match Call(url, calls[0])
      case Failure(e) =>
      case Success(page) =>
        if page.next.Some? {
          ListFromSpec(calls[1..], page.next.value, keep);
          var ours := Filter(keep, page.data);
          var rest := ListFrom(calls[1..], page.next.value, keep);
          if rest.result.Done? {
            var all := ours + rest.result.value;
            forall k | 0 <= k < |all|
              ensures keep(all[k])
            {
              if k >= |ours| {
                assert all[k] == rest.result.value[k - |ours|];
              }
            }
          }
        }
    }
  }

  /** The `for monitor in json_results['data']` loop, keeping the monitors that pass `keep`. */
  method KeepMonitors(found: seq<Monitor>, data: seq<Monitor>, keep: Monitor -> bool) returns (found': seq<Monitor>)
    ensures found' == found + Filter(keep, data)
  {
    found' := found;
    assert data[..0] == [];
    for k := 0 to |data|
      invariant found' == found + Filter(keep, data[..k])
    {
      var monitor := data[k];
      assert data[..k + 1] == data[..k] + [monitor];
      FilterSnoc(keep, data[..k], monitor);
      if keep(monitor) {
        found' := found' + [monitor];
      }
    }
    assert data[..|data|] == data;
  }

  /** The listing from request `i` on, one request unfolded. */
  lemma ListFromAt(calls: seq<nat -> Attempt<Page>>, i: nat, url: string, keep: Monitor -> bool)
    requires i < |calls|
    ensures Call(url, calls[i]).Failure? ==> ListFrom(calls[i..], url, keep) == Listing([url], Raised(Call(url, calls[i]).error))
    ensures Call(url, calls[i]).Success? && Call(url, calls[i]).value.next.None? ==>
      ListFrom(calls[i..], url, keep) == Listing([url], Done(Filter(keep, Call(url, calls[i]).value.data)))
    ensures Call(url, calls[i]).Success? && Call(url, calls[i]).value.next.Some? ==>
      var page := Call(url, calls[i]).value;
      var rest := ListFrom(calls[i + 1..], page.next.value, keep);
      ListFrom(calls[i..], url, keep) == Listing([url] + rest.urls, Prepend(Filter(keep, page.data), rest.result))
  {
    assert calls[i..][0] == calls[i];
    assert calls[i..][1..] == calls[i + 1..];
  }

  lemma PrependNil(o: Outcome<seq<Monitor>>)
    ensures Prepend([], o) == o
  {
    if o.Done? {
      assert [] + o.value == o.value;
    }
  }

  lemma PrependPrepend(a: seq<Monitor>, b: seq<Monitor>, o: Outcome<seq<Monitor>>)
    ensures Prepend(a, Prepend(b, o)) == Prepend(a + b, o)
  {
    if o.Done? {
      assert a + (b + o.value) == (a + b) + o.value;
    }
  }

  /** `get_all_monitors`, with the URLs it requests. */
  method GetAllMonitors(calls: seq<nat -> Attempt<Page>>) returns (urls: seq<string>, r: Outcome<seq<Monitor>>)
    ensures Listing(urls, r) == ListFrom(calls, MonitorsUrl, OnOpenVsx)
  {
    urls, r := FollowPages(calls, MonitorsUrl, OnOpenVsx);
  }

  /** The `while not done` loop of `get_all_monitors`, from the page at `start`, keeping what passes `keep`. */
  method FollowPages(calls: seq<nat -> Attempt<Page>>, start: string, keep: Monitor -> bool)
    returns (urls: seq<string>, r: Outcome<seq<Monitor>>)
    ensures Listing(urls, r) == ListFrom(calls, start, keep)
  {
    var found: seq<Monitor> := [];
    var url := start;
    urls := [];
    r := Pending;
    var i := 0;
    var done := false;
    assert calls[0..] == calls;
    PrependNil(ListFrom(calls, url, keep).result);
    while !done
      invariant 0 <= i <= |calls|
      invariant !done ==> Resumes(calls, start, keep, i, url, urls, found)
      invariant done ==> Listing(urls, r) == ListFrom(calls, start, keep)
      decreases |calls| - i, if done then 0 else 1
    {
      if i == |calls| {
        assert ListFrom(calls[i..], url, keep) == Listing([], Pending);
        assert urls + [] == urls;
        r := Pending;
        done := true;
      } else {
        var next;
        urls, found, next, r, done := FetchPage(calls, start, keep, i, url, urls, found);
        if !done {
          url := next;
          i := i + 1;
        }
      }
    }
  }

  /** One turn of the loop of `get_all_monitors`: request the page at `url`, keep its monitors, follow `next`. */
  method FetchPage(calls: seq<nat -> Attempt<Page>>, start: string, keep: Monitor -> bool, i: nat, url: string,
                   urls: seq<string>, found: seq<Monitor>)
    returns (urls': seq<string>, found': seq<Monitor>, next: string, r: Outcome<seq<Monitor>>, done: bool)
    requires i < |calls| && Resumes(calls, start, keep, i, url, urls, found)
    ensures done ==> Listing(urls', r) == ListFrom(calls, start, keep)
    ensures !done ==> Resumes(calls, start, keep, i + 1, next, urls', found')
  {
    ListFromAt(calls, i, url, keep);
    ghost var here := ListFrom(calls[i..], url, keep);
    var _, response := MakeApiCall(url, calls[i]);
    urls' := urls + [url];
    found' := found;
    next := "";
    r := Pending;
    done := true;
    if response.Failure? {
      assert here == Listing([url], Raised(response.error));
      r := Raised(response.error);
      return;
    }
    var page := response.value;
    found' := KeepMonitors(found, page.data, keep);
    if page.next.None? {
      assert here == Listing([url], Done(Filter(keep, page.data)));
      r := Done(found');
      return;
    }
    ghost var rest := ListFrom(calls[i + 1..], page.next.value, keep);
    assert here == Listing([url] + rest.urls, Prepend(Filter(keep, page.data), rest.result));
    PrependPrepend(found, Filter(keep, page.data), rest.result);
    assert urls + ([url] + rest.urls) == urls' + rest.urls;
    next := page.next.value;
    done := false;
  }

  /** The loop resumed at request `i`, for `url`, after `urls` and `found`, gives the whole listing. */
  ghost predicate Resumes(calls: seq<nat -> Attempt<Page>>, start: string, keep: Monitor -> bool, i: nat, url: string,
                          urls: seq<string>, found: seq<Monitor>)
    requires i <= |calls|
  {
    ListFrom(calls, start, keep) ==
      Listing(urls + ListFrom(calls[i..], url, keep).urls, Prepend(found, ListFrom(calls[i..], url, keep).result))
  }

  /**
   * The monitors of every page the chain of `next` links from `url` fetches, in
   * order and before any test: an independent reading of what the pages hold.
   */
  function Fetched(calls: seq<nat -> Attempt<Page>>, url: string): Outcome<seq<Monitor>>
    decreases |calls|
  {
    if calls == [] then Pending
    else
      match Call(url, calls[0])
      case Failure(e) => Raised(e)
      case Success(page) =>
        if page.next.None? then Done(page.data)
        else Prepend(page.data, Fetched(calls[1..], page.next.value))
  }

  /**
   * The listing ends as the fetched pages do (the same exception, or still pending),
   * and when it is done it is exactly the monitors of all fetched pages that pass
   * `keep`, in page order.
   */
  lemma {:induction false} ListFromFiltersFetched(calls: seq<nat -> Attempt<Page>>, url: string,
                                                  keep: Monitor -> bool)
    ensures var l := ListFrom(calls, url, keep).result;
      var f := Fetched(calls, url);
      l.Done? == f.Done? && (l.Done? ==> l.value == Filter(keep, f.value)) && (!l.Done? ==> l == f)
    decreases |calls|
  {
    if calls != [] {
      match Call(url, calls[0])
      case Failure(e) =>
      case Success(page) =>
        if page.next.Some? {
          ListFromFiltersFetched(calls[1..], page.next.value, keep);
          var f := Fetched(calls[1..], page.next.value);
          if f.Done? {
            FilterAppend(keep, page.data, f.value);
          }
        }
    }
  }

  /** Every open-vsx.org monitor on a page `get_all_monitors` fetched is in its result. */
  lemma AllOpenVsxMonitorsListed(calls: seq<nat -> Attempt<Page>>, m: Monitor)
    requires Fetched(calls, MonitorsUrl).Done? && m in Fetched(calls, MonitorsUrl).value && OnOpenVsx(m)
    ensures ListFrom(calls, MonitorsUrl, OnOpenVsx).result.Done?
    ensures m in ListFrom(calls, MonitorsUrl, OnOpenVsx).result.value
  {
    ListFromFiltersFetched(calls, MonitorsUrl, OnOpenVsx);
    FilterKeeps(OnOpenVsx, Fetched(calls, MonitorsUrl).value, m);
  }

  /** The monitors `get_all_monitors` returns are on "open-vsx.org". */
  lemma AllMonitorsOnOpenVsx(calls: seq<nat -> Attempt<Page>>)
    ensures var l := ListFrom(calls, MonitorsUrl, OnOpenVsx);
      |l.urls| <= |calls| && (calls != [] ==> l.urls[0] == MonitorsUrl) &&
      (l.result.Done? ==> forall k :: 0 <= k < |l.result.value| ==> Hostname(l.result.value[k].url) == Some("open-vsx.org"))
  {
    ListFromSpec(calls, MonitorsUrl, OnOpenVsx);
  }

  /*
   * `get_monitor_data`: from the monitor's creation date, ask for the SLA of the
   * window [start, start + time_span] and the downtime of its first day, then slide
   * both ends one day, while the window's end is not after today.
   */

  /** The `data.attributes` of an SLA response. */
  datatype Sla<A> = Sla(availability: A, totalDowntime: A)

  datatype Purpose = Availability | Downtime

  /** One SLA request: what the value is used for, the monitor and the interval. */
  datatype Query = Query(purpose: Purpose, id: string, from: Date, to: Date)

  /** The lists a monitor's report is made of, equally long. */
  datatype Columns<D, A> = Columns(dates: seq<D>, sla: seq<A>, downtime: seq<A>)

  datatype Series<D, A> = Series(name: string, columns: Columns<D, A>)

  /** `d.strftime('%Y-%m-%d')`; the loops never reach a date past year 9999. */
  function DateText(d: Date): string {
    if Valid(d) && d.year <= 9999 then FormatIsoDate(d) else ""
  }

  function SlaUrl(q: Query): string {
    ApiUrl + "/monitors/" + q.id + "/sla?from=" + DateText(q.from) + "&to=" + DateText(q.to)
  }

  function Append<D, A>(c: Columns<D, A>, date: D, sla: A, downtime: A): Columns<D, A> {
    Columns(c.dates + [date], c.sla + [sla], c.downtime + [downtime])
  }

  /** `acc` followed by the columns of `r`, or the exception of `r`. */
  function Extend<D, A>(acc: Columns<D, A>, r: Result<Columns<D, A>, string>): Result<Columns<D, A>, string> {
    if r.Failure? then r
    else Success(Columns(acc.dates + r.value.dates, acc.sla + r.value.sla, acc.downtime + r.value.downtime))
  }

  /** The number of windows from the one ending on `end`: one for each day from `end` to `today`. */
  function Steps(end: Date, today: Date): nat
    requires Valid(end) && Valid(today)
  {
    if NotAfter(end, today) then OrdinalOrder(end, today); Ordinal(today) - Ordinal(end) + 1 else 0
  }

  /** The windows from [start, end] on, with `calls` the tries of each request and `url` its URL. */
  function Window<A>(calls: Query -> (nat -> Attempt<Sla<A>>), url: Query -> string, id: string,
                     start: Date, end: Date, today: Date): Result<Columns<Date, A>, string>
    requires Valid(start) && Valid(end) && Valid(today)
    decreases Steps(end, today)
  {
    if !NotAfter(end, today) then Success(Columns([], [], []))
    else
      var q1 := Query(Availability, id, start, end);
      var q2 := Query(Downtime, id, start, start);
      var a := Call(url(q1), calls(q1));
      var b := Call(url(q2), calls(q2));
      if a.Failure? then Failure(a.error)
      else if b.Failure? then Failure(b.error)
      else
        OrdinalNextDay(end);
        OrdinalOrder(NextDay(end), today);
        var rest := Window(calls, url, id, NextDay(start), NextDay(end), today);
        Extend(Columns([end], [a.value.availability], [b.value.totalDowntime]), rest)
  }

  lemma ExtendExtend<D, A>(acc: Columns<D, A>, c: Columns<D, A>, r: Result<Columns<D, A>, string>)
    ensures Extend(acc, Extend(c, r)) ==
      Extend(Columns(acc.dates + c.dates, acc.sla + c.sla, acc.downtime + c.downtime), r)
  {
    if r.Success? {
      assert acc.dates + (c.dates + r.value.dates) == (acc.dates + c.dates) + r.value.dates;
      assert acc.sla + (c.sla + r.value.sla) == (acc.sla + c.sla) + r.value.sla;
      assert acc.downtime + (c.downtime + r.value.downtime) == (acc.downtime + c.downtime) + r.value.downtime;
    }
  }

  /**
   * The windows slide one day at a time: as many as there are days from the first
   * end to today, the `i`-th ending `i` days after the first, all three lists
   * equally long.
   */
  lemma {:induction false} WindowShape<A>(calls: Query -> (nat -> Attempt<Sla<A>>), url: Query -> string, id: string,
                                          start: Date, end: Date, today: Date)
    requires Valid(start) && Valid(end) && Valid(today)
    ensures var w := Window(calls, url, id, start, end, today);
      w.Success? ==>
        |w.value.dates| == Steps(end, today) && |w.value.sla| == Steps(end, today) &&
        |w.value.downtime| == Steps(end, today) &&
        forall i :: 0 <= i < Steps(end, today) ==> w.value.dates[i] == AddDays(end, i)
    decreases Steps(end, today)
  {
    var w := Window(calls, url, id, start, end, today);
    if NotAfter(end, today) && w.Success? {
      OrdinalNextDay(end);
      OrdinalOrder(NextDay(end), today);
      OrdinalOrder(end, today);
      var rest := Window(calls, url, id, NextDay(start), NextDay(end), today);
      WindowShape(calls, url, id, NextDay(start), NextDay(end), today);
      assert Steps(end, today) == Steps(NextDay(end), today) + 1;
      forall i | 0 <= i < Steps(end, today)
        ensures w.value.dates[i] == AddDays(end, i)
      {
        if i > 0 {
          assert w.value.dates[i] == rest.value.dates[i - 1];
        }
      }
    }
  }

  /** The `while end_date <= today` loop of `get_monitor_data`. */
  method SlideWindow<A>(calls: Query -> (nat -> Attempt<Sla<A>>), url: Query -> string, id: string,
                        start0: Date, end0: Date, today: Date)
    returns (r: Result<Columns<Date, A>, string>)
    requires Valid(start0) && Valid(end0) && Valid(today)
    ensures r == Window(calls, url, id, start0, end0, today)
  {
    var start, end := start0, end0;
    var acc: Columns<Date, A> := Columns([], [], []);
    assert Extend(acc, Window(calls, url, id, start, end, today)) == Window(calls, url, id, start, end, today) by {
      var w := Window(calls, url, id, start, end, today);
      if w.Success? {
        assert [] + w.value.dates == w.value.dates && [] + w.value.sla == w.value.sla;
        assert [] + w.value.downtime == w.value.downtime;
      }
    }
    while NotAfter(end, today)
      invariant Valid(start) && Valid(end)
      invariant Window(calls, url, id, start0, end0, today) == Extend(acc, Window(calls, url, id, start, end, today))
      decreases Steps(end, today)
    {
      var q1 := Query(Availability, id, start, end);
      var _, a := MakeApiCall(url(q1), calls(q1));
      if a.Failure? {
        return Failure(a.error);
      }
      ghost var acc0 := acc;
      acc := acc.(dates := acc.dates + [end], sla := acc.sla + [a.value.availability]);
      var q2 := Query(Downtime, id, start, start);
      var _, b := MakeApiCall(url(q2), calls(q2));
      if b.Failure? {
        return Failure(b.error);
      }
      acc := acc.(downtime := acc.downtime + [b.value.totalDowntime]);
      OrdinalNextDay(end);
      OrdinalOrder(NextDay(end), today);
      OrdinalOrder(end, today);
      ExtendExtend(acc0, Columns([end], [a.value.availability], [b.value.totalDowntime]),
                   Window(calls, url, id, NextDay(start), NextDay(end), today));
      start := NextDay(start);
      end := NextDay(end);
    }
    assert acc.dates + [] == acc.dates && acc.sla + [] == acc.sla && acc.downtime + [] == acc.downtime;
    r := Success(acc);
  }

  /** The message of the ValueError `strptime` raises for a date it cannot read. */
  const BadDate: string := "time data does not match format '%Y-%m-%d'"

  /** `datetime.strptime(monitor['attributes']['created_at'][0:10], '%Y-%m-%d')`. */
  function CreatedOn(m: Monitor): Option<Date> {
    ParseIsoDate(Slice(m.createdAt, 0, 10))
  }

  /** What `get_monitor_data(monitor, time_span)` returns, or the exception it raises. */
  function MonitorData<A>(calls: Query -> (nat -> Attempt<Sla<A>>), url: Query -> string, m: Monitor, span: nat,
                          today: Date): Result<Series<Date, A>, string>
    requires Valid(today)
  {
    match CreatedOn(m)
    case None => Failure(BadDate)
    case Some(start) =>
      var w := Window(calls, url, m.id, start, AddDays(start, span), today);
      if w.Failure? then Failure(w.error) else Success(Series(m.name, w.value))
  }

  /** `get_monitor_data`, for a time span of whole days. */
  method GetMonitorData<A>(calls: Query -> (nat -> Attempt<Sla<A>>), url: Query -> string, m: Monitor, span: nat,
                           today: Date)
    returns (r: Result<Series<Date, A>, string>)
    requires Valid(today)
    ensures r == MonitorData(calls, url, m, span, today)
  {
    var start := CreatedOn(m);
    if start.None? {
      return Failure(BadDate);
    }
    var end := AddDays(start.value, span);
    var w := SlideWindow(calls, url, m.id, start.value, end, today);
    if w.Failure? {
      return Failure(w.error);
    }
    r := Success(Series(m.name, w.value));
  }

  /*
   * `get_monthly_monitor_data`: from the creation date to the end of its month,
   * then month by month, while the interval's start is not after today.
   */

  /** The month after `(y, m)`. */
  function NextMonthOf(p: (int, int)): (int, int) {
    if p.1 < 12 then (p.0, p.1 + 1) else (p.0 + 1, 1)
  }

  /** `interval_start_date + timedelta(days=monthrange(y, m)[1] - interval_start_date.day)`. */
  function IntervalEnd(start: Date): (r: Date)
    requires Valid(start)
    ensures r == LastOfMonth(start) && Ordinal(start) <= Ordinal(r)
  {
    var n := DaysInMonth(start.year, start.month) - start.day;
    MonthEnd(start, n);
    OrdinalAddDays(start, n);
    AddDays(start, n)
  }

  /** The intervals from the one starting on `start` on. */
  function Monthly<A>(calls: Query -> (nat -> Attempt<Sla<A>>), url: Query -> string, id: string,
                      start: Date, today: Date): Result<Columns<(int, int), A>, string>
    requires Valid(start) && Valid(today)
    decreases Steps(start, today)
  {
    if !NotAfter(start, today) then Success(Columns([], [], []))
    else
      var end := IntervalEnd(start);
      var q1 := Query(Availability, id, start, end);
      var q2 := Query(Downtime, id, start, end);
      var a := Call(url(q1), calls(q1));
      var b := Call(url(q2), calls(q2));
      if a.Failure? then Failure(a.error)
      else if b.Failure? then Failure(b.error)
      else
        OrdinalNextDay(end);
        OrdinalOrder(start, today);
        OrdinalOrder(NextDay(end), today);
        var rest := Monthly(calls, url, id, NextDay(end), today);
        Extend(Columns([(start.year, start.month)], [a.value.availability], [b.value.totalDowntime]), rest)
  }

  /** The next interval starts on the first day of the next month. */
  lemma NextInterval(start: Date)
    requires Valid(start)
    ensures NextDay(IntervalEnd(start)).day == 1
    ensures (NextDay(IntervalEnd(start)).year, NextDay(IntervalEnd(start)).month) == NextMonthOf((start.year, start.month))
  {
    MonthEnd(start, DaysInMonth(start.year, start.month) - start.day);
  }

  /**
   * The intervals are whole consecutive months after the first: the `i`-th is the
   * month after the one before it, the first is the start's month, and the three
   * lists are equally long.
   */
  lemma {:induction false} MonthlyShape<A>(calls: Query -> (nat -> Attempt<Sla<A>>), url: Query -> string, id: string,
                                           start: Date, today: Date)
    requires Valid(start) && Valid(today)
    ensures var w := Monthly(calls, url, id, start, today);
      w.Success? ==>
        |w.value.sla| == |w.value.dates| && |w.value.downtime| == |w.value.dates| &&
        (|w.value.dates| > 0 ==> w.value.dates[0] == (start.year, start.month)) &&
        forall i :: 0 <= i < |w.value.dates| - 1 ==> w.value.dates[i + 1] == NextMonthOf(w.value.dates[i])
    decreases Steps(start, today)
  {
    var w := Monthly(calls, url, id, start, today);
    if NotAfter(start, today) && w.Success? {
      var end := IntervalEnd(start);
      var next := NextDay(end);
      OrdinalNextDay(end);
      OrdinalOrder(start, today);
      OrdinalOrder(next, today);
      NextInterval(start);
      var rest := Monthly(calls, url, id, next, today);
      MonthlyShape(calls, url, id, next, today);
      forall i | 0 <= i < |w.value.dates| - 1
        ensures w.value.dates[i + 1] == NextMonthOf(w.value.dates[i])
      {
        if i > 0 {
          assert w.value.dates[i] == rest.value.dates[i - 1];
        }
      }
    }
  }

  /** The `while interval_start_date < end_date` loop of `get_monthly_monitor_data`. */
  method StepMonths<A>(calls: Query -> (nat -> Attempt<Sla<A>>), url: Query -> string, id: string,
                       start0: Date, today: Date)
    returns (r: Result<Columns<(int, int), A>, string>)
    requires Valid(start0) && Valid(today)
    ensures r == Monthly(calls, url, id, start0, today)
  {
    var start := start0;
    var acc: Columns<(int, int), A> := Columns([], [], []);
    assert Extend(acc, Monthly(calls, url, id, start, today)) == Monthly(calls, url, id, start, today) by {
      var w := Monthly(calls, url, id, start, today);
      if w.Success? {
        assert [] + w.value.dates == w.value.dates && [] + w.value.sla == w.value.sla;
        assert [] + w.value.downtime == w.value.downtime;
      }
    }
    while NotAfter(start, today)
      invariant Valid(start)
      invariant Monthly(calls, url, id, start0, today) == Extend(acc, Monthly(calls, url, id, start, today))
      decreases Steps(start, today)
    {
      var end := IntervalEnd(start);
      var q1 := Query(Availability, id, start, end);
      var _, a := MakeApiCall(url(q1), calls(q1));
      if a.Failure? {
        return Failure(a.error);
      }
      ghost var acc0 := acc;
      acc := acc.(dates := acc.dates + [(start.year, start.month)], sla := acc.sla + [a.value.availability]);
      var q2 := Query(Downtime, id, start, end);
      var _, b := MakeApiCall(url(q2), calls(q2));
      if b.Failure? {
        return Failure(b.error);
      }
      acc := acc.(downtime := acc.downtime + [b.value.totalDowntime]);
      OrdinalNextDay(end);
      OrdinalOrder(start, today);
      OrdinalOrder(NextDay(end), today);
      ExtendExtend(acc0, Columns([(start.year, start.month)], [a.value.availability], [b.value.totalDowntime]),
                   Monthly(calls, url, id, NextDay(end), today));
      start := NextDay(end);
    }
    assert acc.dates + [] == acc.dates && acc.sla + [] == acc.sla && acc.downtime + [] == acc.downtime;
    r := Success(acc);
  }

  /** What `get_monthly_monitor_data(monitor)` returns, or the exception it raises. */
  function MonthlyData<A>(calls: Query -> (nat -> Attempt<Sla<A>>), url: Query -> string, m: Monitor,
                          today: Date): Result<Series<(int, int), A>, string>
    requires Valid(today)
  {
    match CreatedOn(m)
    case None => Failure(BadDate)
    case Some(start) =>
      var w := Monthly(calls, url, m.id, start, today);
      if w.Failure? then Failure(w.error) else Success(Series(m.name, w.value))
  }

  method GetMonthlyMonitorData<A>(calls: Query -> (nat -> Attempt<Sla<A>>), url: Query -> string, m: Monitor,
                                  today: Date)
    returns (r: Result<Series<(int, int), A>, string>)
    requires Valid(today)
    ensures r == MonthlyData(calls, url, m, today)
  {
    var start := CreatedOn(m);
    if start.None? {
      return Failure(BadDate);
    }
    var w := StepMonths(calls, url, m.id, start.value, today);
    if w.Failure? {
      return Failure(w.error);
    }
    r := Success(Series(m.name, w.value));
  }

  /*
   * `get_continuous_data` and `get_monthly_data`: the report of each monitor
   * `get_all_monitors` lists, in order; an exception ends the whole run.
   */

  /** The reports of the monitors `ms`, in order, or the first exception. */
  function AllReports<D, A>(report: Monitor -> Result<Series<D, A>, string>, ms: seq<Monitor>): Outcome<seq<Series<D, A>>> {
    if ms == [] then Done([])
    else
      var init := AllReports(report, ms[..|ms| - 1]);
      if !init.Done? then init
      else
        var s := report(ms[|ms| - 1]);
        if s.Failure? then Raised(s.error) else Done(init.value + [s.value])
  }

  /** One report per monitor, the `i`-th that of the `i`-th monitor. */
  lemma {:induction false} AllReportsSpec<D, A>(report: Monitor -> Result<Series<D, A>, string>, ms: seq<Monitor>)
    ensures AllReports(report, ms).Done? <==> forall k :: 0 <= k < |ms| ==> report(ms[k]).Success?
    ensures AllReports(report, ms).Done? ==>
      |AllReports(report, ms).value| == |ms| &&
      forall k :: 0 <= k < |ms| ==> AllReports(report, ms).value[k] == report(ms[k]).value
    ensures AllReports(report, ms).Raised? ==>
      exists k :: 0 <= k < |ms| && report(ms[k]).Failure? && AllReports(report, ms).message == report(ms[k]).error
  {
    if ms != [] {
      var init := ms[..|ms| - 1];
      AllReportsSpec(report, init);
      assert forall k :: 0 <= k < |init| ==> init[k] == ms[k];
    }
  }

  /** The whole outcome: the listing's exception, or the reports of the monitors listed. */
  function Reports<D, A>(listing: Outcome<seq<Monitor>>, report: Monitor -> Result<Series<D, A>, string>)
    : Outcome<seq<Series<D, A>>>
  {
    match listing
    case Done(ms) => AllReports(report, ms)
    case Raised(e) => Raised(e)
    case Pending => Pending
  }

  /** The report of one monitor in `get_continuous_data`: a window of 30 days. */
  function ContinuousReport<A>(calls: Query -> (nat -> Attempt<Sla<A>>), today: Date): Monitor -> Result<Series<Date, A>, string>
    requires Valid(today)
  {
    m => MonitorData(calls, SlaUrl, m, 30, today)
  }

  function MonthlyReport<A>(calls: Query -> (nat -> Attempt<Sla<A>>), today: Date): Monitor -> Result<Series<(int, int), A>, string>
    requires Valid(today)
  {
    m => MonthlyData(calls, SlaUrl, m, today)
  }

  /** `get_continuous_data(time_span)`: the window is 30 days whatever `time_span` is. */
  method GetContinuousData<A>(timeSpan: int, pages: seq<nat -> Attempt<Page>>, calls: Query -> (nat -> Attempt<Sla<A>>),
                              today: Date)
    returns (r: Outcome<seq<Series<Date, A>>>)
    requires Valid(today)
    ensures r == Reports(ListFrom(pages, MonitorsUrl, OnOpenVsx).result, ContinuousReport(calls, today))
  {
    var _, monitors := GetAllMonitors(pages);
    if !monitors.Done? {
      return if monitors.Raised? then Raised(monitors.message) else Pending;
    }
    var ms := monitors.value;
    var results: seq<Series<Date, A>> := [];
    assert ms[..0] == [];
    for k := 0 to |ms|
      invariant AllReports(ContinuousReport(calls, today), ms[..k]) == Done(results)
    {
      var s := GetMonitorData(calls, SlaUrl, ms[k], 30, today);
      ghost var report := ContinuousReport(calls, today);
      assert report(ms[k]) == s;
      if s.Failure? {
        FailureStops(report, ms, k);
        return Raised(s.error);
      }
      ReportStep(report, ms, k, results);
      results := results + [s.value];
    }
    assert ms[..|ms|] == ms;
    r := Done(results);
  }

  method GetMonthlyData<A>(pages: seq<nat -> Attempt<Page>>, calls: Query -> (nat -> Attempt<Sla<A>>), today: Date)
    returns (r: Outcome<seq<Series<(int, int), A>>>)
    requires Valid(today)
    ensures r == Reports(ListFrom(pages, MonitorsUrl, OnOpenVsx).result, MonthlyReport(calls, today))
  {
    var _, monitors := GetAllMonitors(pages);
    if !monitors.Done? {
      return if monitors.Raised? then Raised(monitors.message) else Pending;
    }
    var ms := monitors.value;
    var results: seq<Series<(int, int), A>> := [];
    assert ms[..0] == [];
    for k := 0 to |ms|
      invariant AllReports(MonthlyReport(calls, today), ms[..k]) == Done(results)
    {
      var s := GetMonthlyMonitorData(calls, SlaUrl, ms[k], today);
      ghost var report := MonthlyReport(calls, today);
      assert report(ms[k]) == s;
      if s.Failure? {
        FailureStops(report, ms, k);
        return Raised(s.error);
      }
      ReportStep(report, ms, k, results);
      results := results + [s.value];
    }
    assert ms[..|ms|] == ms;
    r := Done(results);
  }

  /** A monitor whose report fails after reports that did not fails the whole run with its exception. */
  lemma {:induction false} FailureStops<D, A>(report: Monitor -> Result<Series<D, A>, string>, ms: seq<Monitor>, k: nat)
    requires k < |ms| && AllReports(report, ms[..k]).Done? && report(ms[k]).Failure?
    ensures AllReports(report, ms) == Raised(report(ms[k]).error)
    decreases |ms|
  {
    if k < |ms| - 1 {
      var init := ms[..|ms| - 1];
      assert init[..k] == ms[..k] && init[k] == ms[k];
      FailureStops(report, init, k);
    } else {
      assert ms[..k] == ms[..|ms| - 1];
    }
  }

  lemma ReportStep<D, A>(report: Monitor -> Result<Series<D, A>, string>, ms: seq<Monitor>, k: nat,
                         results: seq<Series<D, A>>)
    requires k < |ms| && AllReports(report, ms[..k]) == Done(results) && report(ms[k]).Success?
    ensures AllReports(report, ms[..k + 1]) == Done(results + [report(ms[k]).value])
  {
    assert ms[..k + 1][..k] == ms[..k];
  }
}
