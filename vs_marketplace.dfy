/**
 * The VS Code Marketplace comparison: the marketplace's extension query is paged
 * until every extension has arrived, then one CSV line is written per extension,
 * with what Open VSX knows about the same publisher and name.
 *
 * `requests.post` and `requests.get` are inputs: the marketplace replies are the
 * successive replies observed, and the Open VSX lookups are a function from the URL
 * asked to the reply. `os.environ['API_ENDPOINT']` is a parameter. The CSV file is
 * the text written to it; when an exception ends the script, the text is what had
 * been written by then.
 */
module VsMarketplace {
  import opened Wrappers
  import opened Text
  import opened Seqs
  import Civil

  /*
   * `get_ms_info`.
   */

  /** One entry of a version's 'properties'. */
  datatype Property = Property(key: string, value: string)

  /** One entry of an extension's 'versions', newest first. */
  datatype MsVersion = MsVersion(version: string, lastUpdated: string, properties: seq<Property>)

  /** One extension of a marketplace query result, with the keys the script reads. */
  datatype MsExtension = MsExtension(
    extensionName: string, publisherName: string, displayName: string, versions: seq<MsVersion>)

  /** The seven values `get_ms_info` returns. */
  datatype MsInfo = MsInfo(
    extensionName: string, publisherName: string, displayName: string, latestVersion: string,
    lastUpdated: string, repo: Option<string>, pricing: Option<string>)

  const SourceKey: string := "Microsoft.VisualStudio.Services.Links.Source"
  const PricingKey: string := "Microsoft.VisualStudio.Services.Content.Pricing"

  function HasKey(key: string): Property -> bool {
    (p: Property) => p.key == key
  }

  /**
   * `[p for p in props if p['key'] == key][0]['value']`, with `None` where the list
   * is empty and the IndexError is caught.
   */
  function FirstValue(props: seq<Property>, key: string): Option<string> {
    var matching := Filter(HasKey(key), props);
    if matching == [] then None else Some(matching[0].value)
  }

  /** The value found is that of the first property with the key; `None` means there is none. */
  lemma {:induction false} FirstValueSpec(props: seq<Property>, key: string)
    ensures FirstValue(props, key).None? <==> forall k :: 0 <= k < |props| ==> props[k].key != key
    ensures FirstValue(props, key).Some? ==>
      exists k :: 0 <= k < |props| && props[k].key == key && FirstValue(props, key).value == props[k].value &&
        forall j :: 0 <= j < k ==> props[j].key != key
  {
    if props != [] {
      FirstValueSpec(props[1..], key);
      if props[0].key != key {
        assert Filter(HasKey(key), props) == Filter(HasKey(key), props[1..]);
        if FirstValue(props, key).Some? {
          var k :| 0 <= k < |props[1..]| && props[1..][k].key == key &&
            FirstValue(props, key).value == props[1..][k].value &&
            forall j :: 0 <= j < k ==> props[1..][j].key != key;
          assert forall j :: 0 <= j < k + 1 ==> props[j].key != key by {
            forall j | 0 <= j < k + 1 ensures props[j].key != key {
              if j > 0 {
                assert props[j] == props[1..][j - 1];
              }
            }
          }
        }
      } else {
        assert Filter(HasKey(key), props)[0] == props[0];
      }
    }
  }

  /**
   * `get_ms_info(ext)`: `None` where `ext['versions'][0]` raises IndexError, which
   * nothing catches.
   */
  function GetMsInfo(ext: MsExtension): (r: Option<MsInfo>)
    ensures r.None? <==> ext.versions == []
    ensures r.Some? ==>
      ',' !in r.value.displayName && |r.value.displayName| == |ext.displayName| &&
      forall k :: 0 <= k < |ext.displayName| ==>
        r.value.displayName[k] == (if ext.displayName[k] == ',' then ' ' else ext.displayName[k])
    ensures r.Some? ==>
      r.value.latestVersion == ext.versions[0].version && r.value.lastUpdated == ext.versions[0].lastUpdated
  {
    if ext.versions == [] then None
    else
      var latest := ext.versions[0];
      Some(MsInfo(
        ext.extensionName, ext.publisherName, ReplaceChar(ext.displayName, ',', ' '),
        latest.version, latest.lastUpdated,
        FirstValue(latest.properties, SourceKey), FirstValue(latest.properties, PricingKey)))
  }

  /*
   * `convert_date_str`.
   */

  /** Python `s.find(c)`: the first index of `c`, or -1. */
  function Find(s: string, c: char): (r: int)
    ensures r == -1 <==> c !in s
    ensures r >= 0 ==> r < |s| && s[r] == c && c !in s[..r]
  {
    match IndexOfChar(s, c)
    case Some(i) => i
    case None => -1
  }

  /** `strftime("%-m/%-d/%Y")`: month, day and year in decimal without padding. */
  function UsDate(d: Civil.Date): string
    requires Civil.Valid(d)
  {
    NatToString(d.month) + "/" + NatToString(d.day) + "/" + NatToString(d.year)
  }

  /**
   * `convert_date_str(s)`: the text before the first 'T' read as `%Y-%m-%d` and
   * written as `%-m/%-d/%Y`; `None` where `strptime` raises ValueError. With no 'T',
   * `find` gives -1 and the slice `s[0:-1]` drops the last character.
   */
  function ConvertDateStr(s: string): Option<string> {
    var dateText := Slice(s, 0, Find(s, 'T'));
    match Civil.ParseIsoDate(dateText)
    case None => None
    case Some(d) => Some(UsDate(d))
  }

  /** Every character of an ISO date is a digit or a dash. */
  lemma IsoDateHasNoT(d: Civil.Date)
    requires Civil.Valid(d) && d.year <= 9999
    ensures 'T' !in Civil.FormatIsoDate(d)
  {
    var y := Civil.PadNat(d.year, 4);
    var m := Civil.PadNat(d.month, 2);
    var dd := Civil.PadNat(d.day, 2);
    assert 'T' !in y && 'T' !in m && 'T' !in dd by {
      assert forall k :: 0 <= k < |y| ==> IsDigit(y[k]);
      assert forall k :: 0 <= k < |m| ==> IsDigit(m[k]);
      assert forall k :: 0 <= k < |dd| ==> IsDigit(dd[k]);
    }
  }

  /** A timestamp "YYYY-MM-DDT..." converts to the US form of its date. */
  lemma ConvertTimestamp(d: Civil.Date, time: string)
    requires Civil.Valid(d) && 1000 <= d.year <= 9999
    ensures ConvertDateStr(Civil.FormatIsoDate(d) + "T" + time) == Some(UsDate(d))
  {
    var iso := Civil.FormatIsoDate(d);
    var s := iso + "T" + time;
    IsoDateHasNoT(d);
    IndexOfCharAfter(iso, 'T', time);
    assert Slice(s, 0, Find(s, 'T')) == iso by {
      assert s[..|iso|] == iso;
    }
    Civil.ParseFormatIsoDate(d);
  }

  /** Without a 'T' the last character is dropped: the result is that of the text before it. */
  lemma ConvertWithoutT(s: string)
    requires s != [] && 'T' !in s
    ensures ConvertDateStr(s) == ConvertDateStr(s[..|s| - 1] + "T")
  {
    var t := s[..|s| - 1] + "T";
    assert 'T' !in s[..|s| - 1];
    IndexOfCharAfter(s[..|s| - 1], 'T', "");
    assert t[..|t| - 1] == s[..|s| - 1];
  }

  /** Three strings without '/' written with '/' between them split back into the three. */
  lemma SlashedReadsBack(a: string, b: string, c: string)
    requires '/' !in a && '/' !in b && '/' !in c
    ensures Split(a + "/" + b + "/" + c, '/') == [a, b, c]
  {
    assert a + "/" + b + "/" + c == a + ['/'] + (b + ['/'] + c);
    SplitAfter(a, '/', b + ['/'] + c);
    SplitAfter(b, '/', c);
    assert Split(c, '/') == [c];
  }

  lemma DecimalHasNoSlash(n: nat)
    ensures '/' !in NatToString(n)
  {
    var s := NatToString(n);
    DigitsOfNat(n);
    assert forall k :: 0 <= k < |s| ==> IsDigit(s[k]);
  }

  /**
   * The US form reads back: split at '/', it is month, day and year, each a number
   * without a leading zero.
   */
  lemma UsDateReadsBack(d: Civil.Date)
    requires Civil.Valid(d)
    ensures Split(UsDate(d), '/') == [NatToString(d.month), NatToString(d.day), NatToString(d.year)]
    ensures ParseInt(NatToString(d.month)) == Some(d.month) && NatToString(d.month)[0] != '0'
    ensures ParseInt(NatToString(d.day)) == Some(d.day) && NatToString(d.day)[0] != '0'
    ensures ParseInt(NatToString(d.year)) == Some(d.year) && NatToString(d.year)[0] != '0'
  {
    DecimalHasNoSlash(d.month);
    DecimalHasNoSlash(d.day);
    DecimalHasNoSlash(d.year);
    SlashedReadsBack(NatToString(d.month), NatToString(d.day), NatToString(d.year));
    ParseIntOfNatToString(d.month);
    ParseIntOfNatToString(d.day);
    ParseIntOfNatToString(d.year);
  }

  /*
   * The query loop: post the payload with `pageNumber` 1, 2, ... until the
   * extensions gathered number the reported total, or a reply is not 200.
   */

  /** The part of a 200 reply the loop reads. */
  datatype MsPage = MsPage(extensions: seq<MsExtension>, total: int)

  /**
   * What one `requests.post` produced: a status and, for a 200 reply, the page, or
   * `None` when the JSON or one of its keys is missing. `PostRaised` is an exception
   * of the request itself.
   */
  datatype Post = Posted(status: int, page: Option<MsPage>) | PostRaised(message: string)

  /** How the loop ended; `StillPaging` when the observed replies ran out first. */
  datatype Ending = Complete | HttpError(status: int) | Raised | StillPaging

  /**
   * The loop's result: how many requests were posted, `all_extensions`, the last
   * page's `extensions` (`None` while none was read), `total_all_versions`, and how
   * it ended.
   */
  datatype Paging = Paging(
    posted: nat, all: seq<MsExtension>, last: Option<seq<MsExtension>>, versions: nat, ending: Ending)

  /** The sum of `len(extension['versions'])` over `exts`. */
  function VersionCount(exts: seq<MsExtension>): nat {
    if exts == [] then 0 else VersionCount(exts[..|exts| - 1]) + |exts[|exts| - 1].versions|
  }

  lemma {:induction false} VersionCountAppend(a: seq<MsExtension>, b: seq<MsExtension>)
    ensures VersionCount(a + b) == VersionCount(a) + VersionCount(b)
    decreases |b|
  {
    if b != [] {
      VersionCountAppend(a, b[..|b| - 1]);
      assert (a + b)[..|a + b| - 1] == a + b[..|b| - 1];
    } else {
      assert a + b == a;
    }
  }

  /** The inner `for` loop: adds the versions of every extension of a page to `total`. */
  method CountVersions(total: nat, exts: seq<MsExtension>) returns (sum: nat)
    ensures sum == total + VersionCount(exts)
  {
    sum := total;
    for k := 0 to |exts|
      invariant sum == total + VersionCount(exts[..k])
    {
      assert exts[..k + 1][..k] == exts[..k];
      sum := sum + |exts[k].versions|;
    }
    assert exts[..|exts|] == exts;
  }

  /** The extensions a reply contributes: those of a 200 page. */
  function PageExtensions(post: Post): seq<MsExtension> {
    if post.Posted? && post.status == 200 && post.page.Some? then post.page.value.extensions else []
  }

  /** The loop from reply `i` on, with `all`, `versions` and `last` as gathered so far. */
  function PagedFrom(
    posts: seq<Post>, i: nat, all: seq<MsExtension>, versions: nat, last: Option<seq<MsExtension>>): Paging
    requires i <= |posts|
    decreases |posts| - i
  {
    if i == |posts| then Paging(i, all, last, versions, StillPaging)
    else match posts[i]
      case PostRaised(_) => Paging(i + 1, all, last, versions, Raised)
      case Posted(status, page) =>
        if status != 200 then Paging(i + 1, all, last, versions, HttpError(status))
        else if page.None? then Paging(i + 1, all, last, versions, Raised)
        else
          var exts := page.value.extensions;
          var next := all + exts;
          var counted := versions + VersionCount(exts);
          if |next| == page.value.total then Paging(i + 1, next, Some(exts), counted, Complete)
          else PagedFrom(posts, i + 1, next, counted, Some(exts))
  }

  /** What the query loop does over the observed replies. */
  function Paged(posts: seq<Post>): Paging {
    PagedFrom(posts, 0, [], 0, None)
  }

  /** The extensions of the first `n` replies, in order. */
  function Gathered(posts: seq<Post>, n: nat): seq<MsExtension>
    requires n <= |posts|
  {
    if n == 0 then [] else Gathered(posts, n - 1) + PageExtensions(posts[n - 1])
  }

  /** Reply `k` was a 200 page that left the count short of its total. */
  predicate Continues(posts: seq<Post>, k: nat)
    requires k < |posts|
  {
    posts[k].Posted? && posts[k].status == 200 && posts[k].page.Some? &&
    |Gathered(posts, k + 1)| != posts[k].page.value.total
  }

  /** The loop went on after each of the first `n` replies. */
  predicate GoesOn(posts: seq<Post>, n: nat)
    requires n <= |posts|
  {
    n == 0 || (GoesOn(posts, n - 1) && Continues(posts, n - 1))
  }

  /** Each of the first `n` replies of a loop that went on kept it going. */
  lemma {:induction false} GoesOnAt(posts: seq<Post>, n: nat, k: nat)
    requires n <= |posts| && GoesOn(posts, n) && k < n
    ensures Continues(posts, k)
  {
    if k < n - 1 {
      GoesOnAt(posts, n - 1, k);
    }
  }

  /** How reply `posts[n - 1]` ended the loop, given what was gathered before it. */
  predicate EndsWith(posts: seq<Post>, n: nat, ending: Ending)
    requires 0 < n <= |posts|
  {
    var post := posts[n - 1];
    match ending
    case Complete =>
      post.Posted? && post.status == 200 && post.page.Some? &&
      |Gathered(posts, n)| == post.page.value.total
    case HttpError(status) => post.Posted? && post.status == status && status != 200
    case Raised => post.PostRaised? || (post.Posted? && post.status == 200 && post.page.None?)
    case StillPaging => false
  }

  /** The loop stopped within the replies with what they gathered, and their versions counted. */
  predicate Tallied(posts: seq<Post>, r: Paging) {
    r.posted <= |posts| && r.all == Gathered(posts, r.posted) && r.versions == VersionCount(r.all)
  }

  lemma {:induction false} PagedFromGathers(
    posts: seq<Post>, i: nat, all: seq<MsExtension>, versions: nat, last: Option<seq<MsExtension>>, r: Paging)
    requires i <= |posts| && all == Gathered(posts, i) && versions == VersionCount(all)
    requires r == PagedFrom(posts, i, all, versions, last)
    ensures i <= r.posted && Tallied(posts, r)
    decreases |posts| - i, 2
  {
    if i < |posts| {
      PagedStepGathers(posts, i, all, versions, last, r);
    }
  }

  lemma {:induction false} PagedStepGathers(
    posts: seq<Post>, i: nat, all: seq<MsExtension>, versions: nat, last: Option<seq<MsExtension>>, r: Paging)
    requires i < |posts| && all == Gathered(posts, i) && versions == VersionCount(all)
    requires r == PagedFrom(posts, i, all, versions, last)
    ensures i <= r.posted && Tallied(posts, r)
    decreases |posts| - i, 1
  {
    var post := posts[i];
    if post.Posted? && post.status == 200 && post.page.Some? && |all + post.page.value.extensions| != post.page.value.total {
      PagedGoesOnGathers(posts, i, all, versions, last, r);
    } else {
      PagedStopGathers(posts, i, all, versions, last);
    }
  }

  lemma {:induction false} PagedGoesOnGathers(
    posts: seq<Post>, i: nat, all: seq<MsExtension>, versions: nat, last: Option<seq<MsExtension>>, r: Paging)
    requires i < |posts| && all == Gathered(posts, i) && versions == VersionCount(all)
    requires posts[i].Posted? && posts[i].status == 200 && posts[i].page.Some?
    requires |all + posts[i].page.value.extensions| != posts[i].page.value.total
    requires r == PagedFrom(posts, i, all, versions, last)
    ensures i <= r.posted && Tallied(posts, r)
    decreases |posts| - i, 0
  {
    var exts := posts[i].page.value.extensions;
    PagedGoesOnNext(posts, i, all, versions, last, r);
    PagedFromGathers(posts, i + 1, all + exts, versions + VersionCount(exts), Some(exts), r);
  }

  /** A 200 page that leaves the count short: the loop goes on from the next reply with the page gathered. */
  lemma PagedGoesOnNext(
    posts: seq<Post>, i: nat, all: seq<MsExtension>, versions: nat, last: Option<seq<MsExtension>>, r: Paging)
    requires i < |posts| && all == Gathered(posts, i) && versions == VersionCount(all)
    requires posts[i].Posted? && posts[i].status == 200 && posts[i].page.Some?
    requires |all + posts[i].page.value.extensions| != posts[i].page.value.total
    requires r == PagedFrom(posts, i, all, versions, last)
    ensures var exts := posts[i].page.value.extensions;
      all + exts == Gathered(posts, i + 1) && versions + VersionCount(exts) == VersionCount(all + exts) &&
      r == PagedFrom(posts, i + 1, all + exts, versions + VersionCount(exts), Some(exts))
  {
    var exts := posts[i].page.value.extensions;
    GatheredNext(posts, i);
    VersionCountAppend(all, exts);
    PagedGoesOn(posts, i, all, versions, last);
  }

  lemma PagedStopGathers(posts: seq<Post>, i: nat, all: seq<MsExtension>, versions: nat, last: Option<seq<MsExtension>>)
    requires i < |posts| && all == Gathered(posts, i) && versions == VersionCount(all)
    requires !(posts[i].Posted? && posts[i].status == 200 && posts[i].page.Some? &&
               |all + posts[i].page.value.extensions| != posts[i].page.value.total)
    ensures PagedFrom(posts, i, all, versions, last).posted == i + 1
    ensures Tallied(posts, PagedFrom(posts, i, all, versions, last))
  {
    GatheredNext(posts, i);
    var post := posts[i];
    if post.Posted? && post.status == 200 && post.page.Some? {
      PagedCompletes(posts, i, all, versions, last);
    } else {
      PagedBreaks(posts, i, all, versions, last);
    }
  }

  lemma PagedCompletes(posts: seq<Post>, i: nat, all: seq<MsExtension>, versions: nat, last: Option<seq<MsExtension>>)
    requires i < |posts| && all == Gathered(posts, i) && versions == VersionCount(all)
    requires posts[i].Posted? && posts[i].status == 200 && posts[i].page.Some?
    requires |all + posts[i].page.value.extensions| == posts[i].page.value.total
    ensures PagedFrom(posts, i, all, versions, last).posted == i + 1
    ensures Tallied(posts, PagedFrom(posts, i, all, versions, last))
  {
    var exts := posts[i].page.value.extensions;
    var r := PagedFrom(posts, i, all, versions, last);
    assert r.posted == i + 1 && r.all == all + exts && r.versions == versions + VersionCount(exts);
    GatheredNext(posts, i);
    VersionCountAppend(all, exts);
  }

  lemma PagedBreaks(posts: seq<Post>, i: nat, all: seq<MsExtension>, versions: nat, last: Option<seq<MsExtension>>)
    requires i < |posts| && all == Gathered(posts, i) && versions == VersionCount(all)
    requires !(posts[i].Posted? && posts[i].status == 200 && posts[i].page.Some?)
    ensures PagedFrom(posts, i, all, versions, last).posted == i + 1
    ensures Tallied(posts, PagedFrom(posts, i, all, versions, last))
  {
    GatheredNext(posts, i);
    assert all + [] == all;
  }

  /** A 200 page that leaves the count short: the loop goes on with it added. */
  lemma PagedGoesOn(posts: seq<Post>, i: nat, all: seq<MsExtension>, versions: nat, last: Option<seq<MsExtension>>)
    requires i < |posts| && posts[i].Posted? && posts[i].status == 200 && posts[i].page.Some?
    requires |all + posts[i].page.value.extensions| != posts[i].page.value.total
    ensures var exts := posts[i].page.value.extensions;
      PagedFrom(posts, i, all, versions, last) == PagedFrom(posts, i + 1, all + exts, versions + VersionCount(exts), Some(exts))
  {
  }

  lemma GatheredNext(posts: seq<Post>, n: nat)
    requires n < |posts|
    ensures Gathered(posts, n + 1) == Gathered(posts, n) + PageExtensions(posts[n])
  {
  }

  lemma {:induction false} PagedFromLast(
    posts: seq<Post>, i: nat, all: seq<MsExtension>, versions: nat, last: Option<seq<MsExtension>>)
    requires i <= |posts|
    ensures var r := PagedFrom(posts, i, all, versions, last);
      r.ending == Complete ==> i < r.posted <= |posts| && r.last == Some(PageExtensions(posts[r.posted - 1]))
    decreases |posts| - i
  {
    if i < |posts| && posts[i].Posted? && posts[i].status == 200 && posts[i].page.Some? {
      var exts := posts[i].page.value.extensions;
      if |all + exts| != posts[i].page.value.total {
        PagedFromLast(posts, i + 1, all + exts, versions + VersionCount(exts), Some(exts));
      }
    }
  }

  /** How the loop ended: still paging after every reply, or at a reply that stopped it after all before it went on. */
  predicate Ended(posts: seq<Post>, r: Paging) {
    r.posted <= |posts| &&
    (r.ending == StillPaging ==> r.posted == |posts| && GoesOn(posts, r.posted)) &&
    (r.ending != StillPaging ==> r.posted > 0 && GoesOn(posts, r.posted - 1) && EndsWith(posts, r.posted, r.ending))
  }

  lemma {:induction false} PagedFromEnds(
    posts: seq<Post>, i: nat, all: seq<MsExtension>, versions: nat, last: Option<seq<MsExtension>>, r: Paging)
    requires i <= |posts| && GoesOn(posts, i) && all == Gathered(posts, i)
    requires r == PagedFrom(posts, i, all, versions, last)
    ensures Ended(posts, r)
    decreases |posts| - i
  {
    if i < |posts| && posts[i].Posted? && posts[i].status == 200 && posts[i].page.Some? &&
       |all + posts[i].page.value.extensions| != posts[i].page.value.total {
      var exts := posts[i].page.value.extensions;
      PagedEndsNext(posts, i, all, versions, last, r);
      PagedFromEnds(posts, i + 1, all + exts, versions + VersionCount(exts), Some(exts), r);
    } else if i < |posts| {
      PagedStopEnds(posts, i, all, versions, last, r);
    }
  }

  /** A 200 page that leaves the count short keeps the loop going with the page gathered. */
  lemma PagedEndsNext(
    posts: seq<Post>, i: nat, all: seq<MsExtension>, versions: nat, last: Option<seq<MsExtension>>, r: Paging)
    requires i < |posts| && GoesOn(posts, i) && all == Gathered(posts, i)
    requires posts[i].Posted? && posts[i].status == 200 && posts[i].page.Some?
    requires |all + posts[i].page.value.extensions| != posts[i].page.value.total
    requires r == PagedFrom(posts, i, all, versions, last)
    ensures var exts := posts[i].page.value.extensions;
      GoesOn(posts, i + 1) && all + exts == Gathered(posts, i + 1) &&
      r == PagedFrom(posts, i + 1, all + exts, versions + VersionCount(exts), Some(exts))
  {
    GatheredNext(posts, i);
    PagedGoesOn(posts, i, all, versions, last);
  }

  /** Any other reply stops the loop, and says how. */
  lemma PagedStopEnds(
    posts: seq<Post>, i: nat, all: seq<MsExtension>, versions: nat, last: Option<seq<MsExtension>>, r: Paging)
    requires i < |posts| && GoesOn(posts, i) && all == Gathered(posts, i)
    requires !(posts[i].Posted? && posts[i].status == 200 && posts[i].page.Some? &&
               |all + posts[i].page.value.extensions| != posts[i].page.value.total)
    requires r == PagedFrom(posts, i, all, versions, last)
    ensures Ended(posts, r)
  {
    GatheredNext(posts, i);
    assert r.posted == i + 1;
  }

  /**
   * The query loop gathers what it read: `all_extensions` is every page of the replies
   * posted, in order, and `total_all_versions` counts their versions.
   */
  lemma PagedTallies(posts: seq<Post>)
    ensures var r := Paged(posts);
      r.posted <= |posts| && r.all == Gathered(posts, r.posted) && r.versions == VersionCount(r.all)
  {
    PagedFromGathers(posts, 0, [], 0, None, Paged(posts));
  }

  /**
   * The loop posts page after page while each 200 page leaves the count short; it
   * stops at the reply that completes the count, a non-200 status or an exception.
   */
  lemma PagedEnds(posts: seq<Post>)
    ensures var r := Paged(posts);
      r.posted <= |posts| &&
      (r.ending == StillPaging ==> r.posted == |posts| && GoesOn(posts, r.posted)) &&
      (r.ending != StillPaging ==> r.posted > 0 && GoesOn(posts, r.posted - 1) && EndsWith(posts, r.posted, r.ending))
  {
    PagedFromEnds(posts, 0, [], 0, None, Paged(posts));
  }

  /** After a completed count, the last page kept is that of the final reply. */
  lemma PagedLast(posts: seq<Post>)
    ensures var r := Paged(posts);
      r.ending == Complete ==> 0 < r.posted <= |posts| && r.last == Some(PageExtensions(posts[r.posted - 1]))
  {
    PagedFromLast(posts, 0, [], 0, None);
  }

  /** One pass of the loop over a 200 page: add its extensions and their versions. */
  method AbsorbPage(all: seq<MsExtension>, versions: nat, page: MsPage)
    returns (next: seq<MsExtension>, counted: nat)
    ensures next == all + page.extensions && counted == versions + VersionCount(page.extensions)
  {
    next := all + page.extensions;
    counted := CountVersions(versions, page.extensions);
  }

  /**
   * The query loop. `pageNumbers` lists the page number of each request posted:
   * 1 first, one more after each page that left the count short.
   */
  method FetchPages(posts: seq<Post>) returns (pageNumbers: seq<nat>, r: Paging)
    ensures r == Paged(posts)
    ensures |pageNumbers| == r.posted && forall k :: 0 <= k < |pageNumbers| ==> pageNumbers[k] == k + 1
  {
    var pageNumber: nat := 1;
    var all: seq<MsExtension> := [];
    var versions: nat := 0;
    var last: Option<seq<MsExtension>> := None;
    var i := 0;
    pageNumbers := [];
    while true
      invariant i <= |posts| && pageNumber == i + 1 && |pageNumbers| == i
      invariant forall k :: 0 <= k < i ==> pageNumbers[k] == k + 1
      invariant PagedFrom(posts, i, all, versions, last) == Paged(posts)
      decreases |posts| - i
    {
      if i == |posts| {
        r := Paging(i, all, last, versions, StillPaging);
        return;
      }
      pageNumbers := pageNumbers + [pageNumber];
      match posts[i]
      case PostRaised(_) =>
        r := Paging(i + 1, all, last, versions, Raised);
        return;
      case Posted(status, page) =>
        if status != 200 {
          r := Paging(i + 1, all, last, versions, HttpError(status));
          return;
        }
        if page.None? {
          r := Paging(i + 1, all, last, versions, Raised);
          return;
        }
        all, versions := AbsorbPage(all, versions, page.value);
        last := Some(page.value.extensions);
        if |all| == page.value.total {
          r := Paging(i + 1, all, last, versions, Complete);
          return;
        }
        pageNumber := pageNumber + 1;
        i := i + 1;
    }
  }

  /*
   * The CSV file.
   */

  const CsvColumns: seq<string> := [
    "MS Publisher (Namespace)", "MS Extension", "MS DisplayName", "MS Pricing", "MS Version",
    "MS Date", "VSX Version", "VSX Date", "VSX Publisher", "VSX License", "Repo"]

  /** One line of the file: the values separated by ", ". */
  function CsvLine(fields: seq<string>): string {
    Join(fields, ", ") + "\n"
  }

  /** The header line. */
  function CsvHeader(): string {
    CsvLine(CsvColumns)
  }

  /** The part of Open VSX's extension JSON a line shows; a missing 'license' is `None`. */
  datatype VsxExtension = VsxExtension(version: string, timestamp: string, loginName: string, license: Option<string>)

  /**
   * What `requests.get` of an Open VSX extension produced: a status and, for a 200
   * reply, the JSON (`None` when it or a key the line reads is missing), or an
   * exception of the request itself.
   */
  datatype VsxReply = VsxReply(status: int, body: Option<VsxExtension>) | VsxRaised(message: string)

  /** `'%s/%s/%s' % (VSX_API, publisher, name)`, with `VSX_API = API_ENDPOINT + 'api'`. */
  function VsxUrl(endpoint: string, info: MsInfo): string {
    endpoint + "api" + "/" + info.publisherName + "/" + info.extensionName
  }

  /** The eleven values of the line for an extension Open VSX has. */
  function FoundFields(info: MsInfo, msDate: string, vsxDate: string, vsx: VsxExtension): seq<string> {
    [info.publisherName, info.extensionName, info.displayName, OrNone(info.pricing), info.latestVersion,
     msDate, vsx.version, vsxDate, vsx.loginName, OrNone(vsx.license), OrNone(info.repo)]
  }

  /** The values of the line for an extension Open VSX lacks (404), `license` being the one shown. */
  function MissingFields(info: MsInfo, msDate: string, license: Option<string>): seq<string> {
    [info.publisherName, info.extensionName, info.displayName, OrNone(info.pricing), info.latestVersion,
     msDate, "", "", "", OrNone(license), OrNone(info.repo)]
  }

  /**
   * The file so far, the 'license' of the last JSON read into `vsx_results` (used by
   * the line for a 404 as written), and whether an exception has ended the script.
   */
  datatype Csv = Csv(text: string, stale: Option<string>, aborted: bool)

  /**
   * One pass of the CSV loop over `ext`, the line for a 404 showing `license404`.
   * A status from 400 to 599 other than 404 raises in `raise_for_status`; any other
   * status writes nothing.
   */
  function Step(c: Csv, ext: MsExtension, fetch: string -> VsxReply, endpoint: string, license404: Option<string>): Csv {
    match GetMsInfo(ext)
    case None => c.(aborted := true)
    case Some(info) => StepReply(c, info, fetch(VsxUrl(endpoint, info)), license404)
  }

  /** The rest of the pass, once Open VSX has answered `reply` for the extension `info` describes. */
  function StepReply(c: Csv, info: MsInfo, reply: VsxReply, license404: Option<string>): Csv {
    match reply
    case VsxRaised(_) => c.(aborted := true)
    case VsxReply(status, body) =>
      var msDate := ConvertDateStr(info.lastUpdated);
      if status == 200 then
        if body.None? then c.(aborted := true)
        else
          var vsxDate := ConvertDateStr(body.value.timestamp);
          if msDate.None? || vsxDate.None? then c.(aborted := true)
          else Csv(c.text + CsvLine(FoundFields(info, msDate.value, vsxDate.value, body.value)), body.value.license, false)
      else if status == 404 then
        if msDate.None? then c.(aborted := true)
        else c.(text := c.text + CsvLine(MissingFields(info, msDate.value, license404)))
      else if 400 <= status < 600 then c.(aborted := true)
      else c
  }

  /** A pass only adds to the file. */
  lemma StepAppends(c: Csv, ext: MsExtension, fetch: string -> VsxReply, endpoint: string, license404: Option<string>)
    ensures c.text <= Step(c, ext, fetch, endpoint, license404).text
  {
  }

  /** The pass as written: a 404 shows the license `vsx_results` still holds. */
  function AsWrittenStep(fetch: string -> VsxReply, endpoint: string): (Csv, MsExtension) -> Csv {
    (c: Csv, ext: MsExtension) => Step(c, ext, fetch, endpoint, c.stale)
  }

  /** The corrected pass: a 404 shows no license. */
  function CorrectedStep(fetch: string -> VsxReply, endpoint: string): (Csv, MsExtension) -> Csv {
    (c: Csv, ext: MsExtension) => Step(c, ext, fetch, endpoint, None)
  }

  /** The file before the loop: the header, and no license read yet. */
  function CsvStart(): Csv {
    Csv(CsvHeader(), None, false)
  }

  /** The CSV loop over `exts`, one `step` per extension until an exception. */
  function Run(step: (Csv, MsExtension) -> Csv, exts: seq<MsExtension>): Csv {
    if exts == [] then CsvStart()
    else
      var c := Run(step, exts[..|exts| - 1]);
      if c.aborted then c else step(c, exts[|exts| - 1])
  }

  /** Each pass of `step` only adds to the file. */
  ghost predicate Appends(step: (Csv, MsExtension) -> Csv) {
    forall c: Csv, ext: MsExtension :: c.text <= step(c, ext).text
  }

  /** The CSV loop as written, over `exts`. */
  function ExportedAsWritten(exts: seq<MsExtension>, fetch: string -> VsxReply, endpoint: string): Csv {
    Run(AsWrittenStep(fetch, endpoint), exts)
  }

  /** The corrected CSV loop over `exts`. */
  function Exported(exts: seq<MsExtension>, fetch: string -> VsxReply, endpoint: string): Csv {
    Run(CorrectedStep(fetch, endpoint), exts)
  }

  /**
   * The file only grows: what a loop of appending passes wrote over a prefix of the
   * extensions starts what it writes over all of them, and after an exception
   * nothing changes.
   */
  lemma {:induction false} RunStartsWithHeader(step: (Csv, MsExtension) -> Csv, exts: seq<MsExtension>)
    requires Appends(step)
    ensures CsvHeader() <= Run(step, exts).text
  {
    if exts != [] {
      RunStartsWithHeader(step, exts[..|exts| - 1]);
    }
  }

  lemma {:induction false} RunGrows(step: (Csv, MsExtension) -> Csv, exts: seq<MsExtension>, k: nat)
    requires Appends(step) && k <= |exts|
    ensures var before := Run(step, exts[..k]);
      var after := Run(step, exts);
      CsvHeader() <= before.text <= after.text && (before.aborted ==> after == before)
    decreases |exts|
  {
    RunStartsWithHeader(step, exts[..k]);
    if k < |exts| {
      var init := exts[..|exts| - 1];
      RunGrows(step, init, k);
      assert init[..k] == exts[..k];
    } else {
      assert exts[..k] == exts;
    }
  }

  lemma CorrectedAppends(fetch: string -> VsxReply, endpoint: string)
    ensures Appends(CorrectedStep(fetch, endpoint))
  {
    forall c: Csv, ext: MsExtension ensures c.text <= CorrectedStep(fetch, endpoint)(c, ext).text {
      StepAppends(c, ext, fetch, endpoint, None);
    }
  }

  /**
   * The corrected file starts with the header and only grows, extension by
   * extension; once an exception ends the loop nothing more is written.
   */
  lemma ExportedGrows(exts: seq<MsExtension>, fetch: string -> VsxReply, endpoint: string, k: nat)
    requires k <= |exts|
    ensures var before := Exported(exts[..k], fetch, endpoint);
      var after := Exported(exts, fetch, endpoint);
      CsvHeader() <= before.text <= after.text && (before.aborted ==> after == before)
  {
    CorrectedAppends(fetch, endpoint);
    RunGrows(CorrectedStep(fetch, endpoint), exts, k);
  }

  /** The read-back values of a line split at ',': all but the first get the space after the comma. */
  function Spaced(fields: seq<string>): (r: seq<string>)
    requires fields != []
    ensures |r| == |fields| && r[0] == fields[0]
    ensures forall k :: 0 < k < |fields| ==> r[k] == " " + fields[k]
  {
    if |fields| == 1 then fields else Spaced(fields[..|fields| - 1]) + [" " + fields[|fields| - 1]]
  }

  /** Joining with ", " is joining the spaced values with ",". */
  lemma {:induction false} JoinSpaced(fields: seq<string>)
    requires fields != []
    ensures Join(fields, ", ") == Join(Spaced(fields), ",")
  {
    if |fields| > 1 {
      var init := fields[..|fields| - 1];
      JoinSpaced(init);
      var sp := Spaced(fields);
      assert sp[..|sp| - 1] == Spaced(init);
    }
  }

  /** Splitting a line (without its newline) at ',' gives its values back, when none holds a comma. */
  lemma CsvLineReadsBack(fields: seq<string>)
    requires fields != [] && forall k :: 0 <= k < |fields| ==> ',' !in fields[k]
    ensures var line := CsvLine(fields);
      Split(line[..|line| - 1], ',') == Spaced(fields)
  {
    JoinSpaced(fields);
    var sp := Spaced(fields);
    forall k | 0 <= k < |sp| ensures ',' !in sp[k] {
      if k > 0 {
        assert sp[k] == " " + fields[k];
      }
    }
    SplitJoin(sp, ',');
    var line := CsvLine(fields);
    assert line[..|line| - 1] == Join(fields, ", ");
  }

  /** The header reads back as its eleven column names. */
  lemma HeaderReadsBack()
    ensures var h := CsvHeader(); Split(h[..|h| - 1], ',') == Spaced(CsvColumns) && |CsvColumns| == 11
  {
    assert forall k :: 0 <= k < |CsvColumns| ==> ',' !in CsvColumns[k];
    CsvLineReadsBack(CsvColumns);
  }

  /**
   * A line for an extension Open VSX lacks has the header's eleven columns, with the
   * VSX version, date and publisher blank, when no value holds a comma (the display
   * name never does).
   */
  lemma MissingLineReadsBack(info: MsInfo, msDate: string, license: Option<string>)
    requires forall k :: 0 <= k < 11 ==> ',' !in MissingFields(info, msDate, license)[k]
    ensures var line := CsvLine(MissingFields(info, msDate, license));
      var read := Split(line[..|line| - 1], ',');
      |read| == |CsvColumns| && read[6] == " " && read[7] == " " && read[8] == " " &&
      read[2] == " " + info.displayName && read[9] == " " + OrNone(license)
  {
    var fields := MissingFields(info, msDate, license);
    ElevenReadBack(fields);
    assert fields[2] == info.displayName && fields[9] == OrNone(license);
    assert fields[6] == "" && fields[7] == "" && fields[8] == "" && " " + "" == " ";
  }

  /** Eleven comma-free values read back as the first and the others after a space. */
  lemma ElevenReadBack(fields: seq<string>)
    requires |fields| == 11 && forall k :: 0 <= k < 11 ==> ',' !in fields[k]
    ensures var line := CsvLine(fields);
      var read := Split(line[..|line| - 1], ',');
      |read| == |CsvColumns| && forall k :: 0 < k < 11 ==> read[k] == " " + fields[k]
  {
    CsvLineReadsBack(fields);
  }

  /** A line for an extension Open VSX has reads back as its eleven values. */
  lemma FoundLineReadsBack(info: MsInfo, msDate: string, vsxDate: string, vsx: VsxExtension)
    requires forall k :: 0 <= k < 11 ==> ',' !in FoundFields(info, msDate, vsxDate, vsx)[k]
    ensures var fields := FoundFields(info, msDate, vsxDate, vsx);
      var line := CsvLine(fields);
      var read := Split(line[..|line| - 1], ',');
      |read| == |CsvColumns| && read[0] == info.publisherName &&
      forall k :: 0 < k < 11 ==> read[k] == " " + fields[k]
  {
    CsvLineReadsBack(FoundFields(info, msDate, vsxDate, vsx));
  }

  /** The pass over an extension Open VSX has: its line, and its license kept in `vsx_results`. */
  lemma StepFound(c: Csv, ext: MsExtension, fetch: string -> VsxReply, endpoint: string, license404: Option<string>, vsx: VsxExtension)
    requires GetMsInfo(ext).Some?
    requires fetch(VsxUrl(endpoint, GetMsInfo(ext).value)) == VsxReply(200, Some(vsx))
    requires ConvertDateStr(GetMsInfo(ext).value.lastUpdated).Some? && ConvertDateStr(vsx.timestamp).Some?
    ensures var info := GetMsInfo(ext).value;
      var line := CsvLine(FoundFields(info, ConvertDateStr(info.lastUpdated).value, ConvertDateStr(vsx.timestamp).value, vsx));
      Step(c, ext, fetch, endpoint, license404) == Csv(c.text + line, vsx.license, false)
  {
    var info := GetMsInfo(ext).value;
    assert Step(c, ext, fetch, endpoint, license404) == StepReply(c, info, VsxReply(200, Some(vsx)), license404);
  }

  /** The pass over an extension Open VSX lacks: its line shows `license404`. */
  lemma StepMissing(c: Csv, ext: MsExtension, fetch: string -> VsxReply, endpoint: string, license404: Option<string>)
    requires GetMsInfo(ext).Some?
    requires fetch(VsxUrl(endpoint, GetMsInfo(ext).value)).VsxReply?
    requires fetch(VsxUrl(endpoint, GetMsInfo(ext).value)).status == 404
    requires ConvertDateStr(GetMsInfo(ext).value.lastUpdated).Some?
    ensures var info := GetMsInfo(ext).value;
      var line := CsvLine(MissingFields(info, ConvertDateStr(info.lastUpdated).value, license404));
      Step(c, ext, fetch, endpoint, license404) == c.(text := c.text + line)
  {
  }

  /** The loop over two extensions. */
  lemma RunPair(step: (Csv, MsExtension) -> Csv, a: MsExtension, b: MsExtension)
    ensures var c := step(CsvStart(), a);
      Run(step, [a, b]) == if c.aborted then c else step(c, b)
  {
    assert [a, b][..1] == [a];
    assert [a][..0] == [];
    assert Run(step, [a]) == step(CsvStart(), a);
  }

  /**
   * Two extensions, Open VSX having the first and lacking the second: as written,
   * the second line shows the first one's license; the corrected loop shows `None`.
   */
  lemma StaleLicenseOn404(a: MsExtension, b: MsExtension, fetch: string -> VsxReply, endpoint: string, vsx: VsxExtension)
    requires GetMsInfo(a).Some? && GetMsInfo(b).Some?
    requires fetch(VsxUrl(endpoint, GetMsInfo(a).value)) == VsxReply(200, Some(vsx))
    requires ConvertDateStr(GetMsInfo(a).value.lastUpdated).Some? && ConvertDateStr(vsx.timestamp).Some?
    requires fetch(VsxUrl(endpoint, GetMsInfo(b).value)).VsxReply?
    requires fetch(VsxUrl(endpoint, GetMsInfo(b).value)).status == 404
    requires ConvertDateStr(GetMsInfo(b).value.lastUpdated).Some?
    ensures var ia := GetMsInfo(a).value;
      var ib := GetMsInfo(b).value;
      var first := CsvLine(FoundFields(ia, ConvertDateStr(ia.lastUpdated).value, ConvertDateStr(vsx.timestamp).value, vsx));
      var dateB := ConvertDateStr(ib.lastUpdated).value;
      ExportedAsWritten([a, b], fetch, endpoint).text == CsvHeader() + first + CsvLine(MissingFields(ib, dateB, vsx.license)) &&
      Exported([a, b], fetch, endpoint).text == CsvHeader() + first + CsvLine(MissingFields(ib, dateB, None))
  {
    RunPair(AsWrittenStep(fetch, endpoint), a, b);
    RunPair(CorrectedStep(fetch, endpoint), a, b);
    StepFound(CsvStart(), a, fetch, endpoint, None, vsx);
    StepFound(CsvStart(), a, fetch, endpoint, CsvStart().stale, vsx);
    var c := Step(CsvStart(), a, fetch, endpoint, None);
    StepMissing(c, b, fetch, endpoint, vsx.license);
    StepMissing(c, b, fetch, endpoint, None);
  }

  /*
   * The whole script.
   */

  /**
   * The CSV the script writes as it stands. It fails exactly when the corrected
   * script does. After a completed count the loop runs over the final reply's page
   * only, and when no page was read the NameError follows the header.
   */
  function MarketplaceAsWritten(posts: seq<Post>, fetch: string -> VsxReply, endpoint: string): (r: Option<Csv>)
    ensures r.None? <==> Marketplace(posts, fetch, endpoint).None?
    ensures r.Some? && Paged(posts).ending == Complete ==>
      0 < Paged(posts).posted <= |posts| &&
      r == Some(ExportedAsWritten(PageExtensions(posts[Paged(posts).posted - 1]), fetch, endpoint))
    ensures r.Some? && Paged(posts).last.None? ==> r.value.aborted && r.value.text == CsvHeader()
  {
    PagedLast(posts);
    var paging := Paged(posts);
    if paging.ending == Raised || paging.ending == StillPaging then None
    else match paging.last
      // `extensions` was never assigned: NameError once the header is written.
      case None => Some(CsvStart().(aborted := true))
      case Some(exts) => Some(ExportedAsWritten(exts, fetch, endpoint))
  }

  /**
   * The CSV the script means to write: one line per gathered extension, `None` when
   * an exception ended the query loop or the observed replies ran out first.
   */
  function Marketplace(posts: seq<Post>, fetch: string -> VsxReply, endpoint: string): Option<Csv> {
    var paging := Paged(posts);
    if paging.ending == Raised || paging.ending == StillPaging then None
    else Some(Exported(paging.all, fetch, endpoint))
  }

  /**
   * Two pages that complete the count: the corrected file covers both, the file as
   * written only the second.
   */
  lemma LastPageOnly(first: seq<MsExtension>, second: seq<MsExtension>, total: int, fetch: string -> VsxReply, endpoint: string)
    requires |first| != total && |first| + |second| == total
    ensures var posts := [Posted(200, Some(MsPage(first, total))), Posted(200, Some(MsPage(second, total)))];
      Paged(posts).all == first + second && Paged(posts).ending == Complete &&
      MarketplaceAsWritten(posts, fetch, endpoint) == Some(ExportedAsWritten(second, fetch, endpoint)) &&
      Marketplace(posts, fetch, endpoint) == Some(Exported(first + second, fetch, endpoint))
  {
    var posts := [Posted(200, Some(MsPage(first, total))), Posted(200, Some(MsPage(second, total)))];
    assert [] + first == first;
    VersionCountAppend([], first);
    assert Paged(posts) == PagedFrom(posts, 1, first, VersionCount(first), Some(first));
  }

  /** One pass of the CSV loop. */
  method WriteLine(c: Csv, ext: MsExtension, fetch: string -> VsxReply, endpoint: string) returns (next: Csv)
    ensures next == Step(c, ext, fetch, endpoint, None)
  {
    next := Step(c, ext, fetch, endpoint, None);
  }

  /** The CSV loop, ended by the first exception. */
  method ExportCsv(exts: seq<MsExtension>, fetch: string -> VsxReply, endpoint: string) returns (c: Csv)
    ensures c == Exported(exts, fetch, endpoint)
  {
    c := CsvStart();
    var k := 0;
    while k < |exts|
      invariant k <= |exts| && c == Exported(exts[..k], fetch, endpoint) && !c.aborted
    {
      assert exts[..k + 1][..k] == exts[..k];
      c := WriteLine(c, exts[k], fetch, endpoint);
      k := k + 1;
      if c.aborted {
        ExportedGrows(exts, fetch, endpoint, k);
        return;
      }
    }
    assert exts[..k] == exts;
  }

  /**
   * The script: the query loop, then the CSV file over every gathered extension;
   * `csv` is `None` when the query loop raised or had not ended.
   */
  method GatherMarketplace(posts: seq<Post>, fetch: string -> VsxReply, endpoint: string)
    returns (pageNumbers: seq<nat>, paging: Paging, csv: Option<Csv>)
    ensures paging == Paged(posts) && csv == Marketplace(posts, fetch, endpoint)
    ensures |pageNumbers| == paging.posted && forall k :: 0 <= k < |pageNumbers| ==> pageNumbers[k] == k + 1
  {
    pageNumbers, paging := FetchPages(posts);
    if paging.ending == Raised || paging.ending == StillPaging {
      csv := None;
    } else {
      var c := ExportCsv(paging.all, fetch, endpoint);
      csv := Some(c);
    }
  }
}
