/**
 * The redis-cli layer of the Redis cluster operator: parsers over the text of
 * `CLUSTER NODES` and `--cluster check`, the rebalance/fix retry, the host list of
 * `--cluster create`, and the order of the steps that create a cluster and add or
 * remove nodes.
 *
 * A redis-cli call is not run: its (stripped) output is an input. The commands and
 * waits the operator issues are recorded as `Step`s in a log.
 */
module RedisCli {
  import opened Wrappers
  import opened Text
  import opened Seqs

  /**
   * The pods of one cluster: the StatefulSet name, the headless service, and the
   * naming helpers `pod_name(name, i)` and `pod_host(pod, service)`, which come
   * from a module outside this model and stay uninterpreted.
   */
  datatype Cluster = Cluster(
    name: string,
    service: string,
    podName: (string, nat) -> string,
    podHost: (string, string) -> string)
  {
    /** The DNS name of pod `i`. */
    function Host(i: nat): string {
      podHost(podName(name, i), service)
    }
  }

  /** The Python exceptions the parsers can raise. */
  datatype Error = ValueError | IndexError

  /** One command or wait the operator performs; a pod stands for its address. */
  datatype Step =
    | WaitReachable(pod: nat)
    | CreateCluster(command: string)
    | WaitHealthy(pod: nat)
    | Rebalance(pod: nat)
    | Fix(pod: nat)
    | Reshard(pod: nat, from: string, to: Option<string>, slots: int)
    | WaitReshardComplete(pod: nat)
    | DelNode(pod: nat, id: string)
    | FlushDb(pod: nat)
    | WaitNodeDeleted(pod: nat, expected: nat)
    | AddNode(pod: nat)
    | WaitNodeKnown(pod: nat)
    | Replicate(pod: nat, master: string)

  // ---------------------------------------------------------------------------
  // is_new_redis_node

  const MyselfMaster := " myself,master "

  /** A node is new when CLUSTER NODES lists only itself, as a master. */
  predicate IsNewRedisNode(nodes: string) {
    var lines := SplitLines(nodes);
    |lines| == 1 && Contains(lines[0], MyselfMaster)
  }

  /**
   * The same test on the raw text: it is non-empty, has no line break before its
   * last character, and mentions " myself,master ".
   */
  lemma IsNewRedisNodeIff(nodes: string)
    ensures IsNewRedisNode(nodes) <==>
      nodes != [] && '\n' !in nodes[..|nodes| - 1] && Contains(nodes, MyselfMaster)
  {
    SplitLinesOne(nodes);
    if nodes != [] && '\n' !in nodes[..|nodes| - 1] {
      var lines := SplitLines(nodes);
      match IndexOfChar(nodes, '\n')
      case None =>
        assert lines == [nodes];
      case Some(i) =>
        assert i == |nodes| - 1;
        assert nodes[i + 1..] == [];
        assert lines == [nodes[..i]];
        assert nodes == nodes[..i] + ['\n'];
        ContainsAppend(nodes[..i], ['\n'], MyselfMaster);
        ContainsBeforeLast(nodes[..i], '\n', MyselfMaster);
    }
  }

  // ---------------------------------------------------------------------------
  // get_first_master_without_replica

  /** The ids (first words) of the lines that mention "master ", in order. */
  function MasterIds(nodes: seq<string>): (r: seq<string>)
    ensures |r| <= |nodes|
  {
    if nodes == [] then []
    else
      var last := nodes[|nodes| - 1];
      MasterIds(nodes[..|nodes| - 1]) +
        (if Contains(last, "master ") then
           match FirstWord(last)
           case Some(w) => [w]
           case None => []   // cannot happen: the line holds an 'm'
         else [])
  }

  const SlaveSearch := "slave "

  /**
   * The master a replica line names: the text after the first "slave " up to the
   * next space. `node.index(" ", start)` raises ValueError when there is no such space.
   */
  function ReplicaOf(node: string): (r: Result<Option<string>, Error>)
    ensures r.Success? && r.value.None? <==> !Contains(node, SlaveSearch)
    ensures r.Success? && r.value.Some? ==>
      Contains(node, SlaveSearch) && ' ' !in r.value.value &&
      MatchesAt(node, SlaveSearch + r.value.value + " ", FindFrom(node, SlaveSearch, 0).value)
    ensures r.Failure? <==>
      Contains(node, SlaveSearch) && ' ' !in node[FindFrom(node, SlaveSearch, 0).value + |SlaveSearch|..]
    ensures r.Failure? ==> r.error == ValueError
  {
    match FindFrom(node, SlaveSearch, 0)
    case None => Success(None)
    case Some(i) =>
      var start := i + |SlaveSearch|;
      match FindFrom(node, " ", start)
      case None =>
        NoMatchNoChar(node, ' ', start, |node|);
        Failure(ValueError)
      case Some(end) =>
        ReplicaFound(node, i, end);
        Success(Some(node[start..end]))
  }

  /** The id between the first "slave " and the next space, and that space itself. */
  lemma ReplicaFound(node: string, i: nat, end: nat)
    requires MatchesAt(node, SlaveSearch, i) && FindFrom(node, " ", i + |SlaveSearch|) == Some(end)
    ensures var start := i + |SlaveSearch|;
      ' ' !in node[start..end] && ' ' in node[start..] &&
      MatchesAt(node, SlaveSearch + node[start..end] + " ", i)
  {
    var start := i + |SlaveSearch|;
    assert start <= end && MatchesAt(node, " ", end);
    assert node[i..start] == SlaveSearch;
    assert node[end..end + 1] == " ";
    assert node[start..][end - start] == ' ';
    assert node[start..end + 1] == node[start..end] + node[end..end + 1];
    assert node[i..end + 1] == node[i..start] + node[start..end + 1];
    NoMatchNoChar(node, ' ', start, end);
  }

  /** The masters named by the replica lines, in order; the first failure wins. */
  function ReplicaIds(nodes: seq<string>): Result<seq<string>, Error> {
    if nodes == [] then Success([])
    else
      match ReplicaIds(nodes[..|nodes| - 1])
      case Failure(e) => Failure(e)
      case Success(rs) =>
        match ReplicaOf(nodes[|nodes| - 1])
        case Failure(e) => Failure(e)
        case Success(None) => Success(rs)
        case Success(Some(id)) => Success(rs + [id])
  }

  /** The first of `masters` that is neither `myself` nor among `replicas`. */
  function FirstUnreplicated(masters: seq<string>, myself: string, replicas: seq<string>): (r: Option<string>)
    ensures r.Some? ==> r.value != myself && r.value !in replicas
    ensures r.Some? ==>
      exists k :: 0 <= k < |masters| && masters[k] == r.value &&
        (forall j :: 0 <= j < k ==> masters[j] == myself || masters[j] in replicas)
    ensures r.None? <==> forall k :: 0 <= k < |masters| ==> masters[k] == myself || masters[k] in replicas
  {
    if masters == [] then None
    else if masters[0] != myself && masters[0] !in replicas then Some(masters[0])
    else
      var r := FirstUnreplicated(masters[1..], myself, replicas);
      assert forall j :: 0 <= j < |masters| - 1 ==> masters[1..][j] == masters[j + 1];
      r
  }

  /** What get_first_master_without_replica returns for the CLUSTER NODES text `nodes`. */
  function FirstMasterWithoutReplica(nodes: string, myself: string): Result<Option<string>, Error> {
    var lines := SplitLines(nodes);
    match ReplicaIds(lines)
    case Failure(e) => Failure(e)
    case Success(replicas) => Success(FirstUnreplicated(MasterIds(lines), myself, replicas))
  }

  /** The loop over the node lines that collects the replicas' masters. */
  method GetFirstMasterWithoutReplica(nodes: string, myself: string) returns (r: Result<Option<string>, Error>)
    ensures r == FirstMasterWithoutReplica(nodes, myself)
  {
    var lines := SplitLines(nodes);
    var masters := MasterIds(lines);
    var replicas: seq<string> := [];
    var i := 0;
    while i < |lines|
      invariant 0 <= i <= |lines|
      invariant ReplicaIds(lines[..i]) == Success(replicas)
    {
      assert lines[..i + 1][..i] == lines[..i];
      var replica := ReplicaOf(lines[i]);
      if replica.Failure? {
        ReplicaIdsFailure(lines, i + 1);
        return Failure(replica.error);
      }
      if replica.value.Some? {
        replicas := replicas + [replica.value.value];
      }
      i := i + 1;
    }
    assert lines[..i] == lines;
    r := Success(FirstUnreplicated(masters, myself, replicas));
  }

  /** A failure on a prefix of the lines is the failure of the whole scan. */
  lemma {:induction false} ReplicaIdsFailure(lines: seq<string>, n: nat)
    requires n <= |lines| && ReplicaIds(lines[..n]).Failure?
    ensures ReplicaIds(lines) == ReplicaIds(lines[..n])
    decreases |lines| - n
  {
    if n < |lines| {
      assert lines[..n + 1][..n] == lines[..n];
      ReplicaIdsFailure(lines, n + 1);
    } else {
      assert lines[..n] == lines;
    }
  }

  /** Every master id is the first word of some line that mentions "master ". */
  lemma {:induction false} MasterIdsSound(nodes: seq<string>, m: string)
    requires m in MasterIds(nodes)
    ensures exists k :: 0 <= k < |nodes| && Contains(nodes[k], "master ") && FirstWord(nodes[k]) == Some(m)
  {
    var init := nodes[..|nodes| - 1];
    if m in MasterIds(init) {
      MasterIdsSound(init, m);
      var k :| 0 <= k < |init| && Contains(init[k], "master ") && FirstWord(init[k]) == Some(m);
      assert nodes[k] == init[k];
    } else {
      assert nodes[|nodes| - 1] == nodes[|init|];
    }
  }

  /** The ids of the lines up to `n` come first among all the ids. */
  lemma {:induction false} MasterIdsPrefix(nodes: seq<string>, n: nat)
    requires n <= |nodes|
    ensures MasterIds(nodes[..n]) <= MasterIds(nodes)
    decreases |nodes| - n
  {
    if n == |nodes| {
      assert nodes[..n] == nodes;
    } else {
      MasterIdsPrefix(nodes, n + 1);
      assert nodes[..n + 1][..n] == nodes[..n];
    }
  }

  /**
   * Every line that mentions "master " contributes its first word, right after the
   * ids of the lines before it.
   */
  lemma MasterIdsComplete(nodes: seq<string>, k: nat)
    requires k < |nodes| && Contains(nodes[k], "master ")
    ensures FirstWord(nodes[k]).Some?
    ensures MasterIds(nodes[..k]) + [FirstWord(nodes[k]).value] <= MasterIds(nodes)
  {
    MasterLineHasWord(nodes[k]);
    MasterIdsStep(nodes, k);
    MasterIdsPrefix(nodes, k + 1);
  }

  /** A line that mentions "master " has a first word. */
  lemma MasterLineHasWord(line: string)
    requires Contains(line, "master ")
    ensures FirstWord(line).Some?
  {
    var i := FindFrom(line, "master ", 0).value;
    assert line[i] == line[i..i + 7][0] == 'm';
    assert !IsSpace(line[i]);
  }

  lemma MasterIdsStep(nodes: seq<string>, k: nat)
    requires k < |nodes| && Contains(nodes[k], "master ") && FirstWord(nodes[k]).Some?
    ensures MasterIds(nodes[..k + 1]) == MasterIds(nodes[..k]) + [FirstWord(nodes[k]).value]
  {
    var upTo := nodes[..k + 1];
    assert upTo[..|upTo| - 1] == nodes[..k] && upTo[|upTo| - 1] == nodes[k];
  }

  // ---------------------------------------------------------------------------
  // is_cluster_unhealthy and redis_cluster_check

  const AgreeText := "[OK] All nodes agree about slots configuration"
  const CoveredText := "[OK] All 16384 slots covered"
  const WarningMarker := "[WARNING]"

  /**
   * A line matches `text.` of an extended regular expression: `text` followed by
   * one more character, whatever it is.
   */
  predicate FollowedByAny(line: string, text: string) {
    line != [] && Contains(line[..|line| - 1], text)
  }

  /** The lines `grep -E` keeps from the check output. */
  predicate GrepSelected(line: string) {
    FollowedByAny(line, AgreeText) || FollowedByAny(line, CoveredText) || Contains(line, WarningMarker)
  }

  /** The output of `--cluster check … | grep -E …`, as lines. */
  function HealthChecks(checkOutput: string): seq<string> {
    Filter(GrepSelected, SplitLines(checkOutput))
  }

  /**
   * The cluster is unhealthy unless grep keeps exactly two lines and neither starts
   * with "[WARNING]". (When grep keeps nothing it fails, and the empty error text
   * has no lines either.)
   */
  predicate IsClusterUnhealthy(checkOutput: string) {
    var checks := HealthChecks(checkOutput);
    |checks| != 2 || exists k :: 0 <= k < |checks| && StartsWith(checks[k], WarningMarker)
  }

  /** A check output with a line starting with "[WARNING]" is always unhealthy. */
  lemma WarningMakesUnhealthy(checkOutput: string, k: nat)
    requires k < |SplitLines(checkOutput)| && StartsWith(SplitLines(checkOutput)[k], WarningMarker)
    ensures IsClusterUnhealthy(checkOutput)
  {
    var lines := SplitLines(checkOutput);
    var line := lines[k];
    assert MatchesAt(line, WarningMarker, 0);
    ContainsAt(line, WarningMarker, 0);
    assert GrepSelected(line);
    FilterCounts(GrepSelected, lines, line);
    assert line in multiset(lines);
    var checks := HealthChecks(checkOutput);
    assert line in multiset(checks);
    var j :| 0 <= j < |checks| && checks[j] == line;
  }

  /**
   * An output in which grep keeps exactly two lines, neither starting with
   * "[WARNING]", is healthy.
   */
  lemma TwoCleanChecksHealthy(checkOutput: string, i: nat, j: nat)
    requires var lines := SplitLines(checkOutput);
      i < j < |lines| && GrepSelected(lines[i]) && GrepSelected(lines[j]) &&
      (forall k :: 0 <= k < |lines| && k != i && k != j ==> !GrepSelected(lines[k])) &&
      !StartsWith(lines[i], WarningMarker) && !StartsWith(lines[j], WarningMarker)
    ensures !IsClusterUnhealthy(checkOutput)
  {
    var lines := SplitLines(checkOutput);
    FilterExactlyTwo(GrepSelected, lines, i, j);
  }

  const AgreeMarker := AgreeText + "."
  const CoveredMarker := CoveredText + "."

  /** redis_cluster_check accepts an output with both "[OK]" markers and no warning. */
  predicate CheckValid(checkOutput: string) {
    Contains(checkOutput, AgreeMarker) && Contains(checkOutput, CoveredMarker) &&
    !Contains(checkOutput, WarningMarker)
  }

  /**
   * redis_cluster_check over the outputs of successive polls: the lines of the first
   * valid one, after one sleep per rejected poll, or `None` (still waiting) when no
   * observed poll is valid.
   */
  method RedisClusterCheck(polls: seq<string>) returns (lines: Option<seq<string>>, sleeps: nat)
    ensures lines.Some? <==> exists k :: 0 <= k < |polls| && CheckValid(polls[k])
    ensures lines.Some? ==>
      sleeps < |polls| && CheckValid(polls[sleeps]) && lines.value == SplitLines(polls[sleeps])
    ensures sleeps <= |polls|
    ensures forall k :: 0 <= k < sleeps ==> !CheckValid(polls[k])
    ensures lines.None? ==> sleeps == |polls|
  {
    sleeps := 0;
    while sleeps < |polls|
      invariant sleeps <= |polls|
      invariant forall k :: 0 <= k < sleeps ==> !CheckValid(polls[k])
    {
      if CheckValid(polls[sleeps]) {
        return Some(SplitLines(polls[sleeps])), sleeps;
      }
      sleeps := sleeps + 1;
    }
    lines := None;
  }

  /** No line redis_cluster_check returns holds a warning. */
  lemma CheckedLinesHaveNoWarning(checkOutput: string, k: nat)
    requires CheckValid(checkOutput) && k < |SplitLines(checkOutput)|
    ensures !Contains(SplitLines(checkOutput)[k], WarningMarker)
  {
    if Contains(SplitLines(checkOutput)[k], WarningMarker) {
      SplitLinesInText(checkOutput, k, WarningMarker);
    }
  }

  // ---------------------------------------------------------------------------
  // get_redis_master_node

  /** The check line that introduces master `nodeId` at `host`. */
  function MasterSearch(nodeId: string, host: string): string {
    "M: " + nodeId + " " + host + ":6379"
  }

  /** The index of the first line equal to `x`. */
  function LineIndex(lines: seq<string>, x: string): (r: Option<nat>)
    ensures r.Some? ==> r.value < |lines| && lines[r.value] == x && x !in lines[..r.value]
    ensures r.None? <==> x !in lines
  {
    if x in lines then Some(FirstIndex(lines, x)) else None
  }

  const SlotsStart := "] ("
  const SlotsEnd := " slots) master"

  /**
   * The slot count on a line such as "   slots:[0-5460] (5461 slots) master": the
   * text after the first "] (" up to the last 14 characters, read by `int`.
   * `index` or `int` raise ValueError when that fails.
   */
  function SlotsOnLine(line: string): Result<int, Error> {
    match FindFrom(line, SlotsStart, 0)
    case None => Failure(ValueError)
    case Some(i) =>
      match ParseInt(Slice(line, i + |SlotsStart|, |line| - |SlotsEnd|))
      case None => Failure(ValueError)
      case Some(n) => Success(n)
  }

  /**
   * The slot count get_redis_master_node reports: 0 when no line is exactly the
   * master's line, an IndexError when that line is the last one, and otherwise the
   * count on the next line.
   */
  function MasterNodeSlots(lines: seq<string>, nodeId: string, host: string): Result<int, Error> {
    match LineIndex(lines, MasterSearch(nodeId, host))
    case None => Success(0)
    case Some(i) => if i + 1 < |lines| then SlotsOnLine(lines[i + 1]) else Failure(IndexError)
  }

  /** The search loop of get_redis_master_node over the checked lines. */
  method GetRedisMasterNode(nodeId: string, host: string, lines: seq<string>) returns (slots: Result<int, Error>)
    ensures slots == MasterNodeSlots(lines, nodeId, host)
  {
    var search := MasterSearch(nodeId, host);
    var lineIndex: int := -1;
    var i := 0;
    while i < |lines|
      invariant 0 <= i <= |lines|
      invariant search !in lines[..i]
    {
      if lines[i] == search {
        lineIndex := i + 1;
        break;
      }
      assert lines[..i + 1] == lines[..i] + [lines[i]];
      i := i + 1;
    }
    if lineIndex == -1 {
      assert lines[..i] == lines;
      return Success(0);
    }
    assert LineIndex(lines, search) == Some(i);
    if lineIndex >= |lines| {
      return Failure(IndexError);
    }
    slots := SlotsOnLine(lines[lineIndex]);
  }

  /** The line a master's slot range is printed on. */
  function SlotsLine(range: string, n: nat): string {
    range + SlotsStart + NatToString(n) + SlotsEnd
  }

  /** Reading the count back from a printed slots line gives the count. */
  lemma SlotsOnSlotsLine(range: string, n: nat)
    requires !Contains(range, SlotsStart)
    ensures SlotsOnLine(SlotsLine(range, n)) == Success(n as int)
  {
    var line := SlotsLine(range, n);
    var digits := NatToString(n);
    assert line == range + SlotsStart + (digits + SlotsEnd);
    SlotsStartFirst(range, digits + SlotsEnd);
    assert line[|range| + |SlotsStart|..|line| - |SlotsEnd|] == digits;
    ParseIntOfNatToString(n);
  }

  /** The first "] (" of a line is the one after a range that holds none. */
  lemma SlotsStartFirst(range: string, rest: string)
    requires !Contains(range, SlotsStart)
    ensures FindFrom(range + SlotsStart + rest, SlotsStart, 0) == Some(|range|)
  {
    var line := range + SlotsStart + rest;
    assert line[|range|..|range| + |SlotsStart|] == SlotsStart;
    forall j | 0 <= j < |range|
      ensures !MatchesAt(line, SlotsStart, j)
    {
      SlotsStartNotAt(range, rest, j);
    }
    FindFromFirst(line, SlotsStart, 0, |range|);
  }

  /** No "] (" starts inside such a range, not even one that runs into the "] (" after it. */
  lemma SlotsStartNotAt(range: string, rest: string, j: nat)
    requires !Contains(range, SlotsStart) && j < |range|
    ensures !MatchesAt(range + SlotsStart + rest, SlotsStart, j)
  {
    var line := range + SlotsStart + rest;
    if j + |SlotsStart| <= |range| {
      assert line[j..j + |SlotsStart|] == range[j..j + |SlotsStart|];
      assert !MatchesAt(range, SlotsStart, j);
    } else {
      assert line[|range|] == ']';
      assert j + |SlotsStart| <= |line| ==> line[j..j + |SlotsStart|][|range| - j] == ']';
    }
  }

  /** The count get_redis_master_node finds for a master listed with its slots. */
  lemma MasterNodeSlotsFound(lines: seq<string>, nodeId: string, host: string, i: nat, range: string, n: nat)
    requires i + 1 < |lines| && lines[i] == MasterSearch(nodeId, host) && MasterSearch(nodeId, host) !in lines[..i]
    requires lines[i + 1] == SlotsLine(range, n) && !Contains(range, SlotsStart)
    ensures MasterNodeSlots(lines, nodeId, host) == Success(n as int)
  {
    SlotsOnSlotsLine(range, n);
    assert LineIndex(lines, MasterSearch(nodeId, host)) == Some(i);
  }

  // ---------------------------------------------------------------------------
  // find_redis_master_node_to_reshard_to

  const MasterPrefix := "M: "

  /** The check line's suffix that names a master at `host`. */
  function HostSuffix(host: string): string {
    " " + host + ":6379"
  }

  predicate IsMasterLineOf(line: string, host: string) {
    StartsWith(line, MasterPrefix) && EndsWith(line, HostSuffix(host))
  }

  /**
   * The id on the first line "M: <id> <host>:6379". (When prefix and suffix overlap
   * the Python slice is empty.)
   */
  function MasterIdAt(lines: seq<string>, host: string): (r: Option<string>)
    ensures r.None? <==> forall k :: 0 <= k < |lines| ==> !IsMasterLineOf(lines[k], host)
    ensures r.Some? ==>
      exists k :: 0 <= k < |lines| && IsMasterLineOf(lines[k], host) &&
        (forall j :: 0 <= j < k ==> !IsMasterLineOf(lines[j], host)) &&
        (if |lines[k]| >= |MasterPrefix| + |HostSuffix(host)|
         then lines[k] == MasterPrefix + r.value + HostSuffix(host)
         else r.value == [])
  {
    if lines == [] then None
    else if IsMasterLineOf(lines[0], host) then
      var line := lines[0];
      var id := Slice(line, |MasterPrefix|, |line| - |HostSuffix(host)|);
      assert |line| >= |MasterPrefix| + |HostSuffix(host)| ==>
        line == line[..|MasterPrefix|] + id + line[|line| - |HostSuffix(host)|..];
      Some(id)
    else
      var r := MasterIdAt(lines[1..], host);
      assert forall j :: 0 <= j < |lines| - 1 ==> lines[1..][j] == lines[j + 1];
      r
  }

  /**
   * find_redis_master_node_to_reshard_to: the master id of the pod with the smallest
   * index in [start, limit) that appears as a master in the check lines.
   */
  function ReshardTarget(c: Cluster, lines: seq<string>, start: nat, limit: int): (r: Option<string>)
    decreases limit - start
    ensures r.None? <==> forall i: nat :: start <= i < limit ==> MasterIdAt(lines, c.Host(i)).None?
    ensures r.Some? ==>
      exists i: nat :: start <= i < limit && r == MasterIdAt(lines, c.Host(i)) &&
        forall j: nat :: start <= j < i ==> MasterIdAt(lines, c.Host(j)).None?
  {
    if start >= limit then None
    else if MasterIdAt(lines, c.Host(start)).Some? then MasterIdAt(lines, c.Host(start))
    else ReshardTarget(c, lines, start + 1, limit)
  }

  // ---------------------------------------------------------------------------
  // rebalance_redis_cluster

  const ErrMarker := " ERR "

  /**
   * The commands of rebalance_redis_cluster from its `retries`-th attempt on, where
   * `output(k)` is what the `k`-th rebalance printed.
   */
  function RebalanceSteps(pod: nat, output: nat -> string, retries: nat): seq<Step> {
    RetrySteps(pod, Failures(output), retries)
  }

  /** Attempt `k` failed: its output holds " ERR ". */
  function Failures(output: nat -> string): nat -> bool {
    (k: nat) => Contains(output(k), ErrMarker)
  }

  /** The retry loop from attempt `retries` on, where `failed(k)` tells whether attempt `k` failed. */
  function RetrySteps(pod: nat, failed: nat -> bool, retries: nat): seq<Step>
    decreases 3 - retries
  {
    if retries >= 3 then []
    else if failed(retries) then [Rebalance(pod), Fix(pod)] + RetrySteps(pod, failed, retries + 1)
    else [Rebalance(pod)]
  }

  /** The retry loop of rebalance_redis_cluster. */
  method RebalanceRedisCluster(pod: nat, output: nat -> string) returns (steps: seq<Step>)
    ensures steps == RebalanceSteps(pod, output, 0)
  {
    ghost var failed := Failures(output);
    var retries := 0;
    var rebalanced := false;
    steps := [];
    while !rebalanced && retries < 3
      invariant retries <= 3
      invariant !rebalanced ==> steps + RetrySteps(pod, failed, retries) == RetrySteps(pod, failed, 0)
      invariant rebalanced ==> steps == RetrySteps(pod, failed, 0)
      decreases 3 - retries, !rebalanced
    {
      RetryAdvance(pod, failed, retries, steps);
      steps := steps + [Rebalance(pod)];
      assert failed(retries) == Contains(output(retries), ErrMarker);
      if Contains(output(retries), ErrMarker) {
        steps := steps + [Fix(pod)];
        retries := retries + 1;
      } else {
        rebalanced := true;
      }
    }
  }

  /** One more attempt of the retry loop, appended to the steps `before` it. */
  lemma RetryAdvance(pod: nat, failed: nat -> bool, retries: nat, before: seq<Step>)
    requires retries < 3
    ensures failed(retries) ==>
      before + [Rebalance(pod)] + [Fix(pod)] + RetrySteps(pod, failed, retries + 1) == before + RetrySteps(pod, failed, retries)
    ensures !failed(retries) ==> before + [Rebalance(pod)] == before + RetrySteps(pod, failed, retries)
  {
    var rest := RetrySteps(pod, failed, retries + 1);
    if failed(retries) {
      assert [Rebalance(pod)] + [Fix(pod)] == [Rebalance(pod), Fix(pod)];
      AppendAssoc(before + [Rebalance(pod)], [Fix(pod)], rest);
      AppendAssoc(before, [Rebalance(pod)], [Fix(pod)]);
      AppendAssoc(before, [Rebalance(pod), Fix(pod)], rest);
    }
  }

  /** The first attempt at or after `from` that did not fail, or 3. */
  function FirstClean(failed: nat -> bool, from: nat): (r: nat)
    requires from <= 3
    decreases 3 - from
    ensures from <= r <= 3
    ensures forall k :: from <= k < r ==> failed(k)
    ensures r < 3 ==> !failed(r)
  {
    if from == 3 || !failed(from) then from else FirstClean(failed, from + 1)
  }

  /** `n` failed rounds: a rebalance followed by a fix, `n` times. */
  function FailedRounds(pod: nat, n: nat): (r: seq<Step>)
    ensures |r| == 2 * n
  {
    if n == 0 then [] else [Rebalance(pod), Fix(pod)] + FailedRounds(pod, n - 1)
  }

  /**
   * The retry loop makes one failed round (rebalance + fix) per consecutive output
   * with " ERR ", at most 3, and then one last rebalance if some attempt is left.
   */
  lemma {:induction false} RebalanceShape(pod: nat, failed: nat -> bool, from: nat)
    requires from <= 3
    ensures var j := FirstClean(failed, from);
      RetrySteps(pod, failed, from) == FailedRounds(pod, j - from) + (if j < 3 then [Rebalance(pod)] else [])
    decreases 3 - from
  {
    var j := FirstClean(failed, from);
    var last: seq<Step> := if j < 3 then [Rebalance(pod)] else [];
    if from < 3 && failed(from) {
      var round := [Rebalance(pod), Fix(pod)];
      var n := j - from;
      assert FirstClean(failed, from + 1) == j && j - (from + 1) == n - 1;
      RebalanceShape(pod, failed, from + 1);
      var rest := FailedRounds(pod, n - 1);
      assert RetrySteps(pod, failed, from) == round + (rest + last);
      assert FailedRounds(pod, n) == round + rest;
      AppendAssoc(round, rest, last);
    } else {
      assert FailedRounds(pod, 0) == [];
    }
  }

  // ---------------------------------------------------------------------------
  // redis_cluster_create and create_redis_cluster

  /** "host_0:6379 host_1:6379 … " for the first `n` pods. */
  function HostList(c: Cluster, n: nat): string {
    if n == 0 then "" else HostList(c, n - 1) + c.Host(n - 1) + ":6379 "
  }

  function CreateCommand(c: Cluster, replicas: nat): string {
    "--cluster create " + HostList(c, replicas) + "--cluster-replicas 1 --cluster-yes"
  }

  /** The loop of redis_cluster_create that accumulates the host list. */
  method RedisClusterCreate(c: Cluster, replicas: nat) returns (command: string)
    ensures command == CreateCommand(c, replicas)
  {
    var hosts := "";
    for i := 0 to replicas
      invariant hosts == HostList(c, i)
    {
      hosts := hosts + c.Host(i) + ":6379 ";
    }
    command := "--cluster create " + hosts + "--cluster-replicas 1 --cluster-yes";
  }

  /** Every pod below `n` is listed as "host:6379 ". */
  lemma {:induction false} HostListHasPod(c: Cluster, n: nat, i: nat)
    requires i < n
    ensures Contains(HostList(c, n), c.Host(i) + ":6379 ")
  {
    var entry := c.Host(i) + ":6379 ";
    if i == n - 1 {
      assert MatchesAt(entry, entry, 0);
      ContainsAt(entry, entry, 0);
      ContainsAppend(HostList(c, n - 1), entry, entry);
    } else {
      HostListHasPod(c, n - 1, i);
      ContainsAppend(HostList(c, n - 1), c.Host(n - 1) + ":6379 ", entry);
    }
    assert HostList(c, n) == HostList(c, n - 1) + (c.Host(n - 1) + ":6379 ");
  }

  /** One reachability wait per pod below `n`, in ascending order. */
  function ReachableWaits(n: nat): (r: seq<Step>)
    ensures |r| == n && forall i :: 0 <= i < n ==> r[i] == WaitReachable(i)
  {
    if n == 0 then [] else ReachableWaits(n - 1) + [WaitReachable(n - 1)]
  }

  /** One health wait per pod below `n`, in ascending order. */
  function HealthyWaits(n: nat): (r: seq<Step>)
    ensures |r| == n
  {
    if n == 0 then [] else HealthyWaits(n - 1) + [WaitHealthy(n - 1)]
  }

  /** Pods below `n` each wait until they list `expected` nodes. */
  function DeletedWaits(n: nat, expected: nat): (r: seq<Step>)
    ensures |r| == n
  {
    if n == 0 then [] else DeletedWaits(n - 1, expected) + [WaitNodeDeleted(n - 1, expected)]
  }

  /** The steps of create_redis_cluster, as a value. */
  function CreateSteps(c: Cluster, replicas: nat, lastNodes: string): seq<Step> {
    ReachableWaits(replicas) + if IsNewRedisNode(lastNodes) then [CreateCluster(CreateCommand(c, replicas))] else []
  }

  /**
   * create_redis_cluster: wait for every pod, then create the cluster unless the last
   * pod (whose CLUSTER NODES output is `lastNodes`) already belongs to one.
   */
  method CreateRedisCluster(c: Cluster, replicas: nat, lastNodes: string) returns (steps: seq<Step>)
    ensures |steps| >= replicas && steps[..replicas] == ReachableWaits(replicas)
    ensures steps[replicas..] == if IsNewRedisNode(lastNodes) then [CreateCluster(CreateCommand(c, replicas))] else []
    ensures steps == CreateSteps(c, replicas, lastNodes)
  {
    steps := [];
    for i := 0 to replicas
      invariant steps == ReachableWaits(i)
    {
      steps := steps + [WaitReachable(i)];
    }
    if IsNewRedisNode(lastNodes) {
      var command := RedisClusterCreate(c, replicas);
      steps := steps + [CreateCluster(command)];
    }
  }

  // ---------------------------------------------------------------------------
  // remove_redis_cluster_nodes

  /**
   * What the removal observes. The parsers above are what turn redis-cli output
   * into `slots` and `target`; here they are taken as given.
   */
  datatype RemoveObserved = RemoveObserved(
    myId: nat -> string,                  // CLUSTER MYID of each pod
    slots: nat -> Result<int, Error>,     // get_redis_master_node's slot count for each pod
    target: nat -> Option<string>,        // find_redis_master_node_to_reshard_to from index j
    rebalanceOut: nat -> string)          // output of the k-th rebalance attempt

  /** The number of pods removed. */
  function RemoveCount(current: nat, wanted: nat): nat {
    if current > wanted then current - wanted else 0
  }

  /** The steps issued so far, how many masters were resharded, and any exception. */
  datatype Progress = Progress(steps: seq<Step>, masterIndex: nat, error: Option<Error>)

  /**
   * The first loop of remove_redis_cluster_nodes after `k` iterations: pod
   * current-1-i is resharded onto a remaining master when it holds slots.
   */
  function ReshardLoop(current: nat, obs: RemoveObserved, k: nat): Progress
    requires k <= current
  {
    if k == 0 then Progress([], 0, None)
    else ReshardStep(obs, ReshardLoop(current, obs, k - 1), current - k)
  }

  /** One iteration of the reshard loop, for `pod`. */
  function ReshardStep(obs: RemoveObserved, p: Progress, pod: nat): Progress {
    if p.error.Some? then p
    else
      match obs.slots(pod)
      case Failure(e) => Progress(p.steps, p.masterIndex, Some(e))
      case Success(n) =>
        if n > 0 then
          var reshard := Reshard(pod, obs.myId(pod), obs.target(p.masterIndex), n);
          Progress(p.steps + [reshard, WaitReshardComplete(pod)], p.masterIndex + 1, None)
        else p
  }

  /** The second phase: wait, rebalance from pod 0 and wait again, only after a reshard. */
  function RebalancePhase(current: nat, obs: RemoveObserved, masterIndex: nat): seq<Step> {
    if masterIndex > 0 then HealthyWaits(current) + RebalanceSteps(0, obs.rebalanceOut, 0) + HealthyWaits(current)
    else []
  }

  /** The third loop after `k` iterations: delete pod current-1-i, flush it and wait. */
  function DeleteLoop(current: nat, obs: RemoveObserved, k: nat): seq<Step>
    requires k <= current
  {
    ConcatDown(current, DeleteRounds(obs), k)
  }

  function DeleteRounds(obs: RemoveObserved): nat -> seq<Step> {
    (pod: nat) => DeleteRound(obs, pod)
  }

  /** The rounds for pods current-1, current-2, …, current-k, one after the other. */
  function ConcatDown<T>(current: nat, rounds: nat -> seq<T>, k: nat): seq<T>
    requires k <= current
  {
    if k == 0 then [] else ConcatDown(current, rounds, k - 1) + rounds(current - k)
  }

  /** Removing one pod: del-node, FLUSHDB, then wait on every pod below it. */
  function DeleteRound(obs: RemoveObserved, pod: nat): seq<Step> {
    [DelNode(pod, obs.myId(pod)), FlushDb(pod)] + HealthyWaits(pod) + DeletedWaits(pod, pod)
  }

  /** Everything remove_redis_cluster_nodes does, and the exception it ends with, if any. */
  function RemoveSteps(current: nat, wanted: nat, obs: RemoveObserved): (seq<Step>, Option<Error>) {
    var count := RemoveCount(current, wanted);
    var p := ReshardLoop(current, obs, count);
    if p.error.Some? then (p.steps, p.error)
    else (p.steps + RebalancePhase(current, obs, p.masterIndex) + DeleteLoop(current, obs, count), None)
  }

  /** Once the reshard loop has raised, later iterations change nothing. */
  lemma {:induction false} ReshardLoopStops(current: nat, obs: RemoveObserved, k: nat, n: nat)
    requires k <= n <= current && ReshardLoop(current, obs, k).error.Some?
    ensures ReshardLoop(current, obs, n) == ReshardLoop(current, obs, k)
    decreases n - k
  {
    if k < n {
      ReshardLoopStops(current, obs, k + 1, n);
    }
  }

  /** The first loop of remove_redis_cluster_nodes: reshard the removed masters away. */
  method ReshardRemovedNodes(current: nat, wanted: nat, obs: RemoveObserved) returns (p: Progress)
    ensures p == ReshardLoop(current, obs, RemoveCount(current, wanted))
  {
    var count := RemoveCount(current, wanted);
    var steps := [];
    var masterIndex := 0;
    var i := 0;
    while i < count
      invariant 0 <= i <= count
      invariant ReshardLoop(current, obs, i) == Progress(steps, masterIndex, None)
    {
      var pod: nat := current - i - 1;
      var slots := obs.slots(pod);
      if slots.Failure? {
        ReshardLoopStops(current, obs, i + 1, count);
        return Progress(steps, masterIndex, Some(slots.error));
      }
      if slots.value > 0 {
        steps := steps + [Reshard(pod, obs.myId(pod), obs.target(masterIndex), slots.value), WaitReshardComplete(pod)];
        masterIndex := masterIndex + 1;
      }
      i := i + 1;
    }
    p := Progress(steps, masterIndex, None);
  }

  /** Wait until each of the first `n` pods reports a healthy cluster. */
  method WaitUntilHealthy(n: nat) returns (steps: seq<Step>)
    ensures steps == HealthyWaits(n)
  {
    steps := [];
    for x := 0 to n
      invariant steps == HealthyWaits(x)
    {
      steps := steps + [WaitHealthy(x)];
    }
  }

  /** The second phase of remove_redis_cluster_nodes. */
  method RebalanceAfterReshard(current: nat, obs: RemoveObserved, masterIndex: nat) returns (steps: seq<Step>)
    ensures steps == RebalancePhase(current, obs, masterIndex)
  {
    steps := [];
    if masterIndex > 0 {
      var before := WaitUntilHealthy(current);
      var rebalance := RebalanceRedisCluster(0, obs.rebalanceOut);
      var after := WaitUntilHealthy(current);
      steps := before + rebalance + after;
    }
  }

  /** The third loop of remove_redis_cluster_nodes: delete and flush each removed pod. */
  method DeleteRemovedNodes(current: nat, wanted: nat, obs: RemoveObserved) returns (steps: seq<Step>)
    ensures steps == DeleteLoop(current, obs, RemoveCount(current, wanted))
  {
    var count := RemoveCount(current, wanted);
    steps := [];
    var i := 0;
    while i < count
      invariant 0 <= i <= count
      invariant steps == DeleteLoop(current, obs, i)
    {
      var pod := current - (i + 1);
      var healthy := WaitUntilHealthy(pod);
      var deleted := WaitUntilDeleted(pod, pod);
      var round := [DelNode(pod, obs.myId(pod)), FlushDb(pod)] + healthy + deleted;
      assert round == DeleteRound(obs, pod);
      assert DeleteLoop(current, obs, i + 1) == DeleteLoop(current, obs, i) + round;
      steps := steps + round;
      i := i + 1;
    }
  }

  /** Wait until each of the first `n` pods lists `expected` nodes. */
  method WaitUntilDeleted(n: nat, expected: nat) returns (steps: seq<Step>)
    ensures steps == DeletedWaits(n, expected)
  {
    steps := [];
    for x := 0 to n
      invariant steps == DeletedWaits(x, expected)
    {
      steps := steps + [WaitNodeDeleted(x, expected)];
    }
  }

  /** remove_redis_cluster_nodes: its three phases, stopped by an exception in the first. */
  method RemoveRedisClusterNodes(current: nat, wanted: nat, obs: RemoveObserved)
    returns (steps: seq<Step>, error: Option<Error>)
    ensures (steps, error) == RemoveSteps(current, wanted, obs)
  {
    var p := ReshardRemovedNodes(current, wanted, obs);
    if p.error.Some? {
      return p.steps, p.error;
    }
    var rebalance := RebalanceAfterReshard(current, obs, p.masterIndex);
    var deletes := DeleteRemovedNodes(current, wanted, obs);
    steps := p.steps + rebalance + deletes;
    error := None;
  }

  // ---------------------------------------------------------------------------
  // add_redis_cluster_nodes

  /**
   * What adding pods observes: whether each pod is a new node (is_new_redis_node on
   * its CLUSTER NODES output), what get_first_master_without_replica answers for it,
   * and the output of its k-th rebalance attempt.
   */
  datatype AddObserved = AddObserved(
    isNew: nat -> bool,
    master: nat -> Result<Option<string>, Error>,
    rebalanceOut: nat -> nat -> string)

  /**
   * One iteration of add_redis_cluster_nodes for `pod`: wait until reachable; a pod
   * that is already a cluster member is skipped; otherwise add it, wait for pods
   * 0..pod to be healthy and for the node to be known, then make it a replica of
   * the first master without one, or rebalance when there is none.
   */
  function AddRound(obs: AddObserved, pod: nat): (seq<Step>, Option<Error>) {
    if !obs.isNew(pod) then ([WaitReachable(pod)], None)
    else
      var joined := [WaitReachable(pod), AddNode(pod)] + HealthyWaits(pod + 1) + [WaitNodeKnown(pod)];
      match obs.master(pod)
      case Failure(e) => (joined, Some(e))
      case Success(Some(m)) => (joined + [Replicate(pod, m)], None)
      case Success(None) => (joined + RebalanceSteps(pod, obs.rebalanceOut(pod), 0), None)
  }

  /** The loop of add_redis_cluster_nodes after its first `k` pods. */
  function AddLoop(current: nat, obs: AddObserved, k: nat): (seq<Step>, Option<Error>) {
    if k == 0 then ([], None)
    else
      var prev := AddLoop(current, obs, k - 1);
      if prev.1.Some? then prev
      else
        var round := AddRound(obs, current + k - 1);
        (prev.0 + round.0, round.1)
  }

  function AddCount(current: nat, wanted: nat): nat {
    if wanted > current then wanted - current else 0
  }

  /** Once the loop has raised, later pods are never visited. */
  lemma {:induction false} AddLoopStops(current: nat, obs: AddObserved, k: nat, n: nat)
    requires k <= n && AddLoop(current, obs, k).1.Some?
    ensures AddLoop(current, obs, n) == AddLoop(current, obs, k)
    decreases n - k
  {
    if k < n {
      AddLoopStops(current, obs, k + 1, n);
    }
  }

  /** add_redis_cluster_nodes over pods current..wanted-1. */
  method AddRedisClusterNodes(current: nat, wanted: nat, obs: AddObserved)
    returns (steps: seq<Step>, error: Option<Error>)
    ensures (steps, error) == AddLoop(current, obs, AddCount(current, wanted))
  {
    var count := AddCount(current, wanted);
    steps := [];
    var k := 0;
    while k < count
      invariant 0 <= k <= count
      invariant AddLoop(current, obs, k) == (steps, None)
    {
      var pod := current + k;
      if !obs.isNew(pod) {
        steps := steps + [WaitReachable(pod)];
      } else {
        var healthy := WaitUntilHealthy(pod + 1);
        var joined := [WaitReachable(pod), AddNode(pod)] + healthy + [WaitNodeKnown(pod)];
        var master := obs.master(pod);
        if master.Failure? {
          steps := steps + joined;
          assert AddLoop(current, obs, k + 1) == (steps, Some(master.error));
          AddLoopStops(current, obs, k + 1, count);
          return steps, Some(master.error);
        } else if master.value.Some? {
          steps := steps + (joined + [Replicate(pod, master.value.value)]);
        } else {
          var rebalance := RebalanceRedisCluster(pod, obs.rebalanceOut(pod));
          steps := steps + (joined + rebalance);
        }
      }
      k := k + 1;
    }
    error := None;
  }

  // ---------------------------------------------------------------------------
  // The order of the steps

  /** The kinds of step whose pods the ordering properties follow. */
  datatype Kind = Reshards | Deletions | Rebalances | Reachability | Additions | Replications

  predicate OfKind(s: Step, kind: Kind) {
    match kind
    case Reshards => s.Reshard?
    case Deletions => s.DelNode?
    case Rebalances => s.Rebalance?
    case Reachability => s.WaitReachable?
    case Additions => s.AddNode?
    case Replications => s.Replicate?
  }

  /** The pods of the steps of one kind, in the order the steps are issued. */
  function Pods(steps: seq<Step>, kind: Kind): seq<nat> {
    if steps == [] then []
    else
      var s := steps[|steps| - 1];
      Pods(steps[..|steps| - 1], kind) + (if OfKind(s, kind) then [s.pod] else [])
  }

  lemma {:induction false} PodsAppend(a: seq<Step>, b: seq<Step>, kind: Kind)
    ensures Pods(a + b, kind) == Pods(a, kind) + Pods(b, kind)
  {
    if b == [] {
      assert a + b == a;
    } else {
      assert (a + b)[..|a + b| - 1] == a + b[..|b| - 1];
      PodsAppend(a, b[..|b| - 1], kind);
    }
  }

  lemma {:induction false} PodsNone(steps: seq<Step>, kind: Kind)
    requires forall k :: 0 <= k < |steps| ==> !OfKind(steps[k], kind)
    ensures Pods(steps, kind) == []
  {
    if steps != [] {
      PodsNone(steps[..|steps| - 1], kind);
    }
  }

  /** A single step names its pod exactly when it is of the kind. */
  lemma PodsOne(s: Step, kind: Kind)
    ensures Pods([s], kind) == if OfKind(s, kind) then [s.pod] else []
  {
    assert [s][..0] == [];
  }

  /** Two steps of which the first alone is of the kind. */
  lemma PodsPair(s: Step, t: Step, kind: Kind)
    requires OfKind(s, kind) && !OfKind(t, kind)
    ensures Pods([s, t], kind) == [s.pod]
  {
    assert [s, t][..1] == [s];
    PodsOne(s, kind);
  }

  /** Waiting never counts as a step of any kind followed here. */
  lemma WaitsNone(n: nat, expected: nat, kind: Kind)
    ensures Pods(HealthyWaits(n), kind) == []
    ensures Pods(DeletedWaits(n, expected), kind) == []
  {
    HealthyWaitsNone(n, kind);
    DeletedWaitsNone(n, expected, kind);
  }

  lemma {:induction false} HealthyWaitsNone(n: nat, kind: Kind)
    ensures Pods(HealthyWaits(n), kind) == []
  {
    if n > 0 {
      HealthyWaitsNone(n - 1, kind);
      PodsOne(WaitHealthy(n - 1), kind);
      PodsAppend(HealthyWaits(n - 1), [WaitHealthy(n - 1)], kind);
    }
  }

  lemma {:induction false} DeletedWaitsNone(n: nat, expected: nat, kind: Kind)
    ensures Pods(DeletedWaits(n, expected), kind) == []
  {
    if n > 0 {
      DeletedWaitsNone(n - 1, expected, kind);
      PodsOne(WaitNodeDeleted(n - 1, expected), kind);
      PodsAppend(DeletedWaits(n - 1, expected), [WaitNodeDeleted(n - 1, expected)], kind);
    }
  }

  /** The rebalance loop starts with a rebalance and only rebalances and fixes. */
  lemma {:induction false} RetryStepsKinds(pod: nat, failed: nat -> bool, from: nat)
    requires from < 3
    ensures var r := RetrySteps(pod, failed, from);
      r != [] && r[0] == Rebalance(pod) && forall k :: 0 <= k < |r| ==> r[k] == Rebalance(pod) || r[k] == Fix(pod)
    decreases 3 - from
  {
    if failed(from) && from + 1 < 3 {
      RetryStepsKinds(pod, failed, from + 1);
    }
  }

  /** The rebalance loop rebalances `pod` at least once and does nothing else followed here. */
  lemma RebalanceStepsPods(pod: nat, output: nat -> string, kind: Kind)
    ensures kind != Rebalances ==> Pods(RebalanceSteps(pod, output, 0), kind) == []
    ensures kind == Rebalances ==> Pods(RebalanceSteps(pod, output, 0), kind) != []
  {
    var r := RebalanceSteps(pod, output, 0);
    RetryStepsKinds(pod, Failures(output), 0);
    if kind != Rebalances {
      PodsNone(r, kind);
    } else {
      PodsHasFirst(r, kind);
    }
  }

  lemma {:induction false} PodsHasFirst(steps: seq<Step>, kind: Kind)
    requires steps != [] && OfKind(steps[0], kind)
    ensures Pods(steps, kind) != []
  {
    if |steps| > 1 {
      PodsHasFirst(steps[..|steps| - 1], kind);
    } else {
      assert steps[..0] == [];
    }
  }

  /** The pods, from current-1 downwards, whose slot count is positive. */
  function ReshardedPods(current: nat, obs: RemoveObserved, k: nat): (r: seq<nat>)
    requires k <= current
    ensures forall i :: 0 <= i < |r| ==>
      current - k <= r[i] < current && obs.slots(r[i]).Success? && obs.slots(r[i]).value > 0
    ensures forall i, j :: 0 <= i < j < |r| ==> r[i] > r[j]
  {
    if k == 0 then []
    else
      var pod: nat := current - k;
      ReshardedPods(current, obs, k - 1) + (if obs.slots(pod).Success? && obs.slots(pod).value > 0 then [pod] else [])
  }

  /** Every pod among the last `k` had its slot count read without an exception. */
  predicate SlotsRead(current: nat, obs: RemoveObserved, k: nat) {
    forall pod: nat :: current - k <= pod < current ==> obs.slots(pod).Success?
  }

  /** The j-th pod of `pods` resharded onto the target searched from index j, then awaited. */
  function ReshardSeq(obs: RemoveObserved, pods: seq<nat>): (r: seq<Step>)
    requires forall i :: 0 <= i < |pods| ==> obs.slots(pods[i]).Success?
    ensures |r| == 2 * |pods|
  {
    if pods == [] then []
    else
      var n := |pods| - 1;
      var pod := pods[n];
      ReshardSeq(obs, pods[..n]) +
        [Reshard(pod, obs.myId(pod), obs.target(n), obs.slots(pod).value), WaitReshardComplete(pod)]
  }

  /**
   * The reshard loop raises exactly when some slot count cannot be read; otherwise
   * it reshards the pods with slots, from current-1 downwards, the j-th of them onto
   * the target searched from index j, and the target index ends at their number.
   */
  lemma ReshardLoopIs(current: nat, obs: RemoveObserved, k: nat)
    requires k <= current
    ensures ReshardLoop(current, obs, k).error.None? <==> SlotsRead(current, obs, k)
    ensures SlotsRead(current, obs, k) ==>
      var pods := ReshardedPods(current, obs, k);
      ReshardLoop(current, obs, k) == Progress(ReshardSeq(obs, pods), |pods|, None)
  {
    ReshardLoopFields(current, obs, k);
  }

  /** The reshard loop after `k` pods raised nothing and resharded `ReshardedPods`, in order. */
  predicate ReshardedAll(current: nat, obs: RemoveObserved, k: nat, p: Progress)
    requires k <= current
  {
    var pods := ReshardedPods(current, obs, k);
    p.error.None? && p.steps == ReshardSeq(obs, pods) && p.masterIndex == |pods|
  }

  lemma {:induction false} ReshardLoopFields(current: nat, obs: RemoveObserved, k: nat)
    requires k <= current
    ensures ReshardLoop(current, obs, k).error.None? <==> SlotsRead(current, obs, k)
    ensures SlotsRead(current, obs, k) ==> ReshardedAll(current, obs, k, ReshardLoop(current, obs, k))
  {
    if k > 0 {
      ReshardLoopFields(current, obs, k - 1);
      if !SlotsRead(current, obs, k - 1) {
        ReshardAfterRaise(current, obs, k);
      } else if !obs.slots(current - k).Success? {
        ReshardRaises(current, obs, k);
      } else {
        ReshardReads(current, obs, k);
      }
    }
  }

  /** Once the loop has raised, it raises still. */
  lemma ReshardAfterRaise(current: nat, obs: RemoveObserved, k: nat)
    requires 0 < k <= current
    requires !SlotsRead(current, obs, k - 1) && ReshardLoop(current, obs, k - 1).error.Some?
    ensures !SlotsRead(current, obs, k) && ReshardLoop(current, obs, k).error.Some?
  {
    var p: nat :| current - (k - 1) <= p < current && !obs.slots(p).Success?;
  }

  /** A slot count that cannot be read raises. */
  lemma ReshardRaises(current: nat, obs: RemoveObserved, k: nat)
    requires 0 < k <= current
    requires ReshardLoop(current, obs, k - 1).error.None? && !obs.slots(current - k).Success?
    ensures !SlotsRead(current, obs, k) && ReshardLoop(current, obs, k).error.Some?
  {
  }

  /** A slot count that is read reshards the pod when it is positive, and skips it otherwise. */
  lemma ReshardReads(current: nat, obs: RemoveObserved, k: nat)
    requires 0 < k <= current
    requires SlotsRead(current, obs, k - 1) && ReshardedAll(current, obs, k - 1, ReshardLoop(current, obs, k - 1))
    requires obs.slots(current - k).Success?
    ensures SlotsRead(current, obs, k) && ReshardedAll(current, obs, k, ReshardLoop(current, obs, k))
  {
    var pod: nat := current - k;
    var pods := ReshardedPods(current, obs, k - 1);
    forall q: nat | current - k <= q < current
      ensures obs.slots(q).Success?
    {
      if q != pod {
        assert current - (k - 1) <= q;
      }
    }
    if obs.slots(pod).value > 0 {
      ReshardPositive(current, obs, k);
    } else {
      var prev, next := ReshardLoop(current, obs, k - 1), ReshardLoop(current, obs, k);
      assert next.steps == prev.steps && next.masterIndex == prev.masterIndex && next.error.None?;
      assert ReshardedPods(current, obs, k) == pods;
    }
  }

  lemma ReshardPositive(current: nat, obs: RemoveObserved, k: nat)
    requires 0 < k <= current
    requires SlotsRead(current, obs, k - 1) && ReshardedAll(current, obs, k - 1, ReshardLoop(current, obs, k - 1))
    requires obs.slots(current - k).Success? && obs.slots(current - k).value > 0
    ensures ReshardedAll(current, obs, k, ReshardLoop(current, obs, k))
  {
    var pod: nat := current - k;
    var pods := ReshardedPods(current, obs, k - 1);
    ReshardLoopSnoc(current, obs, k);
    ReshardedPodsSnoc(current, obs, k);
    ReshardSeqSnoc(obs, pods, pod);
  }

  lemma ReshardLoopSnoc(current: nat, obs: RemoveObserved, k: nat)
    requires 0 < k <= current && ReshardLoop(current, obs, k - 1).error.None?
    requires obs.slots(current - k).Success? && obs.slots(current - k).value > 0
    ensures var pod: nat, prev, next := current - k, ReshardLoop(current, obs, k - 1), ReshardLoop(current, obs, k);
      next.steps == prev.steps + [Reshard(pod, obs.myId(pod), obs.target(prev.masterIndex), obs.slots(pod).value),
                                  WaitReshardComplete(pod)] &&
      next.masterIndex == prev.masterIndex + 1 && next.error.None?
  {
  }

  lemma ReshardedPodsSnoc(current: nat, obs: RemoveObserved, k: nat)
    requires 0 < k <= current && obs.slots(current - k).Success? && obs.slots(current - k).value > 0
    ensures ReshardedPods(current, obs, k) == ReshardedPods(current, obs, k - 1) + [current - k]
  {
  }

  lemma ReshardSeqSnoc(obs: RemoveObserved, pods: seq<nat>, pod: nat)
    requires forall i :: 0 <= i < |pods| ==> obs.slots(pods[i]).Success?
    requires obs.slots(pod).Success?
    ensures forall i :: 0 <= i < |pods + [pod]| ==> obs.slots((pods + [pod])[i]).Success?
    ensures ReshardSeq(obs, pods + [pod]) ==
      ReshardSeq(obs, pods) + [Reshard(pod, obs.myId(pod), obs.target(|pods|), obs.slots(pod).value), WaitReshardComplete(pod)]
  {
    assert (pods + [pod])[..|pods|] == pods;
  }

  /** The reshard steps name exactly the resharded pods, and nothing else followed here. */
  lemma {:induction false} ReshardSeqPods(obs: RemoveObserved, pods: seq<nat>, kind: Kind)
    requires forall i :: 0 <= i < |pods| ==> obs.slots(pods[i]).Success?
    ensures Pods(ReshardSeq(obs, pods), kind) == if kind == Reshards then pods else []
  {
    if pods != [] {
      var n := |pods| - 1;
      var pod := pods[n];
      var prefix := pods[..n];
      var pair := [Reshard(pod, obs.myId(pod), obs.target(n), obs.slots(pod).value), WaitReshardComplete(pod)];
      assert ReshardSeq(obs, pods) == ReshardSeq(obs, prefix) + pair;
      assert Pods(ReshardSeq(obs, prefix), kind) == if kind == Reshards then prefix else [] by {
        ReshardSeqPods(obs, prefix, kind);
      }
      assert Pods(pair, kind) == if kind == Reshards then [pod] else [] by {
        ReshardPairPods(pair[0], kind);
      }
      PodsAppend(ReshardSeq(obs, prefix), pair, kind);
      if kind == Reshards {
        assert prefix + [pod] == pods;
      } else {
        var none: seq<nat> := [];
        assert none + none == none;
      }
    }
  }

  lemma ReshardPairPods(reshard: Step, kind: Kind)
    requires reshard.Reshard?
    ensures Pods([reshard, WaitReshardComplete(reshard.pod)], kind) == if kind == Reshards then [reshard.pod] else []
  {
    var pair := [reshard, WaitReshardComplete(reshard.pod)];
    assert pair == [reshard] + [WaitReshardComplete(reshard.pod)];
    PodsOne(reshard, kind);
    PodsOne(WaitReshardComplete(reshard.pod), kind);
    PodsAppend([reshard], [WaitReshardComplete(reshard.pod)], kind);
  }

  /** Pods current-1, current-2, …, current-k. */
  function Down(current: nat, k: nat): (r: seq<nat>)
    requires k <= current
    ensures |r| == k
  {
    if k == 0 then [] else Down(current, k - 1) + [current - k]
  }

  /** The `i`th pod of `Down` is current-1-i: the pods descend one by one. */
  lemma {:induction false} DownIndex(current: nat, k: nat, i: nat)
    requires i < k <= current
    ensures Down(current, k)[i] == current - 1 - i
  {
    if i < k - 1 {
      DownIndex(current, k - 1, i);
    }
  }

  /** One deletion round deletes its pod and does nothing else followed here. */
  lemma DeleteRoundPods(obs: RemoveObserved, pod: nat, kind: Kind)
    ensures Pods(DeleteRound(obs, pod), kind) == if kind == Deletions then [pod] else []
  {
    DeleteHeadPods(pod, obs.myId(pod), kind);
    WaitsNone(pod, pod, kind);
    PodsAround([DelNode(pod, obs.myId(pod)), FlushDb(pod)], HealthyWaits(pod), DeletedWaits(pod, pod), kind);
  }

  lemma DeleteHeadPods(pod: nat, id: string, kind: Kind)
    ensures Pods([DelNode(pod, id), FlushDb(pod)], kind) == if kind == Deletions then [pod] else []
  {
    if kind == Deletions {
      PodsPair(DelNode(pod, id), FlushDb(pod), kind);
    } else {
      PodsNone([DelNode(pod, id), FlushDb(pod)], kind);
    }
  }

  /** The first `k` deletion rounds delete pods current-1 downwards, and do nothing else followed here. */
  predicate DeletesDownwards(current: nat, obs: RemoveObserved, k: nat, kind: Kind)
    requires k <= current
  {
    Pods(DeleteLoop(current, obs, k), kind) == if kind == Deletions then Down(current, k) else []
  }

  lemma DeleteLoopPods(current: nat, obs: RemoveObserved, k: nat, kind: Kind)
    requires k <= current
    ensures DeletesDownwards(current, obs, k, kind)
  {
    forall pod: nat | current - k <= pod < current
      ensures Pods(DeleteRounds(obs)(pod), kind) == DeleteNames(kind)(pod)
    {
      DeleteRoundPods(obs, pod, kind);
    }
    ConcatDownPods(current, DeleteRounds(obs), DeleteNames(kind), k, kind);
    if kind == Deletions {
      DownIs(current, k);
    } else {
      NoneDown(current, k, kind);
    }
  }

  /** What a deletion round names, by kind. */
  function DeleteNames(kind: Kind): nat -> seq<nat> {
    (pod: nat) => if kind == Deletions then [pod] else []
  }

  /** Rounds that each name their pods name them all, round after round. */
  lemma {:induction false} ConcatDownPods(current: nat, rounds: nat -> seq<Step>, names: nat -> seq<nat>, k: nat, kind: Kind)
    requires k <= current
    requires forall pod: nat :: current - k <= pod < current ==> Pods(rounds(pod), kind) == names(pod)
    ensures Pods(ConcatDown(current, rounds, k), kind) == ConcatDown(current, names, k)
  {
    if k > 0 {
      ConcatDownPods(current, rounds, names, k - 1, kind);
      PodsAppend(ConcatDown(current, rounds, k - 1), rounds(current - k), kind);
    }
  }

  lemma {:induction false} DownIs(current: nat, k: nat)
    requires k <= current
    ensures ConcatDown(current, DeleteNames(Deletions), k) == Down(current, k)
  {
    if k > 0 {
      DownIs(current, k - 1);
    }
  }

  lemma {:induction false} NoneDown(current: nat, k: nat, kind: Kind)
    requires k <= current && kind != Deletions
    ensures ConcatDown(current, DeleteNames(kind), k) == []
  {
    if k > 0 {
      NoneDown(current, k - 1, kind);
    }
  }

  /** The middle phase rebalances if and only if something was resharded, and does nothing else followed here. */
  lemma RebalancePhasePods(current: nat, obs: RemoveObserved, masterIndex: nat, kind: Kind)
    ensures kind != Rebalances ==> Pods(RebalancePhase(current, obs, masterIndex), kind) == []
    ensures kind == Rebalances ==> (Pods(RebalancePhase(current, obs, masterIndex), kind) != [] <==> masterIndex > 0)
  {
    if masterIndex > 0 {
      var waits := HealthyWaits(current);
      var reb := RebalanceSteps(0, obs.rebalanceOut, 0);
      WaitsNone(current, 0, kind);
      RebalanceStepsPods(0, obs.rebalanceOut, kind);
      PodsAppend(waits, reb, kind);
      PodsAppend(waits + reb, waits, kind);
    }
  }

  /**
   * A removal that raises nothing reshards exactly the pods that held slots and
   * deletes pods current-1 down to `wanted`, both in descending order, and it
   * rebalances if and only if some pod was resharded.
   */
  lemma RemoveOrder(current: nat, wanted: nat, obs: RemoveObserved)
    requires RemoveSteps(current, wanted, obs).1.None?
    ensures var steps := RemoveSteps(current, wanted, obs).0;
      var count := RemoveCount(current, wanted);
      Pods(steps, Deletions) == Down(current, count) &&
      Pods(steps, Reshards) == ReshardedPods(current, obs, count) &&
      (Pods(steps, Rebalances) != [] <==> ReshardedPods(current, obs, count) != [])
  {
    var count := RemoveCount(current, wanted);
    var pods := ReshardedPods(current, obs, count);
    RemoveStepsArePhases(current, wanted, obs);
    RemoveDeletes(obs, pods, current, count);
    RemoveReshards(obs, pods, current, count);
    RemoveRebalances(obs, pods, current, count);
  }

  /** The three phases of a removal that raises nothing, for the resharded `pods`. */
  function Phases(obs: RemoveObserved, pods: seq<nat>, current: nat, count: nat): seq<Step>
    requires count <= current
    requires forall i :: 0 <= i < |pods| ==> obs.slots(pods[i]).Success?
  {
    ReshardSeq(obs, pods) + RebalancePhase(current, obs, |pods|) + DeleteLoop(current, obs, count)
  }

  lemma RemoveStepsArePhases(current: nat, wanted: nat, obs: RemoveObserved)
    requires RemoveSteps(current, wanted, obs).1.None?
    ensures var count := RemoveCount(current, wanted);
      RemoveSteps(current, wanted, obs).0 == Phases(obs, ReshardedPods(current, obs, count), current, count)
  {
    ReshardLoopIs(current, obs, RemoveCount(current, wanted));
  }

  lemma RemoveDeletes(obs: RemoveObserved, pods: seq<nat>, current: nat, count: nat)
    requires count <= current
    requires forall i :: 0 <= i < |pods| ==> obs.slots(pods[i]).Success?
    ensures Pods(Phases(obs, pods, current, count), Deletions) == Down(current, count)
  {
    RemovePhasesPods(obs, pods, current, count, Deletions);
    RebalancePhasePods(current, obs, |pods|, Deletions);
    assert [] + [] + Down(current, count) == Down(current, count);
  }

  lemma RemoveReshards(obs: RemoveObserved, pods: seq<nat>, current: nat, count: nat)
    requires count <= current
    requires forall i :: 0 <= i < |pods| ==> obs.slots(pods[i]).Success?
    ensures Pods(Phases(obs, pods, current, count), Reshards) == pods
  {
    RemovePhasesPods(obs, pods, current, count, Reshards);
    RebalancePhasePods(current, obs, |pods|, Reshards);
    assert pods + [] + [] == pods;
  }

  lemma RemoveRebalances(obs: RemoveObserved, pods: seq<nat>, current: nat, count: nat)
    requires count <= current
    requires forall i :: 0 <= i < |pods| ==> obs.slots(pods[i]).Success?
    ensures Pods(Phases(obs, pods, current, count), Rebalances) != [] <==> pods != []
  {
    RemovePhasesPods(obs, pods, current, count, Rebalances);
    RebalancePhasePods(current, obs, |pods|, Rebalances);
    var mid := Pods(RebalancePhase(current, obs, |pods|), Rebalances);
    assert [] + mid + [] == mid;
  }

  /** The pods of the three phases of a removal, by kind. */
  lemma RemovePhasesPods(obs: RemoveObserved, pods: seq<nat>, current: nat, count: nat, kind: Kind)
    requires count <= current
    requires forall i :: 0 <= i < |pods| ==> obs.slots(pods[i]).Success?
    ensures Pods(Phases(obs, pods, current, count), kind) ==
        (if kind == Reshards then pods else []) +
        Pods(RebalancePhase(current, obs, |pods|), kind) +
        (if kind == Deletions then Down(current, count) else [])
  {
    var first := ReshardSeq(obs, pods);
    var mid := RebalancePhase(current, obs, |pods|);
    var del := DeleteLoop(current, obs, count);
    ReshardSeqPods(obs, pods, kind);
    DeleteLoopPods(current, obs, count, kind);
    PodsAppend(first, mid, kind);
    PodsAppend(first + mid, del, kind);
  }

  /** Pods current, current+1, …, current+k-1. */
  function Up(current: nat, k: nat): (r: seq<nat>)
    ensures |r| == k
  {
    if k == 0 then [] else Up(current, k - 1) + [current + k - 1]
  }

  lemma {:induction false} UpIs(current: nat, k: nat)
    ensures forall i :: 0 <= i < k ==> Up(current, k)[i] == current + i
  {
    if k > 0 {
      UpIs(current, k - 1);
      assert Up(current, k) == Up(current, k - 1) + [current + k - 1];
    }
  }

  predicate Ascending(r: seq<nat>) {
    forall i, j :: 0 <= i < j < |r| ==> r[i] < r[j]
  }

  /** The pods among current..current+k-1 that are new nodes, ascending. */
  function NewPods(current: nat, obs: AddObserved, k: nat): seq<nat> {
    if k == 0 then [] else NewPods(current, obs, k - 1) + (if obs.isNew(current + k - 1) then [current + k - 1] else [])
  }

  lemma {:induction false} NewPodsAscending(current: nat, obs: AddObserved, k: nat)
    ensures var r := NewPods(current, obs, k);
      (forall i :: 0 <= i < |r| ==> current <= r[i] < current + k && obs.isNew(r[i])) && Ascending(r)
  {
    if k > 0 {
      NewPodsAscending(current, obs, k - 1);
      var prev := NewPods(current, obs, k - 1);
      var pod := current + k - 1;
      var r := NewPods(current, obs, k);
      if obs.isNew(pod) {
        assert r == prev + [pod];
        assert forall i :: 0 <= i < |prev| ==> r[i] == prev[i];
      } else {
        assert r == prev;
      }
    }
  }

  /** The new pods for which a master without a replica was found, ascending. */
  function ReplicaPods(current: nat, obs: AddObserved, k: nat): seq<nat> {
    if k == 0 then []
    else
      var pod := current + k - 1;
      ReplicaPods(current, obs, k - 1) +
        (if obs.isNew(pod) && obs.master(pod).Success? && obs.master(pod).value.Some? then [pod] else [])
  }

  lemma {:induction false} ReplicaPodsAscending(current: nat, obs: AddObserved, k: nat)
    ensures var r := ReplicaPods(current, obs, k);
      (forall i :: 0 <= i < |r| ==>
        current <= r[i] < current + k && obs.isNew(r[i]) && obs.master(r[i]).Success? && obs.master(r[i]).value.Some?) &&
      Ascending(r)
  {
    if k > 0 {
      ReplicaPodsAscending(current, obs, k - 1);
      var prev := ReplicaPods(current, obs, k - 1);
      var pod := current + k - 1;
      var r := ReplicaPods(current, obs, k);
      if obs.isNew(pod) && obs.master(pod).Success? && obs.master(pod).value.Some? {
        assert r == prev + [pod];
        assert forall i :: 0 <= i < |prev| ==> r[i] == prev[i];
      } else {
        assert r == prev;
      }
    }
  }

  /** Every new pod among the first `k` got an answer from its master lookup. */
  predicate LookupsAnswered(current: nat, obs: AddObserved, k: nat) {
    forall pod :: current <= pod < current + k && obs.isNew(pod) ==> obs.master(pod).Success?
  }

  /** What one round of the add loop names, by kind, when its lookup answers. */
  function RoundPods(obs: AddObserved, pod: nat, kind: Kind): seq<nat> {
    match kind
    case Reachability => [pod]
    case Additions => if obs.isNew(pod) then [pod] else []
    case Replications => if obs.isNew(pod) && obs.master(pod).Success? && obs.master(pod).value.Some? then [pod] else []
    case _ => []
  }

  /** Joining the cluster reaches and adds the pod, and does nothing else followed here. */
  lemma JoinPods(pod: nat, kind: Kind)
    ensures var joined := [WaitReachable(pod), AddNode(pod)] + HealthyWaits(pod + 1) + [WaitNodeKnown(pod)];
      Pods(joined, kind) == if kind == Reachability || kind == Additions then [pod] else []
  {
    WaitsNone(pod + 1, 0, kind);
    JoinAroundPods(pod, HealthyWaits(pod + 1), kind);
  }

  /** Steps that name no pod of the kind, between the join and the wait for the node to be known. */
  lemma JoinAroundPods(pod: nat, waits: seq<Step>, kind: Kind)
    requires Pods(waits, kind) == []
    ensures Pods([WaitReachable(pod), AddNode(pod)] + waits + [WaitNodeKnown(pod)], kind) ==
      if kind == Reachability || kind == Additions then [pod] else []
  {
    JoinHeadPods(pod, kind);
    assert Pods([WaitNodeKnown(pod)], kind) == [] by {
      PodsOne(WaitNodeKnown(pod), kind);
    }
    PodsAround([WaitReachable(pod), AddNode(pod)], waits, [WaitNodeKnown(pod)], kind);
  }

  /** Steps of other kinds around `a` leave its pods as they are. */
  lemma PodsAround(a: seq<Step>, b: seq<Step>, c: seq<Step>, kind: Kind)
    requires Pods(b, kind) == [] && Pods(c, kind) == []
    ensures Pods(a + b + c, kind) == Pods(a, kind)
  {
    PodsAppend(a, b, kind);
    PodsAppend(a + b, c, kind);
    assert Pods(a, kind) + [] + [] == Pods(a, kind);
  }

  lemma JoinHeadPods(pod: nat, kind: Kind)
    ensures Pods([WaitReachable(pod), AddNode(pod)], kind) ==
      if kind == Reachability || kind == Additions then [pod] else []
  {
    assert [WaitReachable(pod), AddNode(pod)] == [WaitReachable(pod)] + [AddNode(pod)];
    PodsOne(WaitReachable(pod), kind);
    PodsOne(AddNode(pod), kind);
    PodsAppend([WaitReachable(pod)], [AddNode(pod)], kind);
  }

  /** The pods one round names, by kind. */
  lemma AddRoundPods(obs: AddObserved, pod: nat, kind: Kind)
    requires kind == Reachability || kind == Additions || kind == Replications
    requires AddRound(obs, pod).1.None?
    ensures obs.isNew(pod) ==> obs.master(pod).Success?
    ensures Pods(AddRound(obs, pod).0, kind) == RoundPods(obs, pod, kind)
  {
    if !obs.isNew(pod) {
      PodsOne(WaitReachable(pod), kind);
    } else {
      WaitsNone(pod + 1, 0, kind);
      var m := obs.master(pod).value;
      if m.Some? {
        JoinThenPods(pod, HealthyWaits(pod + 1), [Replicate(pod, m.value)], kind);
        PodsOne(Replicate(pod, m.value), kind);
      } else {
        JoinThenPods(pod, HealthyWaits(pod + 1), RebalanceSteps(pod, obs.rebalanceOut(pod), 0), kind);
        RebalanceStepsPods(pod, obs.rebalanceOut(pod), kind);
      }
    }
  }

  /** Joining the cluster and then `tail`. */
  lemma JoinThenPods(pod: nat, waits: seq<Step>, tail: seq<Step>, kind: Kind)
    requires Pods(waits, kind) == []
    ensures Pods([WaitReachable(pod), AddNode(pod)] + waits + [WaitNodeKnown(pod)] + tail, kind) ==
      (if kind == Reachability || kind == Additions then [pod] else []) + Pods(tail, kind)
  {
    JoinAroundPods(pod, waits, kind);
    PodsAppend([WaitReachable(pod), AddNode(pod)] + waits + [WaitNodeKnown(pod)], tail, kind);
  }

  /** The add loop raises exactly when a new pod's master lookup raises. */
  lemma {:induction false} AddLoopRaises(current: nat, obs: AddObserved, k: nat)
    ensures AddLoop(current, obs, k).1.None? <==> LookupsAnswered(current, obs, k)
  {
    if k > 0 {
      AddLoopRaises(current, obs, k - 1);
      var pod := current + k - 1;
      if !LookupsAnswered(current, obs, k - 1) {
        var p :| current <= p < current + k - 1 && obs.isNew(p) && !obs.master(p).Success?;
        assert !LookupsAnswered(current, obs, k);
      } else if !obs.isNew(pod) || obs.master(pod).Success? {
        assert LookupsAnswered(current, obs, k);
      } else {
        assert !LookupsAnswered(current, obs, k);
      }
    }
  }

  /** The first `k` rounds, one after the other, starting at `current`. */
  function Concat<T>(current: nat, rounds: nat -> seq<T>, k: nat): seq<T> {
    if k == 0 then [] else Concat(current, rounds, k - 1) + rounds(current + k - 1)
  }

  /** The steps of a round of the add loop, and what it names by kind. */
  function RoundSteps(obs: AddObserved): nat -> seq<Step> {
    (pod: nat) => AddRound(obs, pod).0
  }

  function RoundNames(obs: AddObserved, kind: Kind): nat -> seq<nat> {
    (pod: nat) => RoundPods(obs, pod, kind)
  }

  /** The pods the first `k` rounds of the add loop name, by kind, round after round. */
  function AddedPods(current: nat, obs: AddObserved, k: nat, kind: Kind): seq<nat> {
    Concat(current, RoundNames(obs, kind), k)
  }

  /** Round after round, the add loop visits `Up`, adds `NewPods` and replicates `ReplicaPods`. */
  lemma {:induction false} AddedPodsAre(current: nat, obs: AddObserved, k: nat)
    ensures AddedPods(current, obs, k, Reachability) == Up(current, k)
    ensures AddedPods(current, obs, k, Additions) == NewPods(current, obs, k)
    ensures AddedPods(current, obs, k, Replications) == ReplicaPods(current, obs, k)
  {
    if k > 0 {
      AddedPodsAre(current, obs, k - 1);
    }
  }

  /** The steps of the first `k` rounds of the add loop, when none of them raises. */
  function AddRounds(current: nat, obs: AddObserved, k: nat): seq<Step> {
    Concat(current, RoundSteps(obs), k)
  }

  /** Without an exception, the add loop is its rounds one after the other. */
  lemma {:induction false} AddLoopRounds(current: nat, obs: AddObserved, k: nat)
    requires LookupsAnswered(current, obs, k)
    ensures AddLoop(current, obs, k) == (AddRounds(current, obs, k), None)
  {
    if k > 0 {
      var pod := current + k - 1;
      assert LookupsAnswered(current, obs, k - 1);
      assert obs.isNew(pod) ==> obs.master(pod).Success?;
      AddLoopRounds(current, obs, k - 1);
      RoundAnswers(obs, pod);
      AddRoundsUnfold(current, obs, k);
    }
  }

  lemma RoundAnswers(obs: AddObserved, pod: nat)
    requires obs.isNew(pod) ==> obs.master(pod).Success?
    ensures AddRound(obs, pod).1.None?
  {
  }

  lemma AddRoundsUnfold(current: nat, obs: AddObserved, k: nat)
    requires k > 0
    ensures AddRounds(current, obs, k) == AddRounds(current, obs, k - 1) + AddRound(obs, current + k - 1).0
  {
  }

  /** Rounds that each name what `names` gives name, put together, all of it in order. */
  lemma {:induction false} ConcatPods(current: nat, rounds: nat -> seq<Step>, names: nat -> seq<nat>, k: nat, kind: Kind)
    requires forall pod :: current <= pod < current + k ==> Pods(rounds(pod), kind) == names(pod)
    ensures Pods(Concat(current, rounds, k), kind) == Concat(current, names, k)
  {
    if k > 0 {
      ConcatPods(current, rounds, names, k - 1, kind);
      PodsAppend(Concat(current, rounds, k - 1), rounds(current + k - 1), kind);
    }
  }

  /** The first `k` rounds of the add loop name, by kind, the pods of `AddedPods`. */
  lemma AddRoundsKind(current: nat, obs: AddObserved, k: nat, kind: Kind)
    requires kind == Reachability || kind == Additions || kind == Replications
    requires LookupsAnswered(current, obs, k)
    ensures Pods(AddRounds(current, obs, k), kind) == AddedPods(current, obs, k, kind)
  {
    forall pod | current <= pod < current + k
      ensures Pods(RoundSteps(obs)(pod), kind) == RoundNames(obs, kind)(pod)
    {
      AddRoundPods(obs, pod, kind);
    }
    ConcatPods(current, RoundSteps(obs), RoundNames(obs, kind), k, kind);
  }

  /**
   * The add loop raises exactly when a new pod's master lookup raises; otherwise it
   * visits every pod in ascending order, adds exactly the new ones, and makes
   * replicas of exactly the new ones that found a master without a replica.
   */
  lemma AddLoopPods(current: nat, obs: AddObserved, k: nat)
    ensures AddLoop(current, obs, k).1.None? <==> LookupsAnswered(current, obs, k)
    ensures LookupsAnswered(current, obs, k) ==>
      var steps := AddLoop(current, obs, k).0;
      Pods(steps, Reachability) == Up(current, k) &&
      Pods(steps, Additions) == NewPods(current, obs, k) &&
      Pods(steps, Replications) == ReplicaPods(current, obs, k)
  {
    AddLoopRaises(current, obs, k);
    if LookupsAnswered(current, obs, k) {
      AddLoopRounds(current, obs, k);
      AddRoundsKind(current, obs, k, Reachability);
      AddRoundsKind(current, obs, k, Additions);
      AddRoundsKind(current, obs, k, Replications);
      AddedPodsAre(current, obs, k);
    }
  }
}
