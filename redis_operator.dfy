/**
 * The kopf handlers of the Redis cluster operator: the validators run before
 * anything is created, the names of the child resources, and the order in which
 * the field handlers call the Kubernetes API and the redis-cli layer.
 *
 * No API call is made: what a call returns is an input, and every call a handler
 * makes is recorded, in order, as an `Action`. The redis-cli coroutines are the
 * methods of `RedisCli`; a handler records the steps each one took as one action.
 */
module RedisOperator {
  import opened Wrappers
  import opened Text
  import opened RedisCli

  /** How a handler ends with an exception. */
  datatype Raised =
    | PermanentError(message: string)   // kopf.PermanentError: not retried
    | TemporaryError(message: string)   // kopf.TemporaryError: retried later
    | CliError(error: Error)            // an exception from the redis-cli layer

  /** One Kubernetes API call, wait, or redis-cli coroutine a handler runs. */
  datatype Action =
    | ReadSecret(secret: string)
    | CreateConfigMap(config: string)
    | CreateService(service: string, sts: string)
    | CreateStatefulSet(sts: string, service: string, secret: string, config: string,
                        pvc: string, acl: string, maxmemory: string)
    | PatchReplicas(sts: string, replicas: int)
    | PatchContainer(sts: string, container: string, key: string, value: string)
    | DeletePod(pod: nat)
    | WaitPodReady(pod: nat)
    | WaitPodDeleted(pod: nat)
    | ReadStorageClass(storageClass: string)
    | PatchPvc(pvc: string, storage: string)
    | WaitPvcCapacity(pvc: string, storage: string)
    | Annotate(key: string, value: string)
    | RunCli(steps: seq<Step>)

  /** The calls a handler made, and the exception it ended with, if any. */
  datatype Outcome = Outcome(actions: seq<Action>, error: Option<Raised>)

  /** The record create_fn returns, which kopf stores under status.create_fn. */
  datatype Status = Status(stsName: string, srvName: string, cntrName: string, pvcName: string, cfgName: string)

  /** pod_name and pod_host, which come from a module outside this model. */
  datatype Naming = Naming(podName: (string, nat) -> string, podHost: (string, string) -> string)

  // ---------------------------------------------------------------------------
  // Validators

  const MinReplicas := 6
  const MaxHostLength := 46

  /** validate_replicas: fewer than six replicas is refused for good. */
  function ValidateReplicas(replicas: int): (r: Option<Raised>)
    ensures r.None? <==> replicas >= MinReplicas
    ensures r.Some? ==> r.value.PermanentError? && EndsWith(r.value.message, IntToString(replicas) + ".")
  {
    if replicas < MinReplicas then
      var message := "Replicas must be at least 6. Got " + IntToString(replicas) + ".";
      assert message[|message| - |IntToString(replicas) + "."|..] == IntToString(replicas) + ".";
      Some(PermanentError(message))
    else None
  }

  /** validate_host: the host of `name` under the service may have at most 46 characters. */
  function ValidateHost(naming: Naming, name: string, service: string): (r: Option<Raised>)
    ensures r.None? <==> |naming.podHost(name, service)| <= MaxHostLength
    ensures r.Some? ==> r.value.PermanentError?
  {
    var count := |naming.podHost(name, service)|;
    if count > MaxHostLength then
      Some(PermanentError("Host name must be 46 chars or less. Got " + NatToString(count) + "."))
    else None
  }

  /** The keys the Redis secret must hold, in the order they are checked. */
  const RequiredKeys: seq<string> := [
    "REDIS_CLI_PASSWORD",
    "REDIS_CLI_USERNAME",
    "REDIS_METRICS_PASSWORD",
    "REDIS_METRICS_USERNAME",
    "REDIS_OPENVSX_PASSWORD",
    "REDIS_OPENVSX_USERNAME",
    "REDIS_REPLICA_PASSWORD",
    "REDIS_REPLICA_USERNAME"
  ]

  /** The position of the first of `keys` that is not present. */
  function FirstMissing(keys: seq<string>, present: set<string>): (r: Option<nat>)
    ensures r.None? <==> forall i :: 0 <= i < |keys| ==> keys[i] in present
    ensures r.Some? ==> r.value < |keys| && keys[r.value] !in present
    ensures r.Some? ==> forall i :: 0 <= i < r.value ==> keys[i] in present
  {
    if keys == [] then None
    else if keys[0] !in present then Some(0)
    else match FirstMissing(keys[1..], present)
      case None => None
      case Some(i) => Some(i + 1)
  }

  /**
   * What validate_secret raises. `read` is the set of keys of the secret's data, or
   * None when reading the secret raised an ApiException.
   */
  function SecretVerdict(secret: string, read: Option<set<string>>): Option<Raised> {
    if read.None? then Some(TemporaryError("Failed to read secret " + secret + "."))
    else match FirstMissing(RequiredKeys, read.value)
      case None => None
      case Some(i) => Some(PermanentError("Secret " + secret + " must have " + RequiredKeys[i] + "."))
  }

  /** validate_secret: its loop over the required keys. */
  method ValidateSecret(secret: string, read: Option<set<string>>) returns (r: Option<Raised>)
    ensures r == SecretVerdict(secret, read)
  {
    if read.None? {
      return Some(TemporaryError("Failed to read secret " + secret + "."));
    }
    var keys := RequiredKeys;
    for i := 0 to |keys|
      invariant forall j :: 0 <= j < i ==> keys[j] in read.value
    {
      if keys[i] !in read.value {
        assert FirstMissing(keys, read.value) == Some(i);
        return Some(PermanentError("Secret " + secret + " must have " + keys[i] + "."));
      }
    }
    return None;
  }

  /**
   * A secret passes exactly when it could be read and holds all eight keys; a
   * missing key is refused for good, naming the first missing one in list order.
   */
  lemma SecretVerdictIff(secret: string, read: Option<set<string>>)
    ensures SecretVerdict(secret, read).None? <==>
      read.Some? && forall i :: 0 <= i < |RequiredKeys| ==> RequiredKeys[i] in read.value
    ensures read.None? ==> SecretVerdict(secret, read).value.TemporaryError?
    ensures read.Some? && SecretVerdict(secret, read).Some? ==>
      SecretVerdict(secret, read).value.PermanentError? &&
      exists i :: 0 <= i < |RequiredKeys| && RequiredKeys[i] !in read.value &&
        SecretVerdict(secret, read).value.message == "Secret " + secret + " must have " + RequiredKeys[i] + "." &&
        forall j :: 0 <= j < i ==> RequiredKeys[j] in read.value
  {
    if read.Some? {
      var m := FirstMissing(RequiredKeys, read.value);
      if m.Some? {
        assert RequiredKeys[m.value] !in read.value;
      }
    }
  }

  // ---------------------------------------------------------------------------
  // create_fn

  /** The names create_fn derives for one cluster. */
  datatype ChildNames = ChildNames(base: string, config: string, pvc: string, service: string, acl: string, secret: string)

  function Names(name: string, environment: string): ChildNames {
    var base := name + "-" + environment;
    ChildNames(base, base + "-config", base + "-data", base + "-service", base + "-acl", "redis-secret-" + environment)
  }

  /**
   * The four child names of a cluster share its base and never collide, and the
   * secret depends on the environment alone.
   */
  lemma NamesDistinct(name: string, environment: string, other: string)
    ensures var n := Names(name, environment);
      StartsWith(n.config, n.base + "-") && StartsWith(n.pvc, n.base + "-") &&
      StartsWith(n.service, n.base + "-") && StartsWith(n.acl, n.base + "-")
    ensures var n := Names(name, environment);
      n.config != n.pvc && n.config != n.service && n.config != n.acl &&
      n.pvc != n.service && n.pvc != n.acl && n.service != n.acl
    ensures Names(name, environment).secret == Names(other, environment).secret
  {
    var n := Names(name, environment);
    var p := n.base + "-";
    assert n.config == p + "config" && n.pvc == p + "data" && n.service == p + "service" && n.acl == p + "acl";
    assert n.config[..|p|] == p && n.pvc[..|p|] == p && n.service[..|p|] == p && n.acl[..|p|] == p;
    SuffixesDiffer(p, "config", "data");
    SuffixesDiffer(p, "config", "service");
    SuffixesDiffer(p, "config", "acl");
    SuffixesDiffer(p, "data", "service");
    SuffixesDiffer(p, "data", "acl");
    SuffixesDiffer(p, "service", "acl");
  }

  lemma SuffixesDiffer(p: string, a: string, b: string)
    requires a != b
    ensures p + a != p + b
  {
    assert (p + a)[|p|..] == a;
    assert (p + b)[|p|..] == b;
  }

  /** What the API returns for the created StatefulSet: its name and first container's name. */
  datatype Created = Created(stsName: string, containerName: string)

  /** The calls create_fn makes, and the status it returns or the exception it raises. */
  datatype CreateResult = CreateResult(actions: seq<Action>, status: Result<Status, Raised>)

  /**
   * create_fn for a cluster `name` labelled with `environment`: validate the replicas,
   * the host length and the secret, in that order, then create the ConfigMap, the
   * Service and the StatefulSet, and return the names of the children.
   */
  function CreateFn(name: string, environment: string, replicas: int, maxmemory: string, naming: Naming,
                    secretRead: Option<set<string>>, created: Created): (r: CreateResult)
    ensures r.status.Success? <==>
      replicas >= MinReplicas &&
      |naming.podHost(Names(name, environment).base, Names(name, environment).service)| <= MaxHostLength &&
      SecretVerdict(Names(name, environment).secret, secretRead).None?
    ensures r.status.Failure? ==> forall i :: 0 <= i < |r.actions| ==> r.actions[i].ReadSecret?
    ensures replicas < MinReplicas ==> r.actions == [] && r.status == Failure(ValidateReplicas(replicas).value)
  {
    var names := Names(name, environment);
    var badReplicas := ValidateReplicas(replicas);
    if badReplicas.Some? then CreateResult([], Failure(badReplicas.value))
    else
      var badHost := ValidateHost(naming, names.base, names.service);
      if badHost.Some? then CreateResult([], Failure(badHost.value))
      else
        var read := [ReadSecret(names.secret)];
        var badSecret := SecretVerdict(names.secret, secretRead);
        if badSecret.Some? then CreateResult(read, Failure(badSecret.value))
        else
          var creates := [
            CreateConfigMap(names.config),
            CreateService(names.service, names.base),
            CreateStatefulSet(names.base, names.service, names.secret, names.config, names.pvc, names.acl, maxmemory)];
          CreateResult(read + creates,
            Success(Status(created.stsName, names.service, created.containerName, names.pvc, names.config)))
  }

  /**
   * A created cluster's status records the derived names; the secret is read first,
   * then the ConfigMap, the Service and the StatefulSet are created, in that order.
   */
  lemma CreateFnStatus(name: string, environment: string, replicas: int, maxmemory: string, naming: Naming,
                       secretRead: Option<set<string>>, created: Created)
    requires CreateFn(name, environment, replicas, maxmemory, naming, secretRead, created).status.Success?
    ensures var r := CreateFn(name, environment, replicas, maxmemory, naming, secretRead, created);
      var n := Names(name, environment);
      r.status.value == Status(created.stsName, n.service, created.containerName, n.pvc, n.config) &&
      |r.actions| == 4 && r.actions[0] == ReadSecret(n.secret) &&
      r.actions[1] == CreateConfigMap(n.config) && r.actions[2] == CreateService(n.service, n.base) &&
      r.actions[3] == CreateStatefulSet(n.base, n.service, n.secret, n.config, n.pvc, n.acl, maxmemory)
  {
  }

  // ---------------------------------------------------------------------------
  // The StatefulSet's size along a handler's calls

  /** The replica count of the StatefulSet after one action. */
  function Rescale(scale: int, a: Action): int {
    if a.PatchReplicas? then a.replicas else scale
  }

  /** The replica count after `actions`, starting from `scale`. */
  function ScaleAfter(scale: int, actions: seq<Action>): int
    decreases |actions|
  {
    if actions == [] then scale else ScaleAfter(Rescale(scale, actions[0]), actions[1..])
  }

  /**
   * An action that suits the StatefulSet's current size: a pod is awaited ready only
   * if the StatefulSet has it, awaited deleted only if it does not, volumes are
   * patched only when no pod runs, and redis-cli runs while the StatefulSet has
   * `cliScale` pods.
   */
  predicate Allowed(scale: int, a: Action, cliScale: int) {
    (a.WaitPodReady? ==> a.pod < scale) &&
    (a.WaitPodDeleted? ==> a.pod >= scale) &&
    (a.PatchPvc? || a.WaitPvcCapacity? ==> scale == 0) &&
    (a.RunCli? ==> scale == cliScale)
  }

  /** Every action, in order, suits the size the earlier ones left. */
  predicate ScaleRespected(scale: int, actions: seq<Action>, cliScale: int)
    decreases |actions|
  {
    actions == [] ||
      (Allowed(scale, actions[0], cliScale) && ScaleRespected(Rescale(scale, actions[0]), actions[1..], cliScale))
  }

  lemma {:induction false} ScaleAppend(scale: int, a: seq<Action>, b: seq<Action>, cliScale: int)
    ensures ScaleAfter(scale, a + b) == ScaleAfter(ScaleAfter(scale, a), b)
    ensures ScaleRespected(scale, a + b, cliScale) <==>
      ScaleRespected(scale, a, cliScale) && ScaleRespected(ScaleAfter(scale, a), b, cliScale)
    decreases |a|
  {
    if a == [] {
      assert a + b == b;
    } else {
      assert (a + b)[0] == a[0];
      assert (a + b)[1..] == a[1..] + b;
      ScaleAppend(Rescale(scale, a[0]), a[1..], b, cliScale);
    }
  }

  lemma ScaleOne(scale: int, a: Action, cliScale: int)
    ensures ScaleAfter(scale, [a]) == Rescale(scale, a)
    ensures ScaleRespected(scale, [a], cliScale) <==> Allowed(scale, a, cliScale)
  {
    assert [a][1..] == [];
  }

  // ---------------------------------------------------------------------------
  // on_replicas_change

  /** Waits for pods from..to-1 to be ready, in ascending order. */
  function ReadyWaits(from: nat, to: int): (r: seq<Action>)
    decreases if to > from then to - from else 0
  {
    if to <= from then [] else ReadyWaits(from, to - 1) + [WaitPodReady(to - 1)]
  }

  /** Waiting for pods below the StatefulSet's size is allowed and changes nothing. */
  lemma {:induction false} ReadyWaitsRespected(from: nat, to: int, scale: int, cliScale: int)
    requires to <= scale
    ensures ScaleRespected(scale, ReadyWaits(from, to), cliScale)
    ensures ScaleAfter(scale, ReadyWaits(from, to)) == scale
    decreases if to > from then to - from else 0
  {
    if to > from {
      ReadyWaitsRespected(from, to - 1, scale, cliScale);
      ScaleAppend(scale, ReadyWaits(from, to - 1), [WaitPodReady(to - 1)], cliScale);
      ScaleOne(scale, WaitPodReady(to - 1), cliScale);
    }
  }

  /** What the redis-cli coroutines of one replica change observe. */
  datatype ReplicasObserved = ReplicasObserved(lastNodes: string, add: AddObserved, remove: RemoveObserved)

  function CliRaised(error: Option<Error>): Option<Raised> {
    if error.Some? then Some(CliError(error.value)) else None
  }

  /**
   * on_replicas_change from `previous` to `wanted` replicas: validate, then create the
   * cluster (no previous value), scale up and add nodes, remove nodes and scale down,
   * or do nothing (no change).
   */
  function ReplicasPlan(previous: Option<nat>, wanted: int, st: Status, naming: Naming, obs: ReplicasObserved): Outcome {
    var bad := ValidateReplicas(wanted);
    if bad.Some? then Outcome([], bad)
    else
      var c := Cluster(st.stsName, st.srvName, naming.podName, naming.podHost);
      if previous.None? then
        Outcome([WaitPodReady(wanted - 1), RunCli(CreateSteps(c, wanted, obs.lastNodes))], None)
      else if wanted > previous.value then
        var add := AddLoop(previous.value, obs.add, AddCount(previous.value, wanted));
        Outcome([PatchReplicas(st.stsName, wanted)] + ReadyWaits(previous.value, wanted) + [RunCli(add.0)], CliRaised(add.1))
      else if wanted < previous.value then
        var removed := RemoveSteps(previous.value, wanted, obs.remove);
        if removed.1.Some? then Outcome([RunCli(removed.0)], CliRaised(removed.1))
        else Outcome([RunCli(removed.0), PatchReplicas(st.stsName, wanted)], None)
      else Outcome([], None)
  }

  method OnReplicasChange(previous: Option<nat>, wanted: int, st: Status, naming: Naming, obs: ReplicasObserved)
    returns (o: Outcome)
    ensures o == ReplicasPlan(previous, wanted, st, naming, obs)
  {
    var bad := ValidateReplicas(wanted);
    if bad.Some? {
      return Outcome([], bad);
    }
    var c := Cluster(st.stsName, st.srvName, naming.podName, naming.podHost);
    if previous.None? {
      var steps := CreateRedisCluster(c, wanted, obs.lastNodes);
      return Outcome([WaitPodReady(wanted - 1), RunCli(steps)], None);
    } else if wanted > previous.value {
      var actions := [PatchReplicas(st.stsName, wanted)];
      for i := previous.value to wanted
        invariant actions == [PatchReplicas(st.stsName, wanted)] + ReadyWaits(previous.value, i)
      {
        actions := actions + [WaitPodReady(i)];
      }
      var steps, error := AddRedisClusterNodes(previous.value, wanted, obs.add);
      return Outcome(actions + [RunCli(steps)], CliRaised(error));
    } else if wanted < previous.value {
      var steps, error := RemoveRedisClusterNodes(previous.value, wanted, obs.remove);
      if error.Some? {
        return Outcome([RunCli(steps)], CliRaised(error));
      }
      return Outcome([RunCli(steps), PatchReplicas(st.stsName, wanted)], None);
    }
    return Outcome([], None);
  }

  /** The replica change is refused, before any call, exactly when fewer than six replicas are asked for. */
  lemma ReplicasValidated(previous: Option<nat>, wanted: int, st: Status, naming: Naming, obs: ReplicasObserved)
    ensures ReplicasPlan(previous, wanted, st, naming, obs).error == Some(PermanentError("Replicas must be at least 6. Got " + IntToString(wanted) + ".")) <==> wanted < MinReplicas
    ensures wanted < MinReplicas ==> ReplicasPlan(previous, wanted, st, naming, obs).actions == []
  {
  }

  /**
   * Scale up before adding nodes, remove nodes before scaling down: along the calls
   * of a replica change, every pod awaited exists, redis-cli runs while the
   * StatefulSet has the larger of the two sizes, and the handler leaves it at the
   * wanted size, or at the larger size when the redis-cli layer raised.
   */
  lemma ReplicasScale(previous: Option<nat>, wanted: int, st: Status, naming: Naming, obs: ReplicasObserved)
    requires wanted >= MinReplicas
    ensures var o := ReplicasPlan(previous, wanted, st, naming, obs);
      var start := if previous.Some? then previous.value else wanted;
      var top := if start > wanted then start else wanted;
      ScaleRespected(start, o.actions, top) &&
      ScaleAfter(start, o.actions) == if o.error.None? then wanted else top
  {
    var o := ReplicasPlan(previous, wanted, st, naming, obs);
    var c := Cluster(st.stsName, st.srvName, naming.podName, naming.podHost);
    if previous.None? {
      var cli := RunCli(CreateSteps(c, wanted, obs.lastNodes));
      assert o.actions == [WaitPodReady(wanted - 1)] + [cli];
      ScaleOne(wanted, WaitPodReady(wanted - 1), wanted);
      ScaleOne(wanted, cli, wanted);
      ScaleAppend(wanted, [WaitPodReady(wanted - 1)], [cli], wanted);
    } else if wanted > previous.value {
      var add := AddLoop(previous.value, obs.add, AddCount(previous.value, wanted));
      var patch := [PatchReplicas(st.stsName, wanted)];
      var waits := ReadyWaits(previous.value, wanted);
      ScaleOne(previous.value, patch[0], wanted);
      ReadyWaitsRespected(previous.value, wanted, wanted, wanted);
      ScaleOne(wanted, RunCli(add.0), wanted);
      ScaleAppend(previous.value, patch, waits, wanted);
      ScaleAppend(previous.value, patch + waits, [RunCli(add.0)], wanted);
    } else if wanted < previous.value {
      var removed := RemoveSteps(previous.value, wanted, obs.remove);
      ScaleOne(previous.value, RunCli(removed.0), previous.value);
      if removed.1.None? {
        ScaleOne(previous.value, PatchReplicas(st.stsName, wanted), previous.value);
        ScaleAppend(previous.value, [RunCli(removed.0)], [PatchReplicas(st.stsName, wanted)], previous.value);
        assert o.actions == [RunCli(removed.0)] + [PatchReplicas(st.stsName, wanted)];
      }
    }
  }

  // ---------------------------------------------------------------------------
  // on_maxmemory_change

  /** Delete pod `pod`, wait until it is gone, ready again and reachable by redis-cli. */
  function RestartRound(pod: nat): seq<Action> {
    [DeletePod(pod), WaitPodDeleted(pod), WaitPodReady(pod), RunCli([WaitReachable(pod)])]
  }

  /** Restarting pods top-1, top-2, …, top-k. */
  function Restarts(top: nat, k: nat): seq<Action>
    requires k <= top
  {
    if k == 0 then [] else Restarts(top, k - 1) + RestartRound(top - k)
  }

  function PodCount(replicas: int): nat {
    if replicas > 0 then replicas else 0
  }

  /** on_maxmemory_change: patch the MAXMEMORY variable, then restart every pod, highest index first. */
  function MaxmemoryPlan(previous: Option<string>, value: string, replicas: int, st: Status): seq<Action> {
    if previous.None? then []
    else
      var n := PodCount(replicas);
      [PatchContainer(st.stsName, st.cntrName, "env", value)] + Restarts(n, n)
  }

  method OnMaxmemoryChange(previous: Option<string>, value: string, replicas: int, st: Status) returns (actions: seq<Action>)
    ensures actions == MaxmemoryPlan(previous, value, replicas, st)
  {
    if previous.None? {
      return [];
    }
    var n := PodCount(replicas);
    actions := [PatchContainer(st.stsName, st.cntrName, "env", value)];
    var index: int := n - 1;  // range(replicas - 1, -1, -1) is empty when replicas <= 0
    while index >= 0
      invariant -1 <= index < n
      invariant actions == [PatchContainer(st.stsName, st.cntrName, "env", value)] + Restarts(n, n - 1 - index)
      decreases index
    {
      actions := actions + RestartRound(index);
      index := index - 1;
    }
  }

  /**
   * The pod a rolling restart has taken down, if any: deleting a pod takes it down,
   * and it is back once it is ready again.
   */
  function DownAfter(down: Option<nat>, a: Action): Option<nat> {
    if a.DeletePod? then Some(a.pod)
    else if a.WaitPodReady? then None
    else down
  }

  function DownAfterAll(down: Option<nat>, actions: seq<Action>): Option<nat>
    decreases |actions|
  {
    if actions == [] then down else DownAfterAll(DownAfter(down, actions[0]), actions[1..])
  }

  /**
   * At most one pod is down at a time: a pod is deleted only when none is down, the
   * waits for deletion and readiness concern the pod that is down, and redis-cli
   * runs only when every pod is up.
   */
  predicate Restartable(down: Option<nat>, a: Action) {
    (a.DeletePod? ==> down.None?) &&
    (a.WaitPodDeleted? || a.WaitPodReady? ==> down == Some(a.pod)) &&
    (a.RunCli? ==> down.None?)
  }

  predicate OneAtATime(down: Option<nat>, actions: seq<Action>)
    decreases |actions|
  {
    actions == [] || (Restartable(down, actions[0]) && OneAtATime(DownAfter(down, actions[0]), actions[1..]))
  }

  lemma {:induction false} OneAtATimeAppend(down: Option<nat>, a: seq<Action>, b: seq<Action>)
    ensures DownAfterAll(down, a + b) == DownAfterAll(DownAfterAll(down, a), b)
    ensures OneAtATime(down, a + b) <==> OneAtATime(down, a) && OneAtATime(DownAfterAll(down, a), b)
    decreases |a|
  {
    if a == [] {
      assert a + b == b;
    } else {
      assert (a + b)[0] == a[0];
      assert (a + b)[1..] == a[1..] + b;
      OneAtATimeAppend(DownAfter(down, a[0]), a[1..], b);
    }
  }

  /** One restart round starts and ends with every pod up. */
  lemma RestartRoundOne(pod: nat)
    ensures OneAtATime(None, RestartRound(pod)) && DownAfterAll(None, RestartRound(pod)) == None
  {
    var r := RestartRound(pod);
    var r1 := r[1..];
    var r2 := r1[1..];
    var r3 := r2[1..];
    assert r3 == [RunCli([WaitReachable(pod)])] && r3[1..] == [];
    assert OneAtATime(None, r3[1..]) && DownAfterAll(None, r3[1..]) == None;
    assert Restartable(None, r3[0]) && DownAfter(None, r3[0]) == None;
    assert OneAtATime(None, r3) && DownAfterAll(None, r3) == None;
    assert r2[0] == WaitPodReady(pod) && r2[1..] == r3;
    assert OneAtATime(Some(pod), r2) && DownAfterAll(Some(pod), r2) == None;
    assert r1[0] == WaitPodDeleted(pod) && r1[1..] == r2;
    assert OneAtATime(Some(pod), r1) && DownAfterAll(Some(pod), r1) == None;
    assert r[0] == DeletePod(pod) && r[1..] == r1;
  }

  /** The pods deleted, in order. */
  function Deleted(actions: seq<Action>): seq<nat> {
    if actions == [] then []
    else
      var a := actions[|actions| - 1];
      Deleted(actions[..|actions| - 1]) + (if a.DeletePod? then [a.pod] else [])
  }

  lemma {:induction false} DeletedAppend(a: seq<Action>, b: seq<Action>)
    ensures Deleted(a + b) == Deleted(a) + Deleted(b)
  {
    if b == [] {
      assert a + b == a;
    } else {
      assert (a + b)[..|a + b| - 1] == a + b[..|b| - 1];
      DeletedAppend(a, b[..|b| - 1]);
    }
  }

  lemma RestartRoundDeletes(pod: nat)
    ensures Deleted(RestartRound(pod)) == [pod]
  {
    var r := RestartRound(pod);
    assert r[..1][..0] == [];
    assert Deleted(r[..1]) == [pod];
    assert Deleted(r[..2]) == [pod];
    assert r[..3][..2] == r[..2];
    assert Deleted(r[..3]) == [pod];
    assert r[..4] == r;
  }

  /**
   * Restarting `k` pods from the top deletes top-1 down to top-k, each once and in
   * that order, with at most one pod down at any time and all pods up at the end.
   */
  lemma {:induction false} RestartsRolling(top: nat, k: nat)
    requires k <= top
    ensures Deleted(Restarts(top, k)) == Down(top, k)
    ensures OneAtATime(None, Restarts(top, k)) && DownAfterAll(None, Restarts(top, k)) == None
  {
    if k > 0 {
      RestartsRolling(top, k - 1);
      var prev := Restarts(top, k - 1);
      var round := RestartRound(top - k);
      RestartRoundOne(top - k);
      RestartRoundDeletes(top - k);
      DeletedAppend(prev, round);
      OneAtATimeAppend(None, prev, round);
    }
  }

  /**
   * A maxmemory change does nothing on first set; otherwise it patches the container
   * first and then restarts the pods replicas-1 down to 0, one at a time.
   */
  lemma MaxmemoryRolling(previous: Option<string>, value: string, replicas: int, st: Status)
    ensures var plan := MaxmemoryPlan(previous, value, replicas, st);
      (previous.None? <==> plan == []) &&
      (previous.Some? ==>
        plan[0] == PatchContainer(st.stsName, st.cntrName, "env", value) &&
        Deleted(plan) == Down(PodCount(replicas), PodCount(replicas)) &&
        OneAtATime(None, plan) && DownAfterAll(None, plan) == None)
  {
    if previous.Some? {
      var n := PodCount(replicas);
      var patch := [PatchContainer(st.stsName, st.cntrName, "env", value)];
      RestartsRolling(n, n);
      DeletedAppend(patch, Restarts(n, n));
      OneAtATimeAppend(None, patch, Restarts(n, n));
      assert patch[..0] == [];
      assert patch[1..] == [];
    }
  }

  // ---------------------------------------------------------------------------
  // on_image_change, on_image_pull_policy_change, on_resources_change

  /**
   * A container field handler: nothing on first set, otherwise one patch of `key`
   * on the container recorded at creation.
   */
  function ContainerChange(key: string, previous: Option<string>, value: string, st: Status): (r: seq<Action>)
    ensures r == [] <==> previous.None?
    ensures r != [] ==> r == [PatchContainer(st.stsName, st.cntrName, key, value)]
  {
    if previous.None? then [] else [PatchContainer(st.stsName, st.cntrName, key, value)]
  }

  function OnImageChange(previous: Option<string>, value: string, st: Status): seq<Action> {
    ContainerChange("image", previous, value, st)
  }

  function OnImagePullPolicyChange(previous: Option<string>, value: string, st: Status): seq<Action> {
    ContainerChange("imagePullPolicy", previous, value, st)
  }

  function OnResourcesChange(previous: Option<string>, value: string, st: Status): seq<Action> {
    ContainerChange("resources", previous, value, st)
  }

  // ---------------------------------------------------------------------------
  // update_fn

  const UnsupportedAnnotation := "update-storage-class-unsupported"

  /**
   * update_fn, which kopf calls only while the resource lacks the annotation: on a
   * real change of storage class it sets the annotation and refuses for good.
   */
  function UpdateStorageClass(annotated: bool, previous: Option<string>, value: string): Outcome {
    if annotated || previous.None? then Outcome([], None)
    else Outcome([Annotate(UnsupportedAnnotation, "yes")],
      Some(PermanentError("Redis operator is unable to migrate from '" + previous.value + "' to '" + value + "' storageClassName.")))
  }

  /** A storage class change is refused at most once: the refusal marks the resource, and a marked one is left alone. */
  lemma StorageClassRefusedOnce(previous: Option<string>, value: string, next: Option<string>, value2: string)
    ensures var first := UpdateStorageClass(false, previous, value);
      (first.error.Some? <==> previous.Some?) &&
      (first.error.Some? ==> first.actions == [Annotate(UnsupportedAnnotation, "yes")] && first.error.value.PermanentError?)
    ensures UpdateStorageClass(true, next, value2) == Outcome([], None)
  {
  }

  // ---------------------------------------------------------------------------
  // on_persistence_storage_change

  /**
   * What the storage handler observes: whether the storage class allows expansion,
   * and, for each pod index, whether patching its volume claim or reading the
   * claim's status raises an ApiException.
   */
  datatype StorageObserved = StorageObserved(allowExpansion: bool, patchFails: nat -> bool, waitFails: nat -> bool)

  /** The claim of pod `i`: "{pvc}-{sts}-{i}". */
  function PvcName(pvc: string, sts: string, i: nat): string {
    pvc + "-" + sts + "-" + NatToString(i)
  }

  function Gibibytes(storage: int): string {
    IntToString(storage) + "Gi"
  }

  /** Patch and await the claim of pod `i`; the Boolean says whether an ApiException stopped it. */
  function PvcRound(st: Status, storage: int, obs: StorageObserved, i: nat): (seq<Action>, bool) {
    var name := PvcName(st.pvcName, st.stsName, i);
    if obs.patchFails(i) then ([PatchPvc(name, Gibibytes(storage))], true)
    else ([PatchPvc(name, Gibibytes(storage)), WaitPvcCapacity(name, Gibibytes(storage))], obs.waitFails(i))
  }

  predicate PvcFails(obs: StorageObserved, i: nat) {
    obs.patchFails(i) || obs.waitFails(i)
  }

  /** The claim loop over pods 0..k-1, which the first exception ends. */
  function PvcLoop(st: Status, storage: int, obs: StorageObserved, k: nat): (seq<Action>, bool) {
    if k == 0 then ([], false)
    else
      var prev := PvcLoop(st, storage, obs, k - 1);
      if prev.1 then prev
      else
        var round := PvcRound(st, storage, obs, k - 1);
        (prev.0 + round.0, round.1)
  }

  lemma {:induction false} PvcLoopStops(st: Status, storage: int, obs: StorageObserved, k: nat, n: nat)
    requires k <= n && PvcLoop(st, storage, obs, k).1
    ensures PvcLoop(st, storage, obs, n) == PvcLoop(st, storage, obs, k)
    decreases n - k
  {
    if k < n {
      PvcLoopStops(st, storage, obs, k + 1, n);
    }
  }

  /** Waits, from pod top-1 down to pod top-k, for the pod to be deleted. */
  function DeletionWaits(top: nat, k: nat): seq<Action>
    requires k <= top
  {
    if k == 0 then [] else DeletionWaits(top, k - 1) + [WaitPodDeleted(top - k)]
  }

  const ShrinkMessage := "New storage size must be greater than old storage size."
  const ResizeMessage := "Failed to increase persistent volume capacity"

  /**
   * on_persistence_storage_change: refuse a shrink, check the storage class, scale
   * the StatefulSet to zero and wait for its pods to go, patch each claim in
   * ascending order until one raises, then restore the replica count and only then
   * raise a temporary error if a claim failed.
   */
  function StoragePlan(previous: Option<int>, wanted: int, storageClass: string, replicas: int, st: Status,
                       obs: StorageObserved): Outcome {
    if previous.None? then Outcome([], None)
    else if wanted < previous.value then Outcome([], Some(PermanentError(ShrinkMessage)))
    else
      var read := [ReadStorageClass(storageClass)];
      if !obs.allowExpansion then
        Outcome(read, Some(PermanentError("Storage class '" + storageClass + "' does not allow volume expansion.")))
      else
        var n := PodCount(replicas);
        var pvcs := PvcLoop(st, wanted, obs, n);
        Outcome(read + [PatchReplicas(st.stsName, 0)] + DeletionWaits(n, n) + pvcs.0 + [PatchReplicas(st.stsName, replicas)],
          if pvcs.1 then Some(TemporaryError(ResizeMessage)) else None)
  }

  method OnStorageChange(previous: Option<int>, wanted: int, storageClass: string, replicas: int, st: Status,
                         obs: StorageObserved) returns (o: Outcome)
    ensures o == StoragePlan(previous, wanted, storageClass, replicas, st, obs)
  {
    if previous.None? {
      return Outcome([], None);
    }
    if wanted < previous.value {
      return Outcome([], Some(PermanentError(ShrinkMessage)));
    }
    var actions := [ReadStorageClass(storageClass)];
    if !obs.allowExpansion {
      return Outcome(actions, Some(PermanentError("Storage class '" + storageClass + "' does not allow volume expansion.")));
    }
    var n := PodCount(replicas);
    actions := actions + [PatchReplicas(st.stsName, 0)];
    var head := actions;
    var index: int := n - 1;
    while index >= 0
      invariant -1 <= index < n
      invariant actions == head + DeletionWaits(n, n - 1 - index)
      decreases index
    {
      actions := actions + [WaitPodDeleted(index)];
      index := index - 1;
    }
    var claims := [];
    var failed := false;
    var i := 0;
    while i < n && !failed
      invariant 0 <= i <= n
      invariant PvcLoop(st, wanted, obs, i) == (claims, failed)
    {
      var name := PvcName(st.pvcName, st.stsName, i);
      if obs.patchFails(i) {
        claims := claims + [PatchPvc(name, Gibibytes(wanted))];
        failed := true;
      } else {
        claims := claims + [PatchPvc(name, Gibibytes(wanted)), WaitPvcCapacity(name, Gibibytes(wanted))];
        failed := obs.waitFails(i);
      }
      i := i + 1;
    }
    if failed {
      PvcLoopStops(st, wanted, obs, i, n);
    }
    actions := actions + claims;
    actions := actions + [PatchReplicas(st.stsName, replicas)];
    o := Outcome(actions, if failed then Some(TemporaryError(ResizeMessage)) else None);
  }

  /** A first set does nothing, and a shrink is refused before any API call. */
  lemma StorageShrinkRejected(previous: Option<int>, wanted: int, storageClass: string, replicas: int, st: Status,
                              obs: StorageObserved)
    ensures previous.None? ==> StoragePlan(previous, wanted, storageClass, replicas, st, obs) == Outcome([], None)
    ensures StoragePlan(previous, wanted, storageClass, replicas, st, obs) == Outcome([], Some(PermanentError(ShrinkMessage)))
      <==> previous.Some? && wanted < previous.value
    ensures previous.Some? && wanted >= previous.value ==>
      StoragePlan(previous, wanted, storageClass, replicas, st, obs).actions[0] == ReadStorageClass(storageClass)
  {
  }

  /** The claim loop raises exactly when some claim below `k` fails. */
  lemma {:induction false} PvcLoopFails(st: Status, storage: int, obs: StorageObserved, k: nat)
    ensures PvcLoop(st, storage, obs, k).1 <==> exists i :: 0 <= i < k && PvcFails(obs, i)
  {
    if k > 0 {
      PvcLoopFails(st, storage, obs, k - 1);
      if !PvcLoop(st, storage, obs, k - 1).1 {
        assert PvcLoop(st, storage, obs, k).1 == PvcFails(obs, k - 1);
        if PvcLoop(st, storage, obs, k).1 {
          assert PvcFails(obs, k - 1);
        }
      } else {
        var i :| 0 <= i < k - 1 && PvcFails(obs, i);
        assert 0 <= i < k && PvcFails(obs, i);
      }
    }
  }

  /** Patching and awaiting claims needs the StatefulSet at zero and leaves it there. */
  lemma {:induction false} PvcLoopScale(st: Status, storage: int, obs: StorageObserved, k: nat, cliScale: int)
    ensures ScaleRespected(0, PvcLoop(st, storage, obs, k).0, cliScale)
    ensures ScaleAfter(0, PvcLoop(st, storage, obs, k).0) == 0
  {
    if k > 0 {
      var prev := PvcLoop(st, storage, obs, k - 1);
      PvcLoopScale(st, storage, obs, k - 1, cliScale);
      if !prev.1 {
        var round := PvcRound(st, storage, obs, k - 1);
        var name := PvcName(st.pvcName, st.stsName, k - 1);
        ScaleOne(0, PatchPvc(name, Gibibytes(storage)), cliScale);
        ScaleOne(0, WaitPvcCapacity(name, Gibibytes(storage)), cliScale);
        ScaleAppend(0, [PatchPvc(name, Gibibytes(storage))], [WaitPvcCapacity(name, Gibibytes(storage))], cliScale);
        assert [PatchPvc(name, Gibibytes(storage))] + [WaitPvcCapacity(name, Gibibytes(storage))] ==
          [PatchPvc(name, Gibibytes(storage)), WaitPvcCapacity(name, Gibibytes(storage))];
        ScaleAppend(0, prev.0, round.0, cliScale);
      }
    }
  }

  /** Waiting for pods to be deleted is allowed once the StatefulSet is at zero. */
  lemma {:induction false} DeletionWaitsScale(top: nat, k: nat, cliScale: int)
    requires k <= top
    ensures ScaleRespected(0, DeletionWaits(top, k), cliScale)
    ensures ScaleAfter(0, DeletionWaits(top, k)) == 0
  {
    if k > 0 {
      DeletionWaitsScale(top, k - 1, cliScale);
      ScaleOne(0, WaitPodDeleted(top - k), cliScale);
      ScaleAppend(0, DeletionWaits(top, k - 1), [WaitPodDeleted(top - k)], cliScale);
    }
  }

  /**
   * Once the storage class allows expansion, the handler scales the StatefulSet to
   * zero, waits for its pods to go and patches claims only while none runs, and it
   * always ends by restoring the replica count; it raises a temporary error exactly
   * when some claim failed, and only after the restore.
   */
  lemma StorageRestored(previous: Option<int>, wanted: int, storageClass: string, replicas: int, st: Status,
                        obs: StorageObserved)
    requires previous.Some? && wanted >= previous.value && obs.allowExpansion
    ensures var o := StoragePlan(previous, wanted, storageClass, replicas, st, obs);
      o.actions != [] && o.actions[|o.actions| - 1] == PatchReplicas(st.stsName, replicas) &&
      ScaleRespected(replicas, o.actions, replicas) && ScaleAfter(replicas, o.actions) == replicas &&
      (o.error.Some? <==> exists i :: 0 <= i < PodCount(replicas) && PvcFails(obs, i)) &&
      (o.error.Some? ==> o.error.value == TemporaryError(ResizeMessage))
  {
    var n := PodCount(replicas);
    var pvcs := PvcLoop(st, wanted, obs, n);
    PvcLoopFails(st, wanted, obs, n);
    PvcLoopScale(st, wanted, obs, n, replicas);
    ResizeScale(replicas, storageClass, st.stsName, n, pvcs.0);
  }

  /** The scale replay of a resize: down to zero, the claims, and back up. */
  lemma ResizeScale(replicas: int, storageClass: string, sts: string, n: nat, pvcs: seq<Action>)
    requires ScaleRespected(0, pvcs, replicas) && ScaleAfter(0, pvcs) == 0
    ensures var actions := [ReadStorageClass(storageClass)] + [PatchReplicas(sts, 0)] + DeletionWaits(n, n) + pvcs +
        [PatchReplicas(sts, replicas)];
      ScaleRespected(replicas, actions, replicas) && ScaleAfter(replicas, actions) == replicas
  {
    var read := [ReadStorageClass(storageClass)];
    var down := [PatchReplicas(sts, 0)];
    var waits := DeletionWaits(n, n);
    var restore := [PatchReplicas(sts, replicas)];
    assert ScaleRespected(replicas, read + down, replicas) && ScaleAfter(replicas, read + down) == 0 by {
      ScaleOne(replicas, read[0], replicas);
      ScaleOne(replicas, down[0], replicas);
      ScaleAppend(replicas, read, down, replicas);
    }
    assert ScaleRespected(0, waits + pvcs, replicas) && ScaleAfter(0, waits + pvcs) == 0 by {
      DeletionWaitsScale(n, n, replicas);
      ScaleAppend(0, waits, pvcs, replicas);
    }
    assert ScaleRespected(replicas, read + down + waits + pvcs, replicas) &&
      ScaleAfter(replicas, read + down + waits + pvcs) == 0 by {
      ScaleAppend(replicas, read + down, waits + pvcs, replicas);
      assert read + down + (waits + pvcs) == read + down + waits + pvcs;
    }
    ScaleOne(0, restore[0], replicas);
    ScaleAppend(replicas, read + down + waits + pvcs, restore, replicas);
  }

  /** The claims patched, in order. */
  function Claims(actions: seq<Action>): seq<string> {
    if actions == [] then []
    else
      var a := actions[|actions| - 1];
      Claims(actions[..|actions| - 1]) + (if a.PatchPvc? then [a.pvc] else [])
  }

  /** The claims of pods 0..m-1, in ascending order. */
  function ClaimNames(st: Status, m: nat): seq<string> {
    if m == 0 then [] else ClaimNames(st, m - 1) + [PvcName(st.pvcName, st.stsName, m - 1)]
  }

  lemma {:induction false} ClaimsAppend(a: seq<Action>, b: seq<Action>)
    ensures Claims(a + b) == Claims(a) + Claims(b)
  {
    if b == [] {
      assert a + b == a;
    } else {
      assert (a + b)[..|a + b| - 1] == a + b[..|b| - 1];
      ClaimsAppend(a, b[..|b| - 1]);
    }
  }

  lemma PvcRoundClaims(st: Status, storage: int, obs: StorageObserved, i: nat)
    ensures Claims(PvcRound(st, storage, obs, i).0) == [PvcName(st.pvcName, st.stsName, i)]
    ensures PvcRound(st, storage, obs, i).1 == PvcFails(obs, i)
  {
    var name := PvcName(st.pvcName, st.stsName, i);
    var patch := [PatchPvc(name, Gibibytes(storage))];
    assert patch[..0] == [];
    assert Claims(patch) == [name];
    if !obs.patchFails(i) {
      var both := [PatchPvc(name, Gibibytes(storage)), WaitPvcCapacity(name, Gibibytes(storage))];
      assert both[..1] == patch;
    }
  }

  /**
   * The claim loop patches the claims of pods 0, 1, 2, … in ascending order, all k of
   * them unless one fails, and then the last one patched is the first that failed.
   */
  lemma {:induction false} PvcLoopClaims(st: Status, storage: int, obs: StorageObserved, k: nat)
    ensures var c := Claims(PvcLoop(st, storage, obs, k).0);
      c == ClaimNames(st, |c|) && |c| <= k &&
      (!PvcLoop(st, storage, obs, k).1 ==> |c| == k) &&
      (PvcLoop(st, storage, obs, k).1 ==>
        |c| >= 1 && PvcFails(obs, |c| - 1) && forall i :: 0 <= i < |c| - 1 ==> !PvcFails(obs, i))
  {
    if k > 0 {
      PvcLoopClaims(st, storage, obs, k - 1);
      var prev := PvcLoop(st, storage, obs, k - 1);
      if !prev.1 {
        var round := PvcRound(st, storage, obs, k - 1);
        PvcRoundClaims(st, storage, obs, k - 1);
        ClaimsAppend(prev.0, round.0);
        PvcLoopFails(st, storage, obs, k - 1);
      }
    }
  }

  /** Distinct pods have distinct claims, so no claim is patched twice. */
  lemma PvcNameInjective(pvc: string, sts: string, i: nat, j: nat)
    requires PvcName(pvc, sts, i) == PvcName(pvc, sts, j)
    ensures i == j
  {
    var p := pvc + "-" + sts + "-";
    assert PvcName(pvc, sts, i)[|p|..] == NatToString(i);
    assert PvcName(pvc, sts, j)[|p|..] == NatToString(j);
    ParseIntOfNatToString(i);
    ParseIntOfNatToString(j);
  }

  lemma {:induction false} DeletionWaitsClaims(top: nat, k: nat)
    requires k <= top
    ensures Claims(DeletionWaits(top, k)) == []
  {
    if k > 0 {
      DeletionWaitsClaims(top, k - 1);
      ClaimsAppend(DeletionWaits(top, k - 1), [WaitPodDeleted(top - k)]);
      assert [WaitPodDeleted(top - k)][..0] == [];
    }
  }

  /**
   * A resize patches the claims `<pvc>-<sts>-0`, `<pvc>-<sts>-1`, … in ascending
   * order, each once, and when it succeeds every pod's claim has been patched.
   */
  lemma StorageClaims(previous: Option<int>, wanted: int, storageClass: string, replicas: int, st: Status,
                      obs: StorageObserved)
    requires previous.Some? && wanted >= previous.value && obs.allowExpansion
    ensures var o := StoragePlan(previous, wanted, storageClass, replicas, st, obs);
      var c := Claims(o.actions);
      c == ClaimNames(st, |c|) && |c| <= PodCount(replicas) &&
      (o.error.None? ==> |c| == PodCount(replicas))
  {
    var n := PodCount(replicas);
    PvcLoopClaims(st, wanted, obs, n);
    ResizeClaims(storageClass, st.stsName, n, replicas, PvcLoop(st, wanted, obs, n).0);
  }

  /** Of a resize's actions, only the claim loop patches claims. */
  lemma ResizeClaims(storageClass: string, sts: string, n: nat, replicas: int, pvcs: seq<Action>)
    ensures Claims([ReadStorageClass(storageClass)] + [PatchReplicas(sts, 0)] + DeletionWaits(n, n) + pvcs +
      [PatchReplicas(sts, replicas)]) == Claims(pvcs)
  {
    var two := [ReadStorageClass(storageClass)] + [PatchReplicas(sts, 0)];
    var pre := two + DeletionWaits(n, n);
    var restore := [PatchReplicas(sts, replicas)];
    assert Claims(pre) == [] by {
      assert two[..1][..0] == [] && two[..1] == [two[0]];
      assert Claims(two[..1]) == [];
      assert Claims(two) == [];
      DeletionWaitsClaims(n, n);
      ClaimsAppend(two, DeletionWaits(n, n));
    }
    assert Claims(restore) == [] by {
      assert restore[..0] == [];
    }
    ClaimsAppend(pre, pvcs);
    ClaimsAppend(pre + pvcs, restore);
  }
}
