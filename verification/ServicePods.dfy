/** Run-scoped service pods: their names and labels, EnsureServices' reuse check and
    CleanupRunServices' generation guard, one caller at a time. */
module ServicePods {
  import opened Wrappers
  import opened Decimal
  import Retry = IsolatedCreate

  const MANAGED_BY := "app.kubernetes.io/managed-by"
  const COMPONENT := "app.kubernetes.io/component"
  const SERVICE := "gocdnext.io/service"
  const RUN_ID := "gocdnext.io/run-id"
  const GENERATION := "gocdnext.io/service-generation"

  type Labels = map<string, string>

  datatype Pod = Pod(uid: nat, labels: Labels)

  datatype ServiceSpec = ServiceSpec(name: string, image: string)

  datatype EnsureError =
    | EmptyRunId
    | DeclaredTwice(service: string)
    | InvalidName(service: string)
    | EmptyImage(service: string)
    | CreateFailed(pod: string)
    | GetFailed(pod: string)
    | RefusingReuse(pod: string)
    | NoAddress(pod: string)

  function Label(l: Labels, key: string): string {
    if key in l then l[key] else ""
  }

  predicate IsLabelEdge(c: char) {
    'a' <= c <= 'z' || 'A' <= c <= 'Z' || '0' <= c <= '9'
  }

  /** sanitizeLabelValue accepts a value or rejects it; it never rewrites one. */
  predicate ValidLabel(s: string) {
    && 0 < |s| <= 63
    && IsLabelEdge(s[0]) && IsLabelEdge(s[|s| - 1])
    && forall k | 0 <= k < |s| :: IsLabelEdge(s[k]) || s[k] in "-_."
  }

  function RemoveDashes(s: string): (r: string)
    ensures '-' !in r
  {
    if s == [] then [] else (if s[0] == '-' then [] else [s[0]]) + RemoveDashes(s[1..])
  }

  /** shortDockerID */
  function ShortId(run: string): (r: string)
    ensures '-' !in r && |r| <= 12
  {
    var clean := RemoveDashes(run);
    if |clean| > 12 then clean[..12] else clean
  }

  const NAME_PREFIX := "gocdnext-svc-"

  function Suffix(generation: int, service: string): string {
    "g" + (FormatInt(generation) + "-" + service)
  }

  /** gocdnext-svc-<short>-g<generation>-<service> */
  function PodName(short: string, generation: int, service: string): string {
    NAME_PREFIX + (short + "-" + Suffix(generation, service))
  }

  /** k8sServiceNameRE: ^[a-z]([a-z0-9-]{0,30}[a-z0-9])?$ */
  predicate ValidServiceName(s: string) {
    && 1 <= |s| <= 32
    && 'a' <= s[0] <= 'z'
    && (|s| > 1 ==> 'a' <= s[|s| - 1] <= 'z' || IsDigit(s[|s| - 1]))
    && forall k | 0 < k < |s| - 1 :: 'a' <= s[k] <= 'z' || IsDigit(s[k]) || s[k] == '-'
  }

  function BuildLabels(run: string, generation: int, service: string): Labels {
    var l := map[COMPONENT := "service", MANAGED_BY := "gocdnext-agent", SERVICE := service,
                 GENERATION := FormatInt(generation)];
    if ValidLabel(run) then l[RUN_ID := run] else l
  }

  /** assertOurServicePod returns nil. */
  predicate IsOurPod(l: Labels, run: string, service: string, generation: int) {
    && Label(l, MANAGED_BY) == "gocdnext-agent"
    && Label(l, COMPONENT) == "service"
    && Label(l, SERVICE) == service
    && ValidLabel(run) && Label(l, RUN_ID) == run
    && Label(l, GENERATION) == FormatInt(generation)
  }

  /** A pod EnsureServices settles for: a reused one is ours; one it created is ours
      whenever the run id can be stamped as a label at all. */
  predicate Trusted(l: Labels, reused: bool, run: string, service: string, generation: int) {
    reused || ValidLabel(run) ==> IsOurPod(l, run, service, generation)
  }

  /** podServiceGeneration: a missing or malformed label reads as 0. */
  function PodGeneration(l: Labels): int {
    var v := ParseInt(Label(l, GENERATION));
    if v.Some? then v.value else 0
  }

  /** The cleanup's label selector. */
  predicate Selected(l: Labels, run: string) {
    Label(l, MANAGED_BY) == "gocdnext-agent" && Label(l, COMPONENT) == "service" && RUN_ID in l && l[RUN_ID] == run
  }

  /** The names a cleanup of `run` up to `maxGeneration` is meant to remove. */
  function Doomed(pods: map<string, Pod>, run: string, maxGeneration: int): set<string> {
    set n | n in pods && Selected(pods[n].labels, run) && PodGeneration(pods[n].labels) <= maxGeneration
  }

  function Without(pods: map<string, Pod>, gone: set<string>): map<string, Pod> {
    pods - gone
  }

  lemma WithoutOneMore(pods: map<string, Pod>, gone: set<string>, n: string)
    ensures Without(Without(pods, gone), {n}) == Without(pods, gone + {n})
  {
  }

  function UpTo(listed: map<string, int>, maxGeneration: int): set<string> {
    set n | n in listed && listed[n] <= maxGeneration
  }

  /** Of the items taken from the listing so far: those deleted, and those whose delete failed. */
  function Deleted(listed: map<string, int>, maxGeneration: int, items: set<string>, denied: set<string>): set<string> {
    UpTo(listed, maxGeneration) - items - denied
  }

  function Refused(listed: map<string, int>, maxGeneration: int, items: set<string>, denied: set<string>): set<string> {
    (UpTo(listed, maxGeneration) - items) * denied
  }

  lemma TakeItem(listed: map<string, int>, maxGeneration: int, items: set<string>, n: string, denied: set<string>)
    requires n in items && n in listed
    ensures var rest := items - {n};
            var (d, d') := (Deleted(listed, maxGeneration, items, denied), Deleted(listed, maxGeneration, rest, denied));
            var (r, r') := (Refused(listed, maxGeneration, items, denied), Refused(listed, maxGeneration, rest, denied));
            if listed[n] > maxGeneration then d' == d && r' == r
            else if n in denied then d' == d && r' == r + {n}
            else d' == d + {n} && r' == r && n !in d
  {
  }

  lemma NothingTaken(pods: map<string, Pod>, listed: map<string, int>, maxGeneration: int, denied: set<string>)
    ensures Deleted(listed, maxGeneration, listed.Keys, denied) == {} == Refused(listed, maxGeneration, listed.Keys, denied)
    ensures Without(pods, {}) == pods
  {
  }

  lemma AllTaken(listed: map<string, int>, maxGeneration: int, denied: set<string>)
    ensures Deleted(listed, maxGeneration, {}, denied) == UpTo(listed, maxGeneration) - denied
    ensures Refused(listed, maxGeneration, {}, denied) == UpTo(listed, maxGeneration) * denied
  {
  }

  lemma WithoutKeeps(pods: map<string, Pod>, gone: set<string>)
    ensures forall n <- Without(pods, gone) :: n in pods && Without(pods, gone)[n] == pods[n]
  {
  }

  lemma FirstDash(a: string, b: string, x: string, y: string)
    requires '-' !in a && '-' !in b && a + "-" + x == b + "-" + y
    ensures a == b && x == y
  {
    var s := a + "-" + x;
    assert s[|a|] == '-' && (b + "-" + y)[|b|] == '-';
    assert forall k | 0 <= k < |a| :: s[k] == a[k];
    assert forall k | 0 <= k < |b| :: s[k] == b[k];
    assert a == s[..|a|] && b == s[..|b|];
    assert x == s[|a| + 1..] && y == s[|b| + 1..];
  }

  /** The text of a generation ends at the first dash after its first character. */
  lemma GenerationDash(g: int, h: int, x: string, y: string)
    requires FormatInt(g) + "-" + x == FormatInt(h) + "-" + y
    ensures g == h && x == y
  {
    var (a, b) := (FormatInt(g), FormatInt(h));
    FormatNonEmpty(g);
    FormatNonEmpty(h);
    var s := a + "-" + x;
    assert s[|a|] == '-' && (b + "-" + y)[|b|] == '-';
    assert forall k | 0 < k < |a| :: s[k] == a[k] && IsDigit(a[k]);
    assert forall k | 0 < k < |b| :: s[k] == b[k] && IsDigit(b[k]);
    assert a == s[..|a|] && b == s[..|b|];
    FormatInjective(g, h);
    assert x == s[|a| + 1..] && y == s[|b| + 1..];
  }

  /** A pod name determines the short run id, the generation and the service: for
      every generation, negative ones included, and every service name. */
  lemma PodNameInjective(a: string, g: int, x: string, b: string, h: int, y: string)
    requires '-' !in a && '-' !in b && PodName(a, g, x) == PodName(b, h, y)
    ensures a == b && g == h && x == y
  {
    var (s, t) := (Suffix(g, x), Suffix(h, y));
    assert a + "-" + s == PodName(a, g, x)[|NAME_PREFIX|..];
    assert b + "-" + t == PodName(b, h, y)[|NAME_PREFIX|..];
    FirstDash(a, b, s, t);
    assert FormatInt(g) + "-" + x == s[1..] && FormatInt(h) + "-" + y == t[1..];
    GenerationDash(g, h, x, y);
  }

  /** What is stamped is what is read back: the pod is ours for exactly this run,
      service and generation, and its cleanup generation is the one it was built for. */
  lemma BuiltPodIsOurs(run: string, generation: int, service: string, run2: string, service2: string, generation2: int)
    requires ValidLabel(run) && InInt64(generation)
    ensures var l := BuildLabels(run, generation, service);
      && PodGeneration(l) == generation
      && (Selected(l, run2) <==> run2 == run)
      && (IsOurPod(l, run2, service2, generation2) <==> run2 == run && service2 == service && generation2 == generation)
  {
    ReadFormat(generation);
    if FormatInt(generation2) == FormatInt(generation) { FormatInjective(generation2, generation); }
  }

  /** The service has a pod under its name that belongs to exactly this run, service and
      generation; `before` are the pods that existed when the call began. */
  predicate Ensured(now: map<string, Pod>, before: map<string, Pod>, run: string, generation: int, service: string) {
    var n := PodName(ShortId(run), generation, service);
    n in now && Trusted(now[n].labels, n in before, run, service, generation)
  }

  /** The pod was built by this call for one of the first `k` services. */
  ghost predicate BuiltFor(services: seq<ServiceSpec>, k: int, run: string, generation: int, n: string, pod: Pod) {
    exists i :: 0 <= i < k && i < |services| && n == PodName(ShortId(run), generation, services[i].name)
                && pod.labels == BuildLabels(run, generation, services[i].name)
  }

  ghost predicate Keeps(prior: map<string, Pod>, now: map<string, Pod>) {
    forall n <- prior :: n in now && now[n] == prior[n]
  }

  /** One service: nothing changed, or its pod was created. */
  ghost predicate AtMostCreated(prior: map<string, Pod>, now: map<string, Pod>, run: string, generation: int, service: string) {
    var n := PodName(ShortId(run), generation, service);
    now == prior
    || (n !in prior && exists pod :: now == prior[n := pod] && pod.labels == BuildLabels(run, generation, service))
  }

  /** What holds of the pods after the first `k` services, whether or not one of them failed. */
  ghost predicate OnlyBuilt(services: seq<ServiceSpec>, k: int, run: string, generation: int,
                            start: map<string, Pod>, now: map<string, Pod>) {
    Keeps(start, now) && forall n <- now | n !in start :: BuiltFor(services, k, run, generation, n, now[n])
  }

  ghost predicate EnsuredUpTo(services: seq<ServiceSpec>, k: int, run: string, generation: int,
                              start: map<string, Pod>, now: map<string, Pod>)
    requires k <= |services|
  {
    forall i | 0 <= i < k :: Ensured(now, start, run, generation, services[i].name)
  }

  lemma OneMoreBuilt(services: seq<ServiceSpec>, k: nat, run: string, generation: int, start: map<string, Pod>,
                     prior: map<string, Pod>, now: map<string, Pod>)
    requires k < |services| && OnlyBuilt(services, k, run, generation, start, prior)
    requires AtMostCreated(prior, now, run, generation, services[k].name)
    ensures OnlyBuilt(services, k + 1, run, generation, start, now) && Keeps(prior, now)
  {
    forall n <- now | n !in start ensures BuiltFor(services, k + 1, run, generation, n, now[n]) {
      if n in prior && now[n] == prior[n] {
        assert BuiltFor(services, k, run, generation, n, prior[n]);
      } else {
        assert n == PodName(ShortId(run), generation, services[k].name);
      }
    }
  }

  lemma OneMoreEnsured(services: seq<ServiceSpec>, k: nat, run: string, generation: int, start: map<string, Pod>,
                       prior: map<string, Pod>, now: map<string, Pod>)
    requires k < |services| && EnsuredUpTo(services, k, run, generation, start, prior)
    requires Keeps(start, prior) && Keeps(prior, now) && Ensured(now, prior, run, generation, services[k].name)
    ensures EnsuredUpTo(services, k + 1, run, generation, start, now)
  {
    hide PodName;
    hide IsOurPod;
  }

  lemma BuiltForAny(services: seq<ServiceSpec>, k: int, run: string, generation: int, start: map<string, Pod>, now: map<string, Pod>)
    requires k <= |services| && OnlyBuilt(services, k, run, generation, start, now)
    ensures OnlyBuilt(services, |services|, run, generation, start, now)
  {
  }

  /** What the API does for one service: how the attempts to create its pod end, and whether the get of an
      existing pod fails. */
  datatype Api = Api(attempts: seq<Retry.Attempt>, getFails: bool)

  /** The address of a pod, None when the wait for it fails. */
  type Kubelet = string -> Option<string>

  datatype HostAlias = HostAlias(ip: string, hostname: string)

  /** How the retried create of a service's pod ends. */
  function CreateServicePod(pods: map<string, Pod>, run: string, generation: int, service: string, api: Api): Retry.Tried {
    Retry.Create(PodName(ShortId(run), generation, service) in pods, api.attempts)
  }

  /** The pod that has the service's name after the create: the one that was there, or ours, which can have been
      committed by an attempt that was reported as failed. */
  function Found(pods: map<string, Pod>, run: string, generation: int, service: string): Labels {
    var n := PodName(ShortId(run), generation, service);
    if n in pods then pods[n].labels else BuildLabels(run, generation, service)
  }

  /** Different services with names and images that are allowed. */
  predicate ValidList(services: seq<ServiceSpec>) {
    && (forall a, b | 0 <= a < b < |services| :: services[a].name != services[b].name)
    && (forall k | 0 <= k < |services| :: ValidServiceName(services[k].name) && services[k].image != "")
  }

  predicate IsListError(e: EnsureError) {
    e.DeclaredTwice? || e.InvalidName? || e.EmptyImage?
  }

  predicate IsPodError(e: EnsureError) {
    e.CreateFailed? || e.GetFailed? || e.RefusingReuse?
  }

  /** When EnsureOne succeeds: its own create was answered, or the name was taken by a pod that passes the check. */
  predicate Settles(pods: map<string, Pod>, run: string, generation: int, service: string, api: Api) {
    var end := CreateServicePod(pods, run, generation, service, api).end;
    || end.Created?
    || ((end.Adopted? || end.Collision?) && !api.getFails
        && IsOurPod(Found(pods, run, generation, service), run, service, generation))
  }

  /** The pods this call has built for other services do not matter to a service. */
  lemma SettlesAsBefore(services: seq<ServiceSpec>, k: nat, run: string, generation: int, start: map<string, Pod>,
                        now: map<string, Pod>, i: nat, api: Api)
    requires ValidList(services) && k <= i < |services| && OnlyBuilt(services, k, run, generation, start, now)
    ensures Settles(now, run, generation, services[i].name, api) <==> Settles(start, run, generation, services[i].name, api)
  {
    var name := PodName(ShortId(run), generation, services[i].name);
    if name in now && name !in start {
      var j :| 0 <= j < k && name == PodName(ShortId(run), generation, services[j].name);
      PodNameInjective(ShortId(run), generation, services[i].name, ShortId(run), generation, services[j].name);
    }
  }

  class Cluster {
    var pods: map<string, Pod>
    var nextUid: nat

    ghost predicate Valid()
      reads this
    {
      && (forall n <- pods :: pods[n].uid < nextUid)
      && (forall m, n | m in pods && n in pods && pods[m].uid == pods[n].uid :: m == n)
    }

    constructor ()
      ensures Valid() && pods == map[]
    {
      pods, nextUid := map[], 0;
    }

    /** The pod create: nothing changes when the name is taken. */
    method Create(name: string, labels: Labels) returns (created: bool)
      requires Valid()
      modifies this
      ensures Valid() && created == (name !in old(pods))
      ensures created ==> pods == old(pods)[name := Pod(old(nextUid), labels)] && nextUid == old(nextUid) + 1
      ensures !created ==> pods == old(pods) && nextUid == old(nextUid)
    {
      created := name !in pods;
      if created {
        pods := pods[name := Pod(nextUid, labels)];
        nextUid := nextUid + 1;
      }
    }

    /** The validation pass, before any API call. */
    static method Validate(services: seq<ServiceSpec>) returns (err: Option<EnsureError>)
      ensures err == None <==> ValidList(services)
      ensures err != None ==> IsListError(err.value)
    {
      var seen: set<string> := {};
      for i := 0 to |services|
        invariant seen == set k | 0 <= k < i :: services[k].name
        invariant forall a, b | 0 <= a < b < i :: services[a].name != services[b].name
        invariant forall k | 0 <= k < i :: ValidServiceName(services[k].name) && services[k].image != ""
      {
        var svc := services[i];
        if svc.name in seen {
          return Some(DeclaredTwice(svc.name));
        }
        seen := seen + {svc.name};
        if !ValidServiceName(svc.name) {
          return Some(InvalidName(svc.name));
        }
        if svc.image == "" {
          return Some(EmptyImage(svc.name));
        }
      }
      return None;
    }

    /** On success every service has a pod under its name that belongs to exactly this run, service and
        generation, whoever created it, and its address under its host name; no pod that existed before is
        changed or removed, on success or on error, and nothing is touched when validation fails. */
    method EnsureServices(services: seq<ServiceSpec>, run: string, generation: int, api: ServiceSpec -> Api, address: Kubelet)
      returns (aliases: seq<HostAlias>, err: Option<EnsureError>)
      requires Valid() && InInt64(generation)
      modifies this
      ensures Valid()
      ensures OnlyBuilt(services, |services|, run, generation, old(pods), pods)
      ensures services == [] ==> err == None
      ensures err == Some(EmptyRunId) <==> services != [] && run == ""
      ensures err.Some? && IsListError(err.value) <==> services != [] && run != "" && !ValidList(services)
      ensures err.Some? && IsPodError(err.value) <==>
                services != [] && run != "" && ValidList(services)
                && exists i | 0 <= i < |services| :: !Settles(old(pods), run, generation, services[i].name, api(services[i]))
      ensures err.Some? && err.value.NoAddress? <==>
                services != [] && run != "" && ValidList(services)
                && (forall i | 0 <= i < |services| :: Settles(old(pods), run, generation, services[i].name, api(services[i])))
                && exists i | 0 <= i < |services| :: address(PodName(ShortId(run), generation, services[i].name)) == None
      ensures err.Some? && (err.value.EmptyRunId? || IsListError(err.value)) ==> pods == old(pods)
      ensures err == None ==> EnsuredUpTo(services, |services|, run, generation, old(pods), pods)
      ensures err == None ==> |aliases| == |services| && forall i | 0 <= i < |services| ::
                address(PodName(ShortId(run), generation, services[i].name)) == Some(aliases[i].ip)
                && aliases[i].hostname == services[i].name
      ensures err.Some? ==> aliases == []
    {
      aliases := [];
      if |services| == 0 {
        return [], None;
      }
      if run == "" {
        return [], Some(EmptyRunId);
      }
      err := Validate(services);
      if err != None {
        return;
      }
      hide Ensured;
      hide OnlyBuilt;
      hide Settles;
      hide PodName;
      hide ValidList;
      err := CreatePods(services, run, generation, api);
      if err != None {
        return;
      }
      aliases, err := AwaitAddresses(services, run, generation, address);
    }

    /** The create phase, service after service, up to the first that does not settle. */
    method CreatePods(services: seq<ServiceSpec>, run: string, generation: int, api: ServiceSpec -> Api)
      returns (err: Option<EnsureError>)
      requires Valid() && InInt64(generation) && ValidList(services)
      modifies this
      ensures Valid() && OnlyBuilt(services, |services|, run, generation, old(pods), pods)
      ensures err == None <==>
                forall i | 0 <= i < |services| :: Settles(old(pods), run, generation, services[i].name, api(services[i]))
      ensures err == None ==> EnsuredUpTo(services, |services|, run, generation, old(pods), pods)
      ensures err.Some? ==> IsPodError(err.value)
    {
      hide Ensured;
      hide BuiltFor;
      hide AtMostCreated;
      hide Settles;
      hide PodName;
      err := None;
      for i := 0 to |services|
        invariant Valid() && err == None
        invariant OnlyBuilt(services, i, run, generation, old(pods), pods)
        invariant EnsuredUpTo(services, i, run, generation, old(pods), pods)
        invariant forall k | 0 <= k < i :: Settles(old(pods), run, generation, services[k].name, api(services[k]))
      {
        SettlesAsBefore(services, i, run, generation, old(pods), pods, i, api(services[i]));
        ghost var before := pods;
        err := EnsureOne(services[i], run, generation, api(services[i]));
        OneMoreBuilt(services, i, run, generation, old(pods), before, pods);
        BuiltForAny(services, i + 1, run, generation, old(pods), pods);
        if err != None {
          return;
        }
        OneMoreEnsured(services, i, run, generation, old(pods), before, pods);
      }
    }

    /** The waits run side by side and the first failure ends them all. */
    static method AwaitAddresses(services: seq<ServiceSpec>, run: string, generation: int, address: Kubelet)
      returns (aliases: seq<HostAlias>, err: Option<EnsureError>)
      ensures err == None <==> forall i | 0 <= i < |services| :: address(PodName(ShortId(run), generation, services[i].name)).Some?
      ensures err == None ==> |aliases| == |services| && forall i | 0 <= i < |services| ::
                address(PodName(ShortId(run), generation, services[i].name)) == Some(aliases[i].ip)
                && aliases[i].hostname == services[i].name
      ensures err.Some? ==> err.value.NoAddress? && aliases == []
    {
      hide PodName;
      aliases := [];
      for i := 0 to |services|
        invariant |aliases| == i
        invariant forall k | 0 <= k < i ::
                    address(PodName(ShortId(run), generation, services[k].name)) == Some(aliases[k].ip)
                    && aliases[k].hostname == services[k].name
      {
        var name := PodName(ShortId(run), generation, services[i].name);
        var ip := address(name);
        if ip == None {
          return [], Some(NoAddress(name));
        }
        aliases := aliases + [HostAlias(ip.value, services[i].name)];
      }
      return aliases, None;
    }

    /** Creates one service's pod, retrying while the API is overloaded, or settles for the pod that has its name:
        a sibling's, or its own of an attempt that was reported as failed. */
    method EnsureOne(svc: ServiceSpec, run: string, generation: int, api: Api) returns (err: Option<EnsureError>)
      requires Valid() && InInt64(generation)
      modifies this
      ensures Valid()
      ensures err.Some? ==> IsPodError(err.value)
      ensures
        var end := CreateServicePod(old(pods), run, generation, svc.name, api).end;
        var taken := end.Adopted? || end.Collision?;
        && (err.Some? && err.value.CreateFailed? <==> !end.Created? && !taken)
        && (err.Some? && err.value.GetFailed? <==> taken && api.getFails)
      ensures AtMostCreated(old(pods), pods, run, generation, svc.name)
      ensures PodName(ShortId(run), generation, svc.name) in pods <==>
              CreateServicePod(old(pods), run, generation, svc.name, api).present
      ensures err == None <==> Settles(old(pods), run, generation, svc.name, api)
      ensures err == None ==> Ensured(pods, old(pods), run, generation, svc.name)
    {
      var name, labels := PodName(ShortId(run), generation, svc.name), BuildLabels(run, generation, svc.name);
      Retry.TryFacts(name in pods, false, true, false, api.attempts);
      hide PodName;
      hide IsOurPod;
      var didCreate, failed := RetryCreate(name, labels, api.attempts);
      if failed {
        return Some(CreateFailed(name));
      }
      if !didCreate {
        if api.getFails {
          return Some(GetFailed(name));
        }
        if !IsOurPod(pods[name].labels, run, svc.name, generation) {
          return Some(RefusingReuse(name));
        }
      }
      if ValidLabel(run) {
        BuiltPodIsOurs(run, generation, svc.name, run, svc.name, generation);
      }
      return None;
    }

    /** pollWithBackoff around the create, for which a taken name is a success too. */
    method RetryCreate(name: string, labels: Labels, attempts: seq<Retry.Attempt>) returns (didCreate: bool, failed: bool)
      requires Valid()
      modifies this
      ensures Valid()
      ensures var t := Retry.Create(name in old(pods), attempts);
        && (didCreate <==> t.end.Created?) && (didCreate ==> name !in old(pods))
        && (failed <==> !t.end.Created? && !t.end.Adopted? && !t.end.Collision?)
        && (name in pods <==> t.present)
      ensures pods == old(pods) || (name !in old(pods) && name in pods && pods[name].labels == labels
                                    && pods == old(pods)[name := pods[name]])
    {
      var i := 0;
      ghost var first, ambiguous, ours := true, false, false;
      assert attempts[0..] == attempts;
      while i < |attempts|
        invariant 0 <= i <= |attempts| && Valid()
        invariant pods == old(pods) || (name !in old(pods) && name in pods && pods[name].labels == labels
                                        && pods == old(pods)[name := pods[name]])
        invariant Retry.TryCreate(name in pods, ours, first, ambiguous, attempts[i..]) == Retry.Create(name in old(pods), attempts)
      {
        assert attempts[i..][1..] == attempts[i + 1..];
        var a := attempts[i];
        if a.Answered? {
          didCreate := Create(name, labels);
          return didCreate, false;
        }
        if a.lands {
          var landed := Create(name, labels);
          ours := ours || landed;
        }
        if !a.Transient? {
          return false, true;
        }
        first, ambiguous := false, true;
        i := i + 1;
      }
      return false, true;
    }

    /** CleanupRunServices for one caller: `listFails` and `denied` are the API's
        answers to the list and to the deletes. Exactly the run's pods up to the
        ceiling whose delete is not denied go away; a higher generation and another
        run's pods stay; the call fails exactly when something doomed remains or
        nothing could be listed. */
    method CleanupRunServices(run: string, maxGeneration: int, listFails: bool, denied: set<string>)
      returns (deleted: nat, failed: bool)
      requires Valid()
      modifies this`pods
      ensures Valid()
      ensures !ValidLabel(run) || listFails ==> pods == old(pods) && deleted == 0 && failed
      ensures ValidLabel(run) && !listFails ==>
                var doomed := Doomed(old(pods), run, maxGeneration);
                && pods == old(pods) - (doomed - denied)
                && deleted == |doomed - denied|
                && (failed <==> doomed * denied != {})
                && (!failed ==> Doomed(pods, run, maxGeneration) == {})
    {
      if !ValidLabel(run) || listFails {
        return 0, true;
      }
      var listed := map n | n in pods && Selected(pods[n].labels, run) :: PodGeneration(pods[n].labels);
      deleted, failed := DeleteUpTo(listed, maxGeneration, denied);
      assert UpTo(listed, maxGeneration) == Doomed(old(pods), run, maxGeneration);
      forall n | n in pods && !failed ensures n !in Doomed(pods, run, maxGeneration) {
        assert n !in UpTo(listed, maxGeneration) * denied;
      }
    }

    /** The delete loop over a listing (names with their generations). */
    method DeleteUpTo(listed: map<string, int>, maxGeneration: int, denied: set<string>)
      returns (deleted: nat, failed: bool)
      requires Valid() && listed.Keys <= pods.Keys
      modifies this`pods
      ensures Valid()
      ensures pods == Without(old(pods), UpTo(listed, maxGeneration) - denied)
      ensures deleted == |UpTo(listed, maxGeneration) - denied|
      ensures failed <==> UpTo(listed, maxGeneration) * denied != {}
    {
      hide UpTo;
      hide Without;
      hide Deleted;
      hide Refused;
      deleted, failed := 0, false;
      var items := listed.Keys;
      NothingTaken(pods, listed, maxGeneration, denied);
      while items != {}
        invariant items <= listed.Keys
        invariant pods == Without(old(pods), Deleted(listed, maxGeneration, items, denied))
        invariant deleted == |Deleted(listed, maxGeneration, items, denied)|
        invariant failed <==> Refused(listed, maxGeneration, items, denied) != {}
        decreases |items|
      {
        var n :| n in items;
        TakeItem(listed, maxGeneration, items, n, denied);
        WithoutOneMore(old(pods), Deleted(listed, maxGeneration, items, denied), n);
        items := items - {n};
        if listed[n] > maxGeneration {
          continue;
        }
        if n in denied {
          failed := true;
        } else {
          pods := Without(pods, {n});
          deleted := deleted + 1;
        }
      }
      AllTaken(listed, maxGeneration, denied);
      WithoutKeeps(old(pods), UpTo(listed, maxGeneration) - denied);
    }
  }
}
