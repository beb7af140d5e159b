/**
 * The module-level state of the combo loader extension (_loaderExt.js) and
 * the operations that change it: `combo.add` collects the modules of the next
 * request, `combo.reg` records the server's id-list hash, `sendRequest` turns
 * the collected modules into aggregator requests, and `combo.defineModules`
 * releases the responses in request order.
 */
module ComboLoader {
  import opened Wrappers
  import opened ModuleIds
  import opened PendingLoads
  import opened RequestSplit

  /** A value of the module-id map: a module's numeric id, or the server's id-list hash. */
  datatype IdMapValue = ModuleNumber(id: int) | ListHash(hash: string)

  /** The key under which `combo.reg(null, hash)` stores the hash. */
  const IdListHashKey := "**idListHash**"

  /** The error `combo.reg` throws ("Can't set hash"). */
  datatype RegError = CantSetHash

  /** A request handed to the loader's `load` callback: the module ids and the modules (the URL is not modelled). */
  datatype Request = Request(mids: seq<string>, deps: seq<Dep>)

  /** `deps` and `depmap` hold the same modules, one per name. */
  predicate DepsMatch(deps: seq<Dep>, depmap: map<string, Dep>)
  {
    (forall i :: 0 <= i < |deps| ==> deps[i].name in depmap && depmap[deps[i].name] == deps[i]) &&
    (forall i, j :: 0 <= i < j < |deps| ==> deps[i].name != deps[j].name) &&
    (forall name :: name in depmap ==> exists i :: 0 <= i < |deps| && deps[i].name == name)
  }

  /** The module list `sendRequest` sends: `opt_deps`, or else the collected modules. */
  function Batch(optDeps: Option<seq<Dep>>, deps: seq<Dep>): seq<Dep>
  {
    if optDeps.Some? then optDeps.value else deps
  }

  /** The requests the loader receives for a plan of module lists. */
  function Requests(plan: seq<seq<Dep>>): (r: seq<Request>)
    ensures |r| == |plan| && forall k :: 0 <= k < |plan| ==> r[k] == Request(Mids(plan[k]), plan[k])
  {
    seq(|plan|, k requires 0 <= k < |plan| => Request(Mids(plan[k]), plan[k]))
  }

  /** The pending-load entries queued for a plan of module lists. */
  function Pending(plan: seq<seq<Dep>>): (r: seq<PendingLoad>)
    ensures |r| == |plan| && forall k :: 0 <= k < |plan| ==> r[k] == PendingLoad(Mids(plan[k]), None)
  {
    seq(|plan|, k requires 0 <= k < |plan| => PendingLoad(Mids(plan[k]), None))
  }

  /** The module-id lists of the requests of a plan, in request order. */
  function PlanIds(plan: seq<seq<Dep>>): (r: seq<seq<string>>)
    ensures |r| == |plan| && forall k :: 0 <= k < |plan| ==> r[k] == Mids(plan[k]) && r[k] == Requests(plan)[k].mids
  {
    seq(|plan|, k requires 0 <= k < |plan| => Mids(plan[k]))
  }

  /** The entries queued for a plan are the waiting queue of its requests' id lists. */
  lemma PendingIsEnqueued(plan: seq<seq<Dep>>)
    ensures Pending(plan) == Enqueued(PlanIds(plan))
    ensures MidsOf(Pending(plan)) == PlanIds(plan)
  {
  }

  /**
   * The queue `sendRequest` builds for a plan releases its responses in
   * request order: when each request (with distinct id lists) gets one
   * response, in any order, the callbacks run and the modules are defined in
   * the order the requests were sent, and the queue ends empty.
   */
  lemma PlanReleasesInOrder(plan: seq<seq<Dep>>, cbs: seq<Callback>, order: seq<nat>)
    requires |cbs| == |plan|
    requires forall i, j :: 0 <= i < j < |plan| ==> Mids(plan[i]) != Mids(plan[j])
    requires forall t :: 0 <= t < |order| ==> order[t] < |plan|
    requires forall s, t :: 0 <= s < t < |order| ==> order[s] != order[t]
    requires forall i :: 0 <= i < |plan| ==> i in order
    ensures Replay(Pending(plan), PlanIds(plan), cbs, order) == Response([], cbs, Concat(PlanIds(plan)))
  {
    var ids := PlanIds(plan);
    PendingIsEnqueued(plan);
    assert forall i, j :: 0 <= i < j < |ids| ==> ids[i] != ids[j] by {
      forall i, j | 0 <= i < j < |ids| ensures ids[i] != ids[j] {
        assert ids[i] == Mids(plan[i]) && ids[j] == Mids(plan[j]);
      }
    }
    InOrderRelease(ids, cbs, order);
  }

  lemma PlanAppend(xs: seq<seq<Dep>>, ys: seq<seq<Dep>>)
    ensures Requests(xs + ys) == Requests(xs) + Requests(ys)
    ensures Pending(xs + ys) == Pending(xs) + Pending(ys)
  {
  }

  /** One level of a plan: the plans of the two parts of a split, or the list itself. */
  lemma PlanStep(limits: Limits, isI18n: Dep -> bool, urlLength: seq<Dep> -> nat, ds: seq<Dep>)
    ensures Decide(limits, isI18n, urlLength, ds).ByI18n? ==>
      var split := Decide(limits, isI18n, urlLength, ds);
      Plan(limits, isI18n, urlLength, ds) ==
        Plan(limits, isI18n, urlLength, split.nonI18n) + Plan(limits, isI18n, urlLength, split.i18n)
    ensures Decide(limits, isI18n, urlLength, ds).Halves? ==>
      var split := Decide(limits, isI18n, urlLength, ds);
      Plan(limits, isI18n, urlLength, ds) ==
        Plan(limits, isI18n, urlLength, split.first) + Plan(limits, isI18n, urlLength, split.second)
    ensures Decide(limits, isI18n, urlLength, ds).Send? ==> Plan(limits, isI18n, urlLength, ds) == [ds]
  {
  }

  /** A mixed request is split into its non-i18n and its i18n modules, which together are all of it. */
  lemma MixedStep(limits: Limits, isI18n: Dep -> bool, urlLength: seq<Dep> -> nat, ds: seq<Dep>)
    requires limits.i18nSplit && !limits.serverExpandLayers
    requires |Part(isI18n, ds, false)| > 0 && |Part(isI18n, ds, true)| > 0
    ensures Decide(limits, isI18n, urlLength, ds) == ByI18n(Part(isI18n, ds, false), Part(isI18n, ds, true))
    ensures Plan(limits, isI18n, urlLength, ds) ==
              Plan(limits, isI18n, urlLength, Part(isI18n, ds, false)) + Plan(limits, isI18n, urlLength, Part(isI18n, ds, true))
    ensures |Part(isI18n, ds, false)| + |Part(isI18n, ds, true)| == |ds|
  {
    PartitionExact(isI18n, ds);
    PlanStep(limits, isI18n, urlLength, ds);
  }

  /** An unmixed request of two or more modules whose URL is too long is split into its two halves. */
  lemma HalvesStep(limits: Limits, isI18n: Dep -> bool, urlLength: seq<Dep> -> nat, ds: seq<Dep>)
    requires !Decide(limits, isI18n, urlLength, ds).ByI18n?
    requires TooLong(limits, urlLength, ds) && |ds| >= 2
    ensures Decide(limits, isI18n, urlLength, ds) == Halves(ds[..|ds| / 2], ds[|ds| / 2..])
    ensures Plan(limits, isI18n, urlLength, ds) ==
              Plan(limits, isI18n, urlLength, ds[..|ds| / 2]) + Plan(limits, isI18n, urlLength, ds[|ds| / 2..])
  {
    PlanStep(limits, isI18n, urlLength, ds);
  }

  /** `arraysEqual`: the two module-id lists hold the same ids in the same order. */
  method ArraysEqual(a: seq<string>, b: seq<string>) returns (eq: bool)
    ensures eq <==> a == b
  {
    if |a| != |b| {
      return false;
    }
    for i := 0 to |a|
      invariant a[..i] == b[..i]
    {
      if a[i] != b[i] {
        return false;
      }
    }
    assert a == a[..|a|] && b == b[..|b|];
    return true;
  }

  /** The search loop of `defineModules`: the first pending load for `modules`, or -1. */
  method FindPending(q: seq<PendingLoad>, modules: seq<string>) returns (index: int)
    ensures -1 <= index < |q|
    ensures index >= 0 ==> q[index].mids == modules && forall k :: 0 <= k < index ==> q[k].mids != modules
    ensures index == -1 ==> forall k :: 0 <= k < |q| ==> q[k].mids != modules
  {
    index := -1;
    for i := 0 to |q|
      invariant forall k :: 0 <= k < i ==> q[k].mids != modules
    {
      var eq := ArraysEqual(q[i].mids, modules);
      if eq {
        index := i;
        return;
      }
    }
  }

  /** The partition loop of `sendRequest`: the i18n and the other modules, each in request order. */
  method Partition(isI18n: Dep -> bool, ds: seq<Dep>) returns (i18nModules: seq<Dep>, nonI18nModules: seq<Dep>)
    ensures i18nModules == Part(isI18n, ds, true) && nonI18nModules == Part(isI18n, ds, false)
  {
    i18nModules, nonI18nModules := [], [];
    for i := 0 to |ds|
      invariant i18nModules == Part(isI18n, ds[..i], true)
      invariant nonI18nModules == Part(isI18n, ds[..i], false)
    {
      assert ds[..i + 1][..i] == ds[..i];
      if isI18n(ds[i]) {
        i18nModules := i18nModules + [ds[i]];
      } else {
        nonI18nModules := nonI18nModules + [ds[i]];
      }
    }
    assert ds[..|ds|] == ds;
  }

  /** The module-id loop of `sendRequest`. */
  method ModuleIdsOf(ds: seq<Dep>) returns (mids: seq<string>)
    ensures mids == Mids(ds)
  {
    mids := [];
    for i := 0 to |ds|
      invariant mids == Mids(ds[..i])
    {
      assert ds[..i + 1][..i] == ds[..i];
      mids := mids + [Mid(ds[i])];
    }
    assert ds[..|ds|] == ds;
  }

  lemma DrainStep(queue: seq<PendingLoad>)
    requires |queue| > 0 && queue[0].cb.Some?
    ensures Drain(queue) == Response(Drain(queue[1..]).queue, [queue[0].cb.value] + Drain(queue[1..]).ran, queue[0].mids + Drain(queue[1..]).defines)
  {
  }
  lemma AppendAssoc<T>(a: seq<T>, b: seq<T>, c: seq<T>)
    ensures a + (b + c) == (a + b) + c
  {
  }

  /** The release loop of `defineModules`: pops adjacent answered entries off the queue. */
  method DrainLoop(q: seq<PendingLoad>) returns (queue: seq<PendingLoad>, ran: seq<Callback>, defines: seq<string>)
    ensures Response(queue, ran, defines) == Drain(q)
  {
    queue, ran, defines := q, [], [];
    while |queue| > 0
      invariant Drain(q) == Response(Drain(queue).queue, ran + Drain(queue).ran, defines + Drain(queue).defines)
      decreases |queue|
    {
      var pendingLoad := queue[0];
      if pendingLoad.cb.None? {
        break;
      }
      DrainStep(queue);
      AppendAssoc(ran, [pendingLoad.cb.value], Drain(queue[1..]).ran);
      AppendAssoc(defines, pendingLoad.mids, Drain(queue[1..]).defines);
      defines := defines + pendingLoad.mids;
      ran := ran + [pendingLoad.cb.value];
      queue := queue[1..];
    }
    assert ran + [] == ran && defines + [] == defines;
  }

  class Loader {
    /** The modules collected for the next request, in the order `combo.add` accepted them. */
    var deps: seq<Dep>
    /** The same modules by name. */
    var depmap: map<string, Dep>
    /** Module name to numeric id, or the id-list hash. */
    var moduleIdMap: map<string, IdMapValue>
    /** The cumulative exclude list. */
    var excludes: seq<Dep>
    /** Requests whose responses have not yet been released, in request order. */
    var pendingLoads: seq<PendingLoad>
    /** The requests handed to the loader so far, in order. */
    var sent: seq<Request>

    /** The registered loader plugins (`combo.plugins`). */
    const plugins: set<string>
    const limits: Limits
    /** The application's `combo.isSupportedModule`, or one that accepts everything. */
    const userSupported: string -> bool
    /** The application's `combo.isI18nResource`, when it configured one. */
    const customI18n: Option<Dep -> bool>
    /** `combo.isI18nResource`: the application's test, or the default one. */
    const isI18n: Dep -> bool
    /** The length of the request URL for a module list and an exclude list. */
    const urlLength: (seq<Dep>, seq<Dep>) -> nat

    ghost predicate Valid()
      reads this
    {
      DepsMatch(deps, depmap) && HeadPending(pendingLoads)
    }

    constructor (plugins: set<string>, limits: Limits, userSupported: string -> bool,
                 customI18n: Option<Dep -> bool>, urlLength: (seq<Dep>, seq<Dep>) -> nat)
      ensures Valid()
      ensures deps == [] && depmap == map[] && moduleIdMap == map[] && excludes == [] && pendingLoads == [] && sent == []
      ensures this.plugins == plugins && this.limits == limits && this.userSupported == userSupported
      ensures this.customI18n == customI18n && this.urlLength == urlLength
      ensures forall d :: isI18n(d) == IsI18nResource(customI18n, plugins, d)
    {
      this.plugins := plugins;
      this.limits := limits;
      this.userSupported := userSupported;
      this.customI18n := customI18n;
      this.isI18n := d => IsI18nResource(customI18n, plugins, d);
      this.urlLength := urlLength;
      deps, depmap, moduleIdMap, excludes, pendingLoads, sent := [], map[], map[], [], [], [];
    }

    /** The URL-length oracle for a fixed exclude list. */
    function UrlLengthWith(ex: seq<Dep>): seq<Dep> -> nat
    {
      ds => urlLength(ds, ex)
    }

    /**
     * `combo.add(prefix, name, url, config)`, with `cache` the names in the
     * loader's module cache. Rejects cached and unsupported modules; otherwise
     * records the module once, if it has no prefix or a registered one, and
     * reports whether it is recorded.
     */
    method Add(prefix: string, name: string, cache: set<string>) returns (canHandle: bool)
      requires Valid()
      modifies this`deps, this`depmap
      ensures Valid()
      ensures name in cache || !IsSupportedModule(userSupported, name) ==>
                !canHandle && deps == old(deps) && depmap == old(depmap)
      ensures name !in cache && IsSupportedModule(userSupported, name) ==>
                canHandle == (name in depmap) &&
                if name !in old(depmap) && (prefix == "" || prefix in plugins)
                then deps == old(deps) + [Dep(prefix, name)] && depmap == old(depmap)[name := Dep(prefix, name)]
                else deps == old(deps) && depmap == old(depmap)
    {
      if name in cache || !IsSupportedModule(userSupported, name) {
        return false;
      }
      if name !in depmap && (prefix == "" || prefix in plugins) {
        var d := Dep(prefix, name);
        depmap := depmap[name := d];
        deps := deps + [d];
        forall k | k in depmap ensures exists i :: 0 <= i < |deps| && deps[i].name == k {
          if k != name {
            var i :| 0 <= i < |old(deps)| && old(deps)[i].name == k;
            assert deps[i].name == k;
          } else {
            assert deps[|deps| - 1].name == k;
          }
        }
      }
      canHandle := name in depmap;
    }

    /** `combo.reg(null, hash)`: records the id-list hash, but only in an empty id map. */
    method RegHash(hash: string) returns (r: Result<(), RegError>)
      modifies this`moduleIdMap
      ensures |old(moduleIdMap)| > 0 ==> r == Err(CantSetHash) && moduleIdMap == old(moduleIdMap)
      ensures |old(moduleIdMap)| == 0 ==> r == Ok(()) && moduleIdMap == map[IdListHashKey := ListHash(hash)]
    {
      if |moduleIdMap| > 0 {
        return Err(CantSetHash);
      }
      moduleIdMap := moduleIdMap[IdListHashKey := ListHash(hash)];
      return Ok(());
    }

    /** `combo.addBootLayerDeps`: adds modules to the exclude list. */
    method AddBootLayerDeps(ds: seq<Dep>)
      modifies this`excludes
      ensures excludes == old(excludes) + ds
    {
      excludes := excludes + ds;
    }

    /** `combo.resetExcludeList`: empties the exclude list. */
    method ResetExcludeList()
      modifies this`excludes
      ensures excludes == []
    {
      excludes := [];
    }

    /**
     * The end of `sendRequest` for a list it does not split: with
     * server-expanded layers the collected modules join the exclude list and
     * the request is queued; the collected modules are cleared when they are
     * what was sent; the request goes to the loader.
     */
    method Dispatch(ds: seq<Dep>, mids: seq<string>, sendsCollected: bool)
      requires Valid()
      modifies this`deps, this`depmap, this`excludes, this`pendingLoads, this`sent
      ensures Valid()
      ensures sent == old(sent) + [Request(mids, ds)]
      ensures pendingLoads == old(pendingLoads) + (if limits.serverExpandLayers then [PendingLoad(mids, None)] else [])
      ensures excludes == old(excludes) + (if limits.serverExpandLayers then old(deps) else [])
      ensures sendsCollected ==> deps == [] && depmap == map[]
      ensures !sendsCollected ==> deps == old(deps) && depmap == old(depmap)
    {
      if limits.serverExpandLayers {
        excludes := excludes + deps;
        pendingLoads := pendingLoads + [PendingLoad(mids, None)];
      }
      if sendsCollected {
        deps, depmap := [], map[];
      }
      sent := sent + [Request(mids, ds)];
    }

    /** How `sendRequest` treats the list `ds` when the exclude list is `ex`. */
    ghost function DecideFor(ds: seq<Dep>, ex: seq<Dep>): Split
    {
      Decide(limits, isI18n, UrlLengthWith(ex), ds)
    }

    /** The module lists of the requests `sendRequest` hands to the loader for `ds` when the exclude list is `ex`. */
    ghost function PlanFor(ds: seq<Dep>, ex: seq<Dep>): seq<seq<Dep>>
    {
      Plan(limits, isI18n, UrlLengthWith(ex), ds)
    }

    /** The plan of a mixed list is the plan of its non-i18n part followed by that of its i18n part. */
    lemma MixedPlan(ds: seq<Dep>, ex: seq<Dep>)
      requires limits.i18nSplit && !limits.serverExpandLayers
      requires |Part(isI18n, ds, false)| > 0 && |Part(isI18n, ds, true)| > 0
      ensures DecideFor(ds, ex).ByI18n?
      ensures PlanFor(ds, ex) == PlanFor(Part(isI18n, ds, false), ex) + PlanFor(Part(isI18n, ds, true), ex)
      ensures |Part(isI18n, ds, false)| + |Part(isI18n, ds, true)| == |ds|
    {
      MixedStep(limits, isI18n, UrlLengthWith(ex), ds);
    }

    /** The plan of a list halved for its length is the plan of its first half followed by that of its second. */
    lemma HalvesPlan(ds: seq<Dep>, ex: seq<Dep>)
      requires !DecideFor(ds, ex).ByI18n?
      requires limits.maxUrlLength != 0 && urlLength(ds, ex) > limits.maxUrlLength && |ds| >= 2
      ensures DecideFor(ds, ex).Halves?
      ensures PlanFor(ds, ex) == PlanFor(ds[..|ds| / 2], ex) + PlanFor(ds[|ds| / 2..], ex)
    {
      assert TooLong(limits, UrlLengthWith(ex), ds);
      HalvesStep(limits, isI18n, UrlLengthWith(ex), ds);
    }

    /** The two recursive `sendRequest` calls of a split, after it cleared the collected modules. */
    method SendParts(first: seq<Dep>, second: seq<Dep>)
      requires HeadPending(pendingLoads) && deps == [] && depmap == map[]
      requires |first| > 0 && |second| > 0
      modifies this`deps, this`depmap, this`excludes, this`pendingLoads, this`sent
      ensures Valid()
      ensures sent == old(sent) + Requests(PlanFor(first, old(excludes)) + PlanFor(second, old(excludes)))
      ensures pendingLoads == old(pendingLoads) +
                (if limits.serverExpandLayers then Pending(PlanFor(first, old(excludes)) + PlanFor(second, old(excludes))) else [])
      ensures excludes == old(excludes) && deps == [] && depmap == map[]
      decreases |first| + |second|, 0
    {
      ghost var p1 := PlanFor(first, excludes);
      ghost var p2 := PlanFor(second, excludes);
      ghost var sent0, pending0 := sent, pendingLoads;
      SendRequest(Some(first));
      assert excludes == old(excludes) + [] == old(excludes);
      assert sent == sent0 + Requests(p1);
      ghost var sent1, pending1 := sent, pendingLoads;
      SendRequest(Some(second));
      assert excludes == old(excludes) + [] == old(excludes);
      assert sent == sent1 + Requests(p2);
      PlanAppend(p1, p2);
      AppendAssoc(sent0, Requests(p1), Requests(p2));
      AppendAssoc(pending0, Pending(p1), Pending(p2));
    }

    /**
     * `sendRequest(load, config, opt_deps)`: `optDeps == None` sends the
     * collected modules. The requests handed to the loader are the plan of
     * the module list; with server-expanded layers each one is also queued.
     * A split clears the collected modules and leaves the exclude list alone;
     * an unsplit send adds the collected modules to the exclude list (with
     * server-expanded layers) and clears them when it sent them itself.
     */
    method SendRequest(optDeps: Option<seq<Dep>>)
      requires Valid()
      modifies this`deps, this`depmap, this`excludes, this`pendingLoads, this`sent
      ensures Valid()
      ensures sent == old(sent) + Requests(PlanFor(Batch(optDeps, old(deps)), old(excludes)))
      ensures limits.serverExpandLayers ==>
                pendingLoads == old(pendingLoads) + Pending(PlanFor(Batch(optDeps, old(deps)), old(excludes)))
      ensures !limits.serverExpandLayers ==> pendingLoads == old(pendingLoads)
      ensures DecideFor(Batch(optDeps, old(deps)), old(excludes)).Send? ==>
                excludes == old(excludes) + (if limits.serverExpandLayers then old(deps) else []) &&
                (optDeps.None? ==> deps == [] && depmap == map[]) &&
                (optDeps.Some? ==> deps == old(deps) && depmap == old(depmap))
      ensures !DecideFor(Batch(optDeps, old(deps)), old(excludes)).Send? ==>
                excludes == old(excludes) && deps == [] && depmap == map[]
      decreases |Batch(optDeps, deps)|, 3
    {
      var ds := Batch(optDeps, deps);
      var i18nModules, nonI18nModules, mixed := [], [], false;
      if limits.i18nSplit && !limits.serverExpandLayers {
        i18nModules, nonI18nModules := Partition(isI18n, ds);
        mixed := |i18nModules| > 0 && |nonI18nModules| > 0;
      }
      if mixed {
        SendMixed(ds, nonI18nModules, i18nModules);
      } else {
        SendUnmixed(ds, optDeps.None?);
      }
    }

    /** The i18n split of `sendRequest`: the collected modules are cleared and each part is sent on its own. */
    method SendMixed(ds: seq<Dep>, nonI18nModules: seq<Dep>, i18nModules: seq<Dep>)
      requires Valid()
      requires limits.i18nSplit && !limits.serverExpandLayers
      requires nonI18nModules == Part(isI18n, ds, false) && |nonI18nModules| > 0
      requires i18nModules == Part(isI18n, ds, true) && |i18nModules| > 0
      modifies this`deps, this`depmap, this`excludes, this`pendingLoads, this`sent
      ensures Valid()
      ensures DecideFor(ds, old(excludes)).ByI18n?
      ensures sent == old(sent) + Requests(PlanFor(ds, old(excludes)))
      ensures excludes == old(excludes) && pendingLoads == old(pendingLoads) && deps == [] && depmap == map[]
      decreases |ds|, 1
    {
      MixedPlan(ds, excludes);
      deps, depmap := [], map[];
      SendParts(nonI18nModules, i18nModules);
    }

    /** The rest of `sendRequest` for a list the i18n split leaves whole: halve it when its URL is too long, else send it. */
    method SendUnmixed(ds: seq<Dep>, sendsCollected: bool)
      requires Valid()
      requires sendsCollected ==> ds == deps
      requires !DecideFor(ds, excludes).ByI18n?
      modifies this`deps, this`depmap, this`excludes, this`pendingLoads, this`sent
      ensures Valid()
      ensures sent == old(sent) + Requests(PlanFor(ds, old(excludes)))
      ensures limits.serverExpandLayers ==> pendingLoads == old(pendingLoads) + Pending(PlanFor(ds, old(excludes)))
      ensures !limits.serverExpandLayers ==> pendingLoads == old(pendingLoads)
      ensures DecideFor(ds, old(excludes)).Send? ==>
                excludes == old(excludes) + (if limits.serverExpandLayers then old(deps) else []) &&
                (sendsCollected ==> deps == [] && depmap == map[]) &&
                (!sendsCollected ==> deps == old(deps) && depmap == old(depmap))
      ensures !DecideFor(ds, old(excludes)).Send? ==> excludes == old(excludes) && deps == [] && depmap == map[]
      decreases |ds|, 2
    {
      var mids := ModuleIdsOf(ds);
      if limits.maxUrlLength != 0 && urlLength(ds, excludes) > limits.maxUrlLength && |ds| >= 2 {
        // over-long request: send each half separately
        var parta, partb := ds[..|ds| / 2], ds[|ds| / 2..];
        SendHalves(ds, parta, partb);
      } else {
        assert DecideFor(ds, excludes) == Send;
        PlanStep(limits, isI18n, UrlLengthWith(excludes), ds);
        Dispatch(ds, mids, sendsCollected);
      }
    }

    /** The halving of `sendRequest`: the collected modules are cleared and each half is sent on its own. */
    method SendHalves(ds: seq<Dep>, parta: seq<Dep>, partb: seq<Dep>)
      requires Valid()
      requires !DecideFor(ds, excludes).ByI18n?
      requires limits.maxUrlLength != 0 && urlLength(ds, excludes) > limits.maxUrlLength && |ds| >= 2
      requires parta == ds[..|ds| / 2] && partb == ds[|ds| / 2..]
      modifies this`deps, this`depmap, this`excludes, this`pendingLoads, this`sent
      ensures Valid()
      ensures DecideFor(ds, old(excludes)).Halves?
      ensures sent == old(sent) + Requests(PlanFor(ds, old(excludes)))
      ensures pendingLoads == old(pendingLoads) + (if limits.serverExpandLayers then Pending(PlanFor(ds, old(excludes))) else [])
      ensures excludes == old(excludes) && deps == [] && depmap == map[]
      decreases |ds|, 1
    {
      HalvesPlan(ds, excludes);
      deps, depmap := [], map[];
      SendParts(parta, partb);
    }

    /**
     * `combo.defineModules(modules, callback)`: returns the callbacks it runs,
     * in the order it runs them, and the module ids the loader's id array for
     * this response holds afterwards.
     */
    method DefineModules(modules: seq<string>, callback: Callback) returns (ran: seq<Callback>, defines: seq<string>)
      requires Valid()
      modifies this`pendingLoads
      ensures Valid()
      ensures Response(pendingLoads, ran, defines) == Respond(old(pendingLoads), modules, callback)
    {
      var index := FindPending(pendingLoads, modules);
      assert index == IndexOf(pendingLoads, modules);
      if index == -1 {
        // an unexpected response: run its callback at once
        ran, defines := [callback], modules;
      } else if index == 0 {
        // the head: run it and every adjacent response that already came
        var head := pendingLoads[0].mids;
        var queue, callbacks, mids := DrainLoop(pendingLoads[1..]);
        pendingLoads := queue;
        ran, defines := [callback] + callbacks, head + mids;
      } else {
        // a later entry: keep the callback until the entries before it are released
        var pendingLoad := pendingLoads[index];
        pendingLoads := pendingLoads[index := PendingLoad(pendingLoad.mids, Some(callback))];
        ran, defines := [], [];
      }
      RespondKeepsHeadPending(old(pendingLoads), modules, callback);
    }
  }
}
