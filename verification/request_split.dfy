/**
 * How `sendRequest` in the combo loader extension (_loaderExt.js) splits a
 * module list into several aggregator requests: first into its non-i18n and
 * i18n parts, then, while the request URL is too long, into halves. The URL
 * text is built by code that is not part of this model; its length is an
 * oracle `urlLength` on the module list (the exclude list, the feature
 * argument and the id map stay fixed while one list is split).
 */
module RequestSplit {
  import opened ModuleIds

  /** The configuration that steers the split. `maxUrlLength == 0` disables the length check. */
  datatype Limits = Limits(maxUrlLength: nat, i18nSplit: bool, serverExpandLayers: bool)

  /** What `sendRequest` does with one module list. */
  datatype Split = ByI18n(nonI18n: seq<Dep>, i18n: seq<Dep>) | Halves(first: seq<Dep>, second: seq<Dep>) | Send

  /** The modules of `ds` for which `isI18n` is `keep`, in input order (the partition loop). */
  function Part(isI18n: Dep -> bool, ds: seq<Dep>, keep: bool): (r: seq<Dep>)
    ensures |r| <= |ds|
    ensures forall i :: 0 <= i < |r| ==> isI18n(r[i]) == keep
  {
    if ds == [] then []
    else Part(isI18n, ds[..|ds| - 1], keep) + (if isI18n(ds[|ds| - 1]) == keep then [ds[|ds| - 1]] else [])
  }

  /** The last module of a list goes to the side its test picks. */
  lemma PartLast(isI18n: Dep -> bool, ds: seq<Dep>)
    requires ds != []
    ensures var init, last := ds[..|ds| - 1], ds[|ds| - 1];
      if isI18n(last)
      then Part(isI18n, ds, true) == Part(isI18n, init, true) + [last] && Part(isI18n, ds, false) == Part(isI18n, init, false)
      else Part(isI18n, ds, true) == Part(isI18n, init, true) && Part(isI18n, ds, false) == Part(isI18n, init, false) + [last]
  {
  }

  /** Together the two parts hold each module of the list as often as the list does. */
  lemma {:induction false} PartitionCount(isI18n: Dep -> bool, ds: seq<Dep>)
    ensures multiset(Part(isI18n, ds, false)) + multiset(Part(isI18n, ds, true)) == multiset(ds)
  {
    if ds != [] {
      var init, last := ds[..|ds| - 1], ds[|ds| - 1];
      PartitionCount(isI18n, init);
      PartLast(isI18n, ds);
      InitLast(ds);
      CountStep(Part(isI18n, init, true), Part(isI18n, init, false), init, last,
                Part(isI18n, ds, true), Part(isI18n, ds, false));
    }
  }

  /** A non-empty list is its front followed by its last module. */
  lemma InitLast(ds: seq<Dep>)
    requires ds != []
    ensures ds == ds[..|ds| - 1] + [ds[|ds| - 1]]
  {
  }

  /** Adding one module to one side of a partition of a list partitions the list extended by it. */
  lemma CountStep(t: seq<Dep>, f: seq<Dep>, init: seq<Dep>, last: Dep, t2: seq<Dep>, f2: seq<Dep>)
    requires multiset(f) + multiset(t) == multiset(init)
    requires (t2 == t + [last] && f2 == f) || (t2 == t && f2 == f + [last])
    ensures multiset(f2) + multiset(t2) == multiset(init + [last])
  {
  }

  /** The two parts together are as long as the list. */
  lemma PartitionSizes(isI18n: Dep -> bool, ds: seq<Dep>)
    ensures |Part(isI18n, ds, false)| + |Part(isI18n, ds, true)| == |ds|
  {
    PartitionCount(isI18n, ds);
    assert |multiset(Part(isI18n, ds, false)) + multiset(Part(isI18n, ds, true))| == |multiset(ds)|;
  }

  /** The two parts of the partition hold exactly the modules of the list, each on its own side. */
  lemma PartitionExact(isI18n: Dep -> bool, ds: seq<Dep>)
    ensures multiset(Part(isI18n, ds, false)) + multiset(Part(isI18n, ds, true)) == multiset(ds)
    ensures |Part(isI18n, ds, false)| + |Part(isI18n, ds, true)| == |ds|
    ensures forall d :: d in Part(isI18n, ds, true) ==> isI18n(d)
    ensures forall d :: d in Part(isI18n, ds, false) ==> !isI18n(d)
  {
    PartitionCount(isI18n, ds);
    PartitionSizes(isI18n, ds);
  }

  /** The URL for `ds` is over the limit. */
  predicate TooLong(limits: Limits, urlLength: seq<Dep> -> nat, ds: seq<Dep>)
  {
    limits.maxUrlLength != 0 && urlLength(ds) > limits.maxUrlLength
  }

  /** The i18n split applies and the list holds modules of both kinds. */
  predicate Mixed(limits: Limits, isI18n: Dep -> bool, ds: seq<Dep>)
  {
    limits.i18nSplit && !limits.serverExpandLayers && |Part(isI18n, ds, true)| > 0 && |Part(isI18n, ds, false)| > 0
  }

  /** The decision of sendRequest as written: an over-long request is halved whatever its size. */
  function DecideAsWritten(limits: Limits, isI18n: Dep -> bool, urlLength: seq<Dep> -> nat, ds: seq<Dep>): (r: Split)
    ensures r.ByI18n? <==> Mixed(limits, isI18n, ds)
    ensures r.Halves? <==> !Mixed(limits, isI18n, ds) && TooLong(limits, urlLength, ds)
    ensures r.ByI18n? ==> r.nonI18n == Part(isI18n, ds, false) && r.i18n == Part(isI18n, ds, true)
    ensures r.Halves? ==> r.first + r.second == ds && |r.first| == |ds| / 2
  {
    var non, i18n := Part(isI18n, ds, false), Part(isI18n, ds, true);
    if limits.i18nSplit && !limits.serverExpandLayers && |i18n| > 0 && |non| > 0 then ByI18n(non, i18n)
    else if TooLong(limits, urlLength, ds) then
      assert ds[..|ds| / 2] + ds[|ds| / 2..] == ds;
      Halves(ds[..|ds| / 2], ds[|ds| / 2..])
    else Send
  }

  /**
   * As written, a request of fewer than two modules whose URL is still too
   * long is "halved" into an empty list and the same list again, so
   * sendRequest calls itself with its own arguments and never returns.
   */
  lemma AsWrittenHalvingMakesNoProgress(limits: Limits, isI18n: Dep -> bool, urlLength: seq<Dep> -> nat, ds: seq<Dep>)
    requires |ds| < 2 && TooLong(limits, urlLength, ds)
    ensures DecideAsWritten(limits, isI18n, urlLength, ds) == Halves([], ds)
  {
    if |ds| == 1 {
      PartitionExact(isI18n, ds);
    }
  }

  /** The corrected decision: a request of fewer than two modules is sent as it is. */
  function Decide(limits: Limits, isI18n: Dep -> bool, urlLength: seq<Dep> -> nat, ds: seq<Dep>): (r: Split)
    ensures r.ByI18n? <==> Mixed(limits, isI18n, ds)
    ensures r.Halves? <==> !Mixed(limits, isI18n, ds) && TooLong(limits, urlLength, ds) && |ds| >= 2
    ensures r.ByI18n? ==> r.nonI18n == Part(isI18n, ds, false) && r.i18n == Part(isI18n, ds, true)
    ensures r.ByI18n? ==> |r.nonI18n| + |r.i18n| == |ds|
    ensures r.Halves? ==> r.first + r.second == ds && |r.first| == |ds| / 2
    ensures r.ByI18n? ==> 0 < |r.nonI18n| < |ds| && 0 < |r.i18n| < |ds|
    ensures r.Halves? ==> 0 < |r.first| < |ds| && 0 < |r.second| < |ds|
    ensures r.Send? ==> !TooLong(limits, urlLength, ds) || |ds| < 2
  {
    PartitionSizes(isI18n, ds);
    var non, i18n := Part(isI18n, ds, false), Part(isI18n, ds, true);
    if limits.i18nSplit && !limits.serverExpandLayers && |i18n| > 0 && |non| > 0 then ByI18n(non, i18n)
    else if TooLong(limits, urlLength, ds) && |ds| >= 2 then
      assert ds[..|ds| / 2] + ds[|ds| / 2..] == ds;
      Halves(ds[..|ds| / 2], ds[|ds| / 2..])
    else Send
  }

  /** The module lists of the requests sendRequest finally hands to the loader, in the order it sends them. */
  function Plan(limits: Limits, isI18n: Dep -> bool, urlLength: seq<Dep> -> nat, ds: seq<Dep>): (r: seq<seq<Dep>>)
    ensures 1 <= |r|
    ensures ds != [] ==> |r| <= |ds| && forall k :: 0 <= k < |r| ==> r[k] != []
    decreases |ds|
  {
    match Decide(limits, isI18n, urlLength, ds)
    case ByI18n(non, i18n) => Plan(limits, isI18n, urlLength, non) + Plan(limits, isI18n, urlLength, i18n)
    case Halves(a, b) => Plan(limits, isI18n, urlLength, a) + Plan(limits, isI18n, urlLength, b)
    case Send => [ds]
  }

  /** The concatenation of a list of module lists. */
  function Flatten(ls: seq<seq<Dep>>): seq<Dep>
  {
    if ls == [] then [] else Flatten(ls[..|ls| - 1]) + ls[|ls| - 1]
  }

  lemma {:induction false} FlattenAppend(xs: seq<seq<Dep>>, ys: seq<seq<Dep>>)
    ensures Flatten(xs + ys) == Flatten(xs) + Flatten(ys)
    decreases |ys|
  {
    if ys != [] {
      var init := ys[..|ys| - 1];
      assert (xs + ys)[..|xs + ys| - 1] == xs + init;
      FlattenAppend(xs, init);
    } else {
      assert xs + ys == xs;
    }
  }

  /** No module is lost or duplicated: the requests sent hold exactly the modules of the list. */
  lemma {:induction false} PlanKeepsModules(limits: Limits, isI18n: Dep -> bool, urlLength: seq<Dep> -> nat, ds: seq<Dep>)
    ensures multiset(Flatten(Plan(limits, isI18n, urlLength, ds))) == multiset(ds)
    decreases |ds|
  {
    match Decide(limits, isI18n, urlLength, ds)
    case ByI18n(non, i18n) =>
      PlanKeepsModules(limits, isI18n, urlLength, non);
      PlanKeepsModules(limits, isI18n, urlLength, i18n);
      FlattenAppend(Plan(limits, isI18n, urlLength, non), Plan(limits, isI18n, urlLength, i18n));
      PartitionExact(isI18n, ds);
    case Halves(a, b) =>
      PlanKeepsModules(limits, isI18n, urlLength, a);
      PlanKeepsModules(limits, isI18n, urlLength, b);
      FlattenAppend(Plan(limits, isI18n, urlLength, a), Plan(limits, isI18n, urlLength, b));
    case Send =>
      assert Flatten([ds]) == Flatten([]) + ds;
  }

  /** All the modules of the list are of one kind. */
  predicate OneKind(isI18n: Dep -> bool, ds: seq<Dep>)
  {
    (forall d :: d in ds ==> isI18n(d)) || (forall d :: d in ds ==> !isI18n(d))
  }

  /** A list of one kind is never split by kind. */
  lemma NotMixed(limits: Limits, isI18n: Dep -> bool, ds: seq<Dep>)
    requires OneKind(isI18n, ds)
    ensures !Mixed(limits, isI18n, ds)
  {
    var t, f := Part(isI18n, ds, true), Part(isI18n, ds, false);
    PartitionCount(isI18n, ds);
    forall i | 0 <= i < |t| ensures t[i] in ds {
      assert t[i] in multiset(ds);
    }
    forall i | 0 <= i < |f| ensures f[i] in ds {
      assert f[i] in multiset(ds);
    }
  }

  /** Both halves of a list of one kind are of that kind. */
  lemma HalvesOneKind(isI18n: Dep -> bool, ds: seq<Dep>, a: seq<Dep>, b: seq<Dep>)
    requires OneKind(isI18n, ds) && a + b == ds
    ensures OneKind(isI18n, a) && OneKind(isI18n, b)
  {
    assert forall d :: d in a ==> d in ds;
    assert forall d :: d in b ==> d in ds;
  }

  /** Halving keeps the order: for a list the i18n split leaves whole, the requests sent, concatenated, are the list itself. */
  lemma {:induction false} PlanKeepsOrder(limits: Limits, isI18n: Dep -> bool, urlLength: seq<Dep> -> nat, ds: seq<Dep>)
    requires OneKind(isI18n, ds) || !limits.i18nSplit || limits.serverExpandLayers
    ensures Flatten(Plan(limits, isI18n, urlLength, ds)) == ds
    decreases |ds|
  {
    if OneKind(isI18n, ds) {
      NotMixed(limits, isI18n, ds);
    }
    match Decide(limits, isI18n, urlLength, ds)
    case Halves(a, b) =>
      if OneKind(isI18n, ds) {
        HalvesOneKind(isI18n, ds, a, b);
      }
      PlanKeepsOrder(limits, isI18n, urlLength, a);
      PlanKeepsOrder(limits, isI18n, urlLength, b);
      FlattenAppend(Plan(limits, isI18n, urlLength, a), Plan(limits, isI18n, urlLength, b));
    case Send =>
      assert Flatten([ds]) == Flatten([]) + ds;
  }

  /** A request as sendRequest finally sends it: within the URL limit unless it holds fewer than two modules, and not mixed when the i18n split is on. */
  predicate Fits(limits: Limits, isI18n: Dep -> bool, urlLength: seq<Dep> -> nat, r: seq<Dep>)
  {
    (!TooLong(limits, urlLength, r) || |r| < 2) &&
    (limits.i18nSplit && !limits.serverExpandLayers ==> OneKind(isI18n, r))
  }

  /** A list with an empty part is on one side only. */
  lemma {:induction false} Unmixed(isI18n: Dep -> bool, ds: seq<Dep>)
    requires |Part(isI18n, ds, true)| == 0 || |Part(isI18n, ds, false)| == 0
    ensures OneKind(isI18n, ds)
  {
    PartitionExact(isI18n, ds);
    if |Part(isI18n, ds, true)| == 0 {
      assert Part(isI18n, ds, true) == [];
      assert multiset(Part(isI18n, ds, false)) == multiset(ds);
      forall d | d in ds ensures !isI18n(d) {
        assert d in multiset(ds);
        assert d in multiset(Part(isI18n, ds, false));
      }
    } else {
      assert Part(isI18n, ds, false) == [];
      assert multiset(Part(isI18n, ds, true)) == multiset(ds);
      forall d | d in ds ensures isI18n(d) {
        assert d in multiset(ds);
        assert d in multiset(Part(isI18n, ds, true));
      }
    }
  }

  /** Every request sent fits the URL limit unless it holds fewer than two modules, and never mixes i18n and non-i18n modules when the i18n split is on. */
  lemma {:induction false} PlanRequestsFit(limits: Limits, isI18n: Dep -> bool, urlLength: seq<Dep> -> nat, ds: seq<Dep>)
    ensures forall k :: 0 <= k < |Plan(limits, isI18n, urlLength, ds)| ==>
              Fits(limits, isI18n, urlLength, Plan(limits, isI18n, urlLength, ds)[k])
    decreases |ds|
  {
    match Decide(limits, isI18n, urlLength, ds)
    case ByI18n(non, i18n) =>
      PlanRequestsFit(limits, isI18n, urlLength, non);
      PlanRequestsFit(limits, isI18n, urlLength, i18n);
    case Halves(a, b) =>
      PlanRequestsFit(limits, isI18n, urlLength, a);
      PlanRequestsFit(limits, isI18n, urlLength, b);
    case Send =>
      if limits.i18nSplit && !limits.serverExpandLayers {
        Unmixed(isI18n, ds);
      }
  }

  /**
   * The order of everything sent: a mixed list is sent as its non-i18n
   * modules, in list order, followed by its i18n modules, in list order; any
   * other list is sent in its own order.
   */
  lemma PlanOrder(limits: Limits, isI18n: Dep -> bool, urlLength: seq<Dep> -> nat, ds: seq<Dep>)
    ensures Flatten(Plan(limits, isI18n, urlLength, ds)) ==
              if Mixed(limits, isI18n, ds) then Part(isI18n, ds, false) + Part(isI18n, ds, true) else ds
  {
    if Mixed(limits, isI18n, ds) {
      var non, i18n := Part(isI18n, ds, false), Part(isI18n, ds, true);
      assert OneKind(isI18n, non) && OneKind(isI18n, i18n);
      PlanKeepsOrder(limits, isI18n, urlLength, non);
      PlanKeepsOrder(limits, isI18n, urlLength, i18n);
      FlattenAppend(Plan(limits, isI18n, urlLength, non), Plan(limits, isI18n, urlLength, i18n));
    } else {
      if limits.i18nSplit && !limits.serverExpandLayers {
        Unmixed(isI18n, ds);
      }
      PlanKeepsOrder(limits, isI18n, urlLength, ds);
    }
  }
}
