/**
 * Module ids as the combo loader extension (_loaderExt.js) sees them: the
 * requested-module record, the id sent to the server, the "supported module"
 * test and the default i18n-resource test.
 */
module ModuleIds {
  import opened Wrappers

  /** A module handed to `combo.add`: its loader plugin prefix ("" when none) and its name. */
  datatype Dep = Dep(prefix: string, name: string)

  /** The id the loader uses for a module: `prefix!name`, or the bare name without a prefix. */
  function Mid(d: Dep): string
  {
    if d.prefix != "" then d.prefix + "!" + d.name else d.name
  }

  /** The ids of a list of modules, in list order. */
  function Mids(ds: seq<Dep>): (r: seq<string>)
    ensures |r| == |ds| && forall i :: 0 <= i < |ds| ==> r[i] == Mid(ds[i])
  {
    if ds == [] then [] else Mids(ds[..|ds| - 1]) + [Mid(ds[|ds| - 1])]
  }

  /** `s[p..p+3]` is "://" and the character before it is neither ':' nor '/': a `name://` scheme. */
  predicate SchemeAt(s: string, p: int)
  {
    1 <= p && p + 3 <= |s| && s[p - 1] != ':' && s[p - 1] != '/' &&
    s[p] == ':' && s[p + 1] == '/' && s[p + 2] == '/'
  }

  /** Scans for a scheme, the unanchored alternative of the regular expression. */
  function HasScheme(s: string): bool
    decreases |s|
  {
    |s| >= 4 && (SchemeAt(s, 1) || HasScheme(s[1..]))
  }

  /** The scan finds a scheme exactly when there is one. */
  lemma {:induction false} HasSchemeIff(s: string)
    ensures HasScheme(s) <==> exists p :: SchemeAt(s, p)
    decreases |s|
  {
    if |s| >= 4 {
      HasSchemeIff(s[1..]);
      if HasScheme(s[1..]) {
        var p :| SchemeAt(s[1..], p);
        assert SchemeAt(s, p + 1);
      }
      if exists p :: SchemeAt(s, p) {
        var p :| SchemeAt(s, p);
        if p != 1 {
          assert SchemeAt(s[1..], p - 1);
        }
      }
    } else {
      assert forall p :: !SchemeAt(s, p);
    }
  }

  /** `isNotAbsoluteOrServerRelative`: false for an id starting with '/' or containing a `name://` scheme. */
  function IsNotAbsoluteOrServerRelative(mid: string): (r: bool)
    ensures r <==> !(|mid| > 0 && mid[0] == '/') && !(exists p :: SchemeAt(mid, p))
  {
    HasSchemeIff(mid);
    !(|mid| > 0 && mid[0] == '/') && !HasScheme(mid)
  }

  /** `combo.isSupportedModule`: an id the aggregator can serve, further restricted by the application's predicate. */
  function IsSupportedModule(userSupported: string -> bool, mid: string): (r: bool)
    ensures r ==> userSupported(mid)
    ensures |mid| > 0 && mid[0] == '/' ==> !r
    ensures (exists p :: SchemeAt(mid, p)) ==> !r
    ensures IsNotAbsoluteOrServerRelative(mid) ==> (r <==> userSupported(mid))
  {
    IsNotAbsoluteOrServerRelative(mid) && userSupported(mid)
  }

  /** `s[k..k+5]` is "/nls/". */
  predicate NlsAt(s: string, k: int)
  {
    0 <= k && k + 5 <= |s| && s[k..k + 5] == "/nls/"
  }

  /** Scans for "/nls/", which is what the pattern `.?\/nls\/.?` finds. */
  function HasNlsSegment(s: string): bool
    decreases |s|
  {
    |s| >= 5 && (NlsAt(s, 0) || HasNlsSegment(s[1..]))
  }

  /** The scan finds "/nls/" exactly when the name holds it. */
  lemma {:induction false} HasNlsSegmentIff(s: string)
    ensures HasNlsSegment(s) <==> exists k :: NlsAt(s, k)
    decreases |s|
  {
    if |s| >= 5 {
      HasNlsSegmentIff(s[1..]);
      if HasNlsSegment(s[1..]) {
        var k :| NlsAt(s[1..], k);
        assert s[1..][k..k + 5] == s[k + 1..k + 6];
        assert NlsAt(s, k + 1);
      }
      if exists k :: NlsAt(s, k) {
        var k :| NlsAt(s, k);
        if k != 0 {
          assert s[1..][k - 1..k + 4] == s[k..k + 5];
          assert NlsAt(s[1..], k - 1);
        }
      }
    } else {
      assert forall k :: !NlsAt(s, k);
    }
  }

  /** Name of the aggregator's i18n loader plugin. */
  const ComboI18n := "combo/i18n"

  /**
   * The default `combo.isI18nResource`: with the combo/i18n plugin registered,
   * exactly the modules loaded through it; otherwise the unprefixed modules
   * whose name holds an `/nls/` segment.
   */
  function DefaultIsI18nResource(plugins: set<string>, d: Dep): (r: bool)
    ensures ComboI18n in plugins ==> (r <==> d.prefix == ComboI18n)
    ensures ComboI18n !in plugins ==> (r <==> d.prefix == "" && exists k :: NlsAt(d.name, k))
  {
    HasNlsSegmentIff(d.name);
    if ComboI18n in plugins then d.prefix == ComboI18n
    else d.prefix == "" && HasNlsSegment(d.name)
  }

  /** `combo.isI18nResource`: the application's predicate when it configured one, else the default. */
  function IsI18nResource(custom: Option<Dep -> bool>, plugins: set<string>, d: Dep): (r: bool)
    ensures custom.Some? ==> r == custom.value(d)
    ensures custom.None? ==> r == DefaultIsI18nResource(plugins, d)
  {
    match custom
    case Some(f) => f(d)
    case None => DefaultIsI18nResource(plugins, d)
  }
}
